/** How an export spreads its source rows over writers, and what the writers report. */
module Export {
  import opened Common

  const MAX_GROUP_COUNT: nat := 300
  const USIZE_MAX: nat := 0xFFFF_FFFF_FFFF_FFFF

  // ----- the number of writers

  function Clamp(x: nat, low: nat, high: nat): (r: nat)
    requires low <= high
  {
    if x < low then low else if x > high then high else x
  }

  /** `group_count` */
  function GroupCount(nodes: nat, perNode: nat, upperBound: nat): (g: nat)
    ensures 1 <= g <= 300 && (upperBound >= 1 ==> g <= upperBound)
    ensures nodes * perNode == 0 || upperBound == 0 ==> g == 1
    ensures 1 <= nodes * perNode <= upperBound && nodes * perNode <= 300 ==> g == nodes * perNode
    ensures upperBound >= 1 && (nodes * perNode > upperBound || nodes * perNode > 300) ==>
              g == if upperBound < 300 then upperBound else 300
  {
    var product := if nodes * perNode > USIZE_MAX then USIZE_MAX else nodes * perNode;
    Clamp(product, 1, Clamp(upperBound, 1, MAX_GROUP_COUNT))
  }

  datatype WriterLayout = SingleCommit | PerNode(writers: nat)

  /** `WriterSelect::group_count` */
  function Groups(layout: WriterLayout, nodes: nat): (g: nat)
    ensures 1 <= g <= 300 && (layout.SingleCommit? ==> g == 1)
  {
    match layout
    case SingleCommit => 1
    case PerNode(perNode) => GroupCount(nodes, perNode, USIZE_MAX)
  }

  // ----- one writer

  /** The rows of one SET group as the host hands them out */
  class RowCursor {
    const rows: nat
    var served: nat

    constructor (rows: nat)
      ensures this.rows == rows && served == 0
    {
      this.rows := rows;
      served := 0;
    }

    /** The first call stays on the first row; each later one moves on. */
    method Next() returns (more: bool)
      modifies this
      ensures more == (old(served) < rows)
      ensures served == if more then old(served) + 1 else old(served)
    {
      more := served < rows;
      if more {
        served := served + 1;
      }
    }
  }

  /** `run_writer`: the rows of its group, or an error if the writer spec or its connection is refused. */
  method RunWriter(cursor: RowCursor, spec: Option<string>, access: string -> bool) returns (r: Result<nat>)
    requires cursor.served == 0
    modifies cursor
    ensures cursor.rows == 0 ==> r == Ok(0)
    ensures cursor.rows > 0 ==> r == if spec.Some? && access(spec.value) then Ok(cursor.rows) else Err
    ensures r.Ok? ==> cursor.served == cursor.rows
  {
    var more := cursor.Next();
    if !more {
      return Ok(0);
    }
    if spec.None? || !access(spec.value) {
      return Err;
    }
    var rows := 1;
    more := cursor.Next();
    while more
      invariant rows <= cursor.rows && cursor.served == if more then rows + 1 else rows
      invariant !more ==> rows == cursor.rows
      invariant cursor.served <= cursor.rows
      decreases cursor.rows - rows
    {
      rows := rows + 1;
      more := cursor.Next();
    }
    return Ok(rows);
  }

  // ----- all writers

  /** `MOD(ROWNUM, groups)` */
  function Key(row: nat, groups: nat): (k: nat)
    requires groups > 0
    ensures k < groups
  {
    row % groups
  }

  /** The row numbers of one group, of rows 1 to `rows` */
  function Group(rows: nat, groups: nat, key: nat): (r: set<nat>)
    requires groups > 0
  {
    set row | 1 <= row <= rows && Key(row, groups) == key
  }

  /** The writers' counts added up, over the keys below `k` */
  function Total(rows: nat, groups: nat, k: nat): (r: nat)
    requires groups > 0
  {
    if k == 0 then 0 else Total(rows, groups, k - 1) + |Group(rows, groups, k - 1)|
  }

  lemma GroupGrows(rows: nat, groups: nat, key: nat)
    requires groups > 0
    ensures |Group(rows + 1, groups, key)| == |Group(rows, groups, key)| + if Key(rows + 1, groups) == key then 1 else 0
  {
    hide Key;
    if Key(rows + 1, groups) == key {
      assert Group(rows + 1, groups, key) == Group(rows, groups, key) + {rows + 1};
    } else {
      assert Group(rows + 1, groups, key) == Group(rows, groups, key);
    }
  }

  lemma {:induction false} TotalGrows(rows: nat, groups: nat, k: nat)
    requires groups > 0
    ensures Total(rows + 1, groups, k) == Total(rows, groups, k) + if Key(rows + 1, groups) < k then 1 else 0
  {
    if k > 0 {
      hide Key;
      TotalGrows(rows, groups, k - 1);
      GroupGrows(rows, groups, k - 1);
    }
  }

  lemma {:induction false} NothingToTotal(groups: nat, k: nat)
    requires groups > 0
    ensures Total(0, groups, k) == 0
  {
    if k > 0 {
      NothingToTotal(groups, k - 1);
      assert Group(0, groups, k - 1) == {};
    }
  }

  lemma {:induction false} CountsAddUp(rows: nat, groups: nat)
    requires groups > 0
    ensures Total(rows, groups, groups) == rows
  {
    if rows == 0 {
      NothingToTotal(groups, groups);
    } else {
      CountsAddUp(rows - 1, groups);
      TotalGrows(rows - 1, groups, groups);
    }
  }

  /** The keys whose group holds a row, below `k` */
  function Busy(rows: nat, groups: nat, k: nat): (r: set<nat>)
    requires groups > 0
  {
    set key | 0 <= key < k && Group(rows, groups, key) != {}
  }

  lemma SmallKeys(row: nat, groups: nat)
    requires groups > 0
    ensures row < groups ==> Key(row, groups) == row
    ensures Key(groups, groups) == 0
  {
  }

  lemma BusyExactly(rows: nat, groups: nat, key: nat)
    requires groups > 0 && key < groups
    ensures Group(rows, groups, key) != {} <==> if key == 0 then rows >= groups else rows >= key
  {
    hide Key;
    var least := if key == 0 then groups else key;
    SmallKeys(key, groups);
    if rows >= least {
      assert least in Group(rows, groups, key);
    } else {
      forall row: nat | 1 <= row <= rows ensures row !in Group(rows, groups, key) {
        SmallKeys(row, groups);
      }
    }
  }

  lemma {:induction false} BusyCount(rows: nat, groups: nat, k: nat)
    requires 0 < k <= groups
    ensures |Busy(rows, groups, k)| == (if rows >= groups then 1 else 0) + (if rows < k - 1 then rows else k - 1)
  {
    hide Group;
    BusyExactly(rows, groups, k - 1);
    if k == 1 {
      assert Busy(rows, groups, 1) == if rows >= groups then {0} else {};
    } else {
      BusyCount(rows, groups, k - 1);
      assert Busy(rows, groups, k) == Busy(rows, groups, k - 1) + if rows >= k - 1 then {k - 1} else {};
    }
  }

  /** As many groups hold rows as there are rows, up to the number of groups. */
  lemma BusyGroups(rows: nat, groups: nat)
    requires groups > 0
    ensures |Busy(rows, groups, groups)| == if rows < groups then rows else groups
  {
    hide Busy;
    BusyCount(rows, groups, groups);
  }

  /**
   For every row count, node count and layout: each row is in exactly one group, the writers'
   counts add up to the row count, and min(rows, groups) groups hold rows.
   */
  lemma ExportConserves(rows: nat, nodes: nat, layout: WriterLayout)
    ensures var groups := Groups(layout, nodes);
      && 1 <= groups <= 300
      && (forall row, key :: 1 <= row <= rows && 0 <= key < groups ==>
            (row in Group(rows, groups, key) <==> key == Key(row, groups)))
      && Total(rows, groups, groups) == rows
      && |Busy(rows, groups, groups)| == (if rows < groups then rows else groups)
  {
    hide Groups, Key, Total, Busy;
    var groups := Groups(layout, nodes);
    CountsAddUp(rows, groups);
    BusyGroups(rows, groups);
  }

  /**
   The statement the planner writes: a writer for each group that holds rows, with the same writer
   spec for all. The writers' reports add up to the rows of the source, or some writer is refused.
   */
  method RunExport(rows: nat, nodes: nat, layout: WriterLayout, spec: Option<string>, access: string -> bool)
    returns (reported: Result<nat>, writers: nat)
    ensures reported == if rows == 0 || (spec.Some? && access(spec.value)) then Ok(rows) else Err
    ensures reported.Ok? ==> var groups := Groups(layout, nodes); writers == if rows < groups then rows else groups
  {
    hide Key, Group, Busy, Total;
    var groups := Groups(layout, nodes);
    ExportConserves(rows, nodes, layout);
    reported, writers := Ok(0), 0;
    NoneYet(rows, groups);
    for key := 0 to groups
      invariant reported == Ok(Total(rows, groups, key)) && writers == |Busy(rows, groups, key)|
      invariant writers > 0 ==> spec.Some? && access(spec.value)
      invariant writers == 0 ==> Total(rows, groups, key) == 0
    {
      OneMore(rows, groups, key);
      var size := |Group(rows, groups, key)|;
      if size > 0 {
        BusyHasRows(rows, groups, key);
        var cursor := new RowCursor(size);
        var r := RunWriter(cursor, spec, access);
        if r.Err? {
          return Err, writers;
        }
        reported, writers := Ok(reported.value + r.value), writers + 1;
      }
    }
  }

  lemma NoneYet(rows: nat, groups: nat)
    requires groups > 0
    ensures Busy(rows, groups, 0) == {} && Total(rows, groups, 0) == 0
  {
  }

  lemma OneMore(rows: nat, groups: nat, key: nat)
    requires key < groups
    ensures var size := |Group(rows, groups, key)|;
      && Total(rows, groups, key + 1) == Total(rows, groups, key) + size
      && |Busy(rows, groups, key + 1)| == |Busy(rows, groups, key)| + if size > 0 then 1 else 0
  {
    hide Group;
    if Group(rows, groups, key) == {} {
      assert Busy(rows, groups, key + 1) == Busy(rows, groups, key);
    } else {
      assert Busy(rows, groups, key + 1) == Busy(rows, groups, key) + {key};
    }
  }

  lemma BusyHasRows(rows: nat, groups: nat, key: nat)
    requires groups > 0 && |Group(rows, groups, key)| > 0
    ensures rows > 0
  {
    var row :| row in Group(rows, groups, key);
  }
}

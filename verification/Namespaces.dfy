/** The listing of a namespace's tables, its descendants' included, over any paging of each answer. */
module Namespaces {
  import opened Common

  type Ident = seq<string>

  datatype TableIdent = TableIdent(namespace: Ident, name: string)

  datatype Page<+T> = Page(items: seq<T>, next: Option<string>)

  /** How the catalog answers one listing: a page, or a failed request, for each page token */
  type Answers<!T> = Option<string> -> Result<Page<T>>

  datatype Catalog = Catalog(tables: Ident -> Answers<TableIdent>, children: Ident -> Answers<Ident>)

  /** `xs` and then the items of `r`, or the failure */
  function Before<T>(xs: seq<T>, r: Result<seq<T>>): (s: Result<seq<T>>)
  {
    if r.Err? then Err else Ok(xs + r.value)
  }

  lemma BeforeTwice<T>(xs: seq<T>, ys: seq<T>, r: Result<seq<T>>)
    ensures Before(xs, Before(ys, r)) == Before(xs + ys, r) && Before([], r) == r && Before(xs, Ok([])) == Ok(xs)
  {
    assert xs + [] == xs;
    if r.Ok? {
      assert xs + (ys + r.value) == xs + ys + r.value && [] + r.value == r.value;
    }
  }

  // ----- one listing

  /** A page whose token asks for another page; an empty token does not. */
  predicate GoesOn<T>(reply: Result<Page<T>>)
  {
    reply.Ok? && reply.value.next.Some? && reply.value.next.value != ""
  }

  /** `replies` are the answers to the requests that follow the tokens from `token` on. */
  ghost predicate Serves<T>(answers: Answers<T>, token: Option<string>, replies: seq<Result<Page<T>>>)
    decreases |replies|
  {
    && replies != []
    && answers(token) == replies[0]
    && if GoesOn(replies[0]) then Serves(answers, replies[0].value.next, replies[1..]) else |replies| == 1
  }

  /** A listing ends with a failure, or with a page that has no token or an empty one. */
  predicate IsLast<T>(reply: Result<Page<T>>)
  {
    match reply
    case Err => true
    case Ok(page) => page.next.None? || page.next.value == ""
  }

  /** Each request but the first asks with the token of the page before; the listing stops at the first last page. */
  lemma {:induction false} PagingExactly<T>(answers: Answers<T>, token: Option<string>, replies: seq<Result<Page<T>>>)
    ensures Serves(answers, token, replies) <==>
      && replies != [] && answers(token) == replies[0]
      && (forall k :: 0 <= k < |replies| - 1 ==>
            !IsLast(replies[k]) && answers(replies[k].value.next) == replies[k + 1])
      && IsLast(replies[|replies| - 1])
    decreases |replies|
  {
    if |replies| > 1 {
      var rest := replies[1..];
      if replies[0].Ok? {
        PagingExactly(answers, replies[0].value.next, rest);
      }
      assert forall k :: 0 <= k < |rest| ==> rest[k] == replies[k + 1];
      assert forall k :: 0 < k < |replies| - 1 ==> replies[k] == rest[k - 1] && replies[k + 1] == rest[k];
    }
  }

  /** All items of all pages, in order, or the failure */
  function Listed<T>(replies: seq<Result<Page<T>>>): (r: Result<seq<T>>)
    decreases |replies|
  {
    if replies == [] then Ok([])
    else if replies[0].Err? then Err
    else Before(replies[0].value.items, Listed(replies[1..]))
  }

  /** `list_pages`; `replies` is what the catalog's finite paging answers. */
  method ListPages<T>(answers: Answers<T>, ghost replies: seq<Result<Page<T>>>) returns (r: Result<seq<T>>)
    requires Serves(answers, None, replies)
    ensures r == Listed(replies)
  {
    var all: seq<T> := [];
    var token: Option<string> := None;
    ghost var left := replies;
    BeforeTwice([], [], Listed(replies));
    while true
      invariant Serves(answers, token, left)
      invariant Listed(replies) == Before(all, Listed(left))
      decreases |left|
    {
      var reply := answers(token);
      if reply.Err? {
        return Err;
      }
      BeforeTwice(all, reply.value.items, Listed(left[1..]));
      all := all + reply.value.items;
      if reply.value.next.Some? && reply.value.next.value != "" {
        token := reply.value.next;
        left := left[1..];
      } else {
        BeforeTwice(all, [], Listed(left[1..]));
        return Ok(all);
      }
    }
  }

  // ----- the tree of namespaces

  /** A namespace with its tables, its child namespaces, and whether each listing of them succeeds */
  datatype Tree = Tree(ns: Ident, tables: seq<TableIdent>, tablesListed: bool, kids: seq<Tree>, kidsListed: bool)

  function Names(ts: seq<Tree>): (r: seq<Ident>)
    ensures |r| == |ts| && forall k :: 0 <= k < |ts| ==> r[k] == ts[k].ns
  {
    Map((t: Tree) => t.ns, ts)
  }

  ghost predicate Answered<T(!new)>(answers: Answers<T>, listed: bool, items: seq<T>)
  {
    exists replies :: Serves(answers, None, replies) && Listed(replies) == if listed then Ok(items) else Err
  }

  /**
   The catalog answers for every namespace of the tree as the tree says, over some finite paging.
   Nothing is asked of a listing that is never requested.
   */
  ghost predicate Mirrors(catalog: Catalog, t: Tree, descend: bool)
    decreases t
  {
    && Answered(catalog.tables(t.ns), t.tablesListed, t.tables)
    && (descend && t.tablesListed ==>
          && Answered(catalog.children(t.ns), t.kidsListed, Names(t.kids))
          && (t.kidsListed ==> forall k :: 0 <= k < |t.kids| ==> Mirrors(catalog, t.kids[k], descend)))
  }

  ghost predicate MirrorsAll(catalog: Catalog, ts: seq<Tree>, descend: bool)
  {
    forall k :: 0 <= k < |ts| ==> Mirrors(catalog, ts[k], descend)
  }

  /** How many namespaces a forest holds */
  function Count(ts: seq<Tree>): (n: nat)
  {
    if ts == [] then 0 else 1 + Count(ts[0].kids) + Count(ts[1..])
  }

  function Kids(ts: seq<Tree>): (r: seq<Tree>)
  {
    if ts == [] then [] else ts[0].kids + Kids(ts[1..])
  }

  function Tables(ts: seq<Tree>): (r: seq<TableIdent>)
  {
    if ts == [] then [] else ts[0].tables + Tables(ts[1..])
  }

  lemma {:induction false} CountConcat(a: seq<Tree>, b: seq<Tree>)
    ensures Count(a + b) == Count(a) + Count(b)
  {
    if a == [] {
      assert a + b == b;
    } else {
      assert (a + b)[1..] == a[1..] + b;
      CountConcat(a[1..], b);
    }
  }

  lemma {:induction false} KidsAreFewer(ts: seq<Tree>)
    ensures Count(ts) == |ts| + Count(Kids(ts))
  {
    if ts != [] {
      KidsAreFewer(ts[1..]);
      CountConcat(ts[0].kids, Kids(ts[1..]));
    }
  }

  predicate AllListed(ts: seq<Tree>)
  {
    forall k :: 0 <= k < |ts| ==> ts[k].tablesListed && ts[k].kidsListed
  }

  /** The tables level by level, as far as every listing succeeds */
  function LevelOrder(ts: seq<Tree>): (r: Result<seq<TableIdent>>)
    decreases Count(ts)
  {
    if ts == [] then Ok([])
    else if !AllListed(ts) then Err
    else
      KidsAreFewer(ts);
      Before(Tables(ts), LevelOrder(Kids(ts)))
  }

  // ----- the walk

  lemma {:induction false} KidsConcat(a: seq<Tree>, t: Tree)
    ensures Kids(a + [t]) == Kids(a) + t.kids && Tables(a + [t]) == Tables(a) + t.tables
  {
    if a == [] {
      assert a + [t] == [t] && [t][1..] == [];
    } else {
      assert (a + [t])[1..] == a[1..] + [t];
      KidsConcat(a[1..], t);
    }
  }

  lemma {:induction false} KidsMirrored(catalog: Catalog, ts: seq<Tree>)
    requires MirrorsAll(catalog, ts, true) && AllListed(ts)
    ensures MirrorsAll(catalog, Kids(ts), true)
  {
    if ts != [] {
      assert Mirrors(catalog, ts[0], true);
      assert MirrorsAll(catalog, ts[1..], true) by {
        forall k | 0 <= k < |ts[1..]| ensures Mirrors(catalog, ts[1..][k], true) {
          assert Mirrors(catalog, ts[k + 1], true);
        }
      }
      KidsMirrored(catalog, ts[1..]);
    }
  }

  /** What one namespace's listings give: its tables and, if the walk descends, its children */
  function Visit(t: Tree, descend: bool): (r: Result<(seq<TableIdent>, seq<Ident>)>)
  {
    if !t.tablesListed || (descend && !t.kidsListed) then Err
    else Ok((t.tables, if descend then Names(t.kids) else []))
  }

  method ListNamespace(catalog: Catalog, ns: Ident, descend: bool, ghost t: Tree)
    returns (r: Result<(seq<TableIdent>, seq<Ident>)>)
    requires ns == t.ns && Mirrors(catalog, t, descend)
    ensures r == Visit(t, descend)
  {
    hide Serves, Listed;
    ghost var pages :| Serves(catalog.tables(ns), None, pages)
      && Listed(pages) == if t.tablesListed then Ok(t.tables) else Err;
    var tables := ListPages(catalog.tables(ns), pages);
    if tables.Err? {
      return Err;
    }
    if !descend {
      return Ok((tables.value, []));
    }
    ghost var kidPages :| Serves(catalog.children(ns), None, kidPages)
      && Listed(kidPages) == if t.kidsListed then Ok(Names(t.kids)) else Err;
    var children := ListPages(catalog.children(ns), kidPages);
    if children.Err? {
      return Err;
    }
    return Ok((tables.value, children.value));
  }

  /** One round: every namespace of a level is listed, in order. */
  method ListLevel(catalog: Catalog, level: seq<Ident>, descend: bool, ghost ts: seq<Tree>)
    returns (r: Result<(seq<TableIdent>, seq<Ident>)>)
    requires level == Names(ts) && MirrorsAll(catalog, ts, descend)
    ensures r.Ok? <==> forall k :: 0 <= k < |ts| ==> Visit(ts[k], descend).Ok?
    ensures r.Ok? ==> r.value == (Tables(ts), if descend then Names(Kids(ts)) else [])
  {
    hide Mirrors, Names;
    var tables: seq<TableIdent>, next: seq<Ident> := [], [];
    for k := 0 to |level|
      invariant tables == Tables(ts[..k]) && next == if descend then Names(Kids(ts[..k])) else []
      invariant forall j :: 0 <= j < k ==> Visit(ts[j], descend).Ok?
    {
      var found := ListNamespace(catalog, level[k], descend, ts[k]);
      if found.Err? {
        return Err;
      }
      KidsConcat(ts[..k], ts[k]);
      NamesConcat(Kids(ts[..k]), ts[k].kids);
      assert ts[..k] + [ts[k]] == ts[..k + 1];
      tables, next := tables + found.value.0, next + found.value.1;
    }
    assert ts[..|level|] == ts;
    return Ok((tables, next));
  }

  lemma NamesConcat(a: seq<Tree>, b: seq<Tree>)
    ensures Names(a + b) == Names(a) + Names(b)
  {
  }

  lemma OneTree(t: Tree)
    ensures Names([t]) == [t.ns] && Tables([t]) == t.tables
  {
    assert [t][1..] == [];
  }

  /** `list_namespace_tables`; `tree` is the namespace tree below `root` that the catalog answers for. */
  method ListNamespaceTables(catalog: Catalog, root: Ident, sigv4: bool, ghost tree: Tree)
    returns (r: Result<seq<TableIdent>>)
    requires root != [] ==> tree.ns == root && Mirrors(catalog, tree, !sigv4)
    ensures root == [] ==> r.Err?
    ensures root != [] && !sigv4 ==> r == LevelOrder([tree])
    ensures root != [] && sigv4 ==> r == if tree.tablesListed then Ok(tree.tables) else Err
  {
    hide Mirrors, Names, LevelOrder, Tables, Kids;
    if root == [] {
      return Err;
    }
    var tables: seq<TableIdent>, level := [], [root];
    ghost var ts := [tree];
    assert Names(ts) == level && Tables(ts) == tree.tables by { OneTree(tree); }
    BeforeTwice([], [], LevelOrder(ts));
    while level != []
      invariant level == Names(ts) && MirrorsAll(catalog, ts, !sigv4)
      invariant !sigv4 ==> LevelOrder([tree]) == Before(tables, LevelOrder(ts))
      invariant sigv4 ==> (ts == [tree] && tables == []) || (ts == [] && tables == tree.tables && tree.tablesListed)
      decreases Count(ts)
    {
      var found := ListLevel(catalog, level, !sigv4, ts);
      LevelUnfolds(ts);
      if found.Err? {
        return Err;
      }
      KidsAreFewer(ts);
      if !sigv4 {
        KidsMirrored(catalog, ts);
        BeforeTwice(tables, Tables(ts), LevelOrder(Kids(ts)));
      }
      tables, level := tables + found.value.0, found.value.1;
      ts := if sigv4 then [] else Kids(ts);
    }
    LevelUnfolds(ts);
    BeforeTwice(tables, [], Ok([]));
    return Ok(tables);
  }

  lemma LevelUnfolds(ts: seq<Tree>)
    ensures LevelOrder(ts)
         == if ts == [] then Ok([]) else if !AllListed(ts) then Err else Before(Tables(ts), LevelOrder(Kids(ts)))
  {
  }

  // ----- what the walk returns

  /** Every listing of every namespace succeeds. */
  predicate EveryListed(ts: seq<Tree>)
  {
    ts == [] || (ts[0].tablesListed && ts[0].kidsListed && EveryListed(ts[0].kids) && EveryListed(ts[1..]))
  }

  /** The tables of all namespaces, each namespace before its descendants */
  function DepthFirst(ts: seq<Tree>): (r: seq<TableIdent>)
  {
    if ts == [] then [] else ts[0].tables + DepthFirst(ts[0].kids) + DepthFirst(ts[1..])
  }

  /** The tables `d` levels down, left to right */
  function AtDepth(ts: seq<Tree>, d: nat): (r: seq<TableIdent>)
  {
    if ts == [] then []
    else (if d == 0 then ts[0].tables else AtDepth(ts[0].kids, d - 1)) + AtDepth(ts[1..], d)
  }

  function Levels(ts: seq<Tree>, d: nat, n: nat): (r: seq<TableIdent>)
    decreases n - d
  {
    if d >= n then [] else AtDepth(ts, d) + Levels(ts, d + 1, n)
  }

  lemma {:induction false} ListedConcat(a: seq<Tree>, b: seq<Tree>)
    ensures EveryListed(a + b) <==> EveryListed(a) && EveryListed(b)
  {
    if a == [] {
      assert a + b == b;
    } else {
      assert (a + b)[1..] == a[1..] + b;
      ListedConcat(a[1..], b);
    }
  }

  lemma {:induction false} ListedByLevel(ts: seq<Tree>)
    ensures EveryListed(ts) <==> AllListed(ts) && EveryListed(Kids(ts))
  {
    if ts != [] {
      ListedConcat(ts[0].kids, Kids(ts[1..]));
      ListedByLevel(ts[1..]);
      assert AllListed(ts) <==> AllListed([ts[0]]) && AllListed(ts[1..]) by {
        assert ts == [ts[0]] + ts[1..];
      }
    }
  }

  lemma {:induction false} DepthFirstConcat(a: seq<Tree>, b: seq<Tree>)
    ensures DepthFirst(a + b) == DepthFirst(a) + DepthFirst(b)
  {
    if a == [] {
      assert a + b == b;
    } else {
      assert (a + b)[1..] == a[1..] + b;
      DepthFirstConcat(a[1..], b);
    }
  }

  lemma {:induction false} OnceByLevel(ts: seq<Tree>)
    ensures multiset(DepthFirst(ts)) == multiset(Tables(ts)) + multiset(DepthFirst(Kids(ts)))
  {
    if ts != [] {
      DepthFirstConcat(ts[0].kids, Kids(ts[1..]));
      OnceByLevel(ts[1..]);
    }
  }

  lemma {:induction false} DepthConcat(a: seq<Tree>, b: seq<Tree>, d: nat)
    ensures AtDepth(a + b, d) == AtDepth(a, d) + AtDepth(b, d)
  {
    if a == [] {
      assert a + b == b;
    } else {
      assert (a + b)[1..] == a[1..] + b;
      DepthConcat(a[1..], b, d);
    }
  }

  lemma {:induction false} DepthBelow(ts: seq<Tree>, d: nat)
    ensures AtDepth(Kids(ts), d) == AtDepth(ts, d + 1)
  {
    if ts != [] {
      DepthConcat(ts[0].kids, Kids(ts[1..]), d);
      DepthBelow(ts[1..], d);
    }
  }

  lemma {:induction false} TopLevel(ts: seq<Tree>)
    ensures AtDepth(ts, 0) == Tables(ts)
  {
    if ts != [] {
      TopLevel(ts[1..]);
    }
  }

  lemma {:induction false} LevelsBelow(ts: seq<Tree>, d: nat, n: nat)
    ensures Levels(Kids(ts), d, n) == Levels(ts, d + 1, n + 1)
    decreases n - d
  {
    if d < n {
      DepthBelow(ts, d);
      LevelsBelow(ts, d + 1, n);
    }
  }

  lemma {:induction false} NoLevels(d: nat, n: nat)
    ensures Levels([], d, n) == []
    decreases n - d
  {
    if d < n {
      NoLevels(d + 1, n);
    }
  }

  lemma {:induction false} WalkOfForest(ts: seq<Tree>, n: nat)
    requires n >= Count(ts)
    ensures LevelOrder(ts).Ok? <==> EveryListed(ts)
    ensures LevelOrder(ts).Ok? ==>
      LevelOrder(ts).value == Levels(ts, 0, n) && multiset(LevelOrder(ts).value) == multiset(DepthFirst(ts))
    decreases Count(ts)
  {
    hide Levels, AtDepth, Kids, Tables, LevelOrder, Count, EveryListed, DepthFirst;
    LevelUnfolds(ts);
    ListedByLevel(ts);
    if ts == [] {
      NoLevels(0, n);
      Emptiness();
    } else {
      KidsAreFewer(ts);
      WalkOfForest(Kids(ts), n - 1);
      TopLevel(ts);
      LevelsBelow(ts, 0, n - 1);
      LevelsUnfold(ts, n);
      OnceByLevel(ts);
    }
  }

  lemma Emptiness()
    ensures EveryListed([]) && DepthFirst([]) == []
  {
  }

  lemma LevelsUnfold(ts: seq<Tree>, n: nat)
    requires n > 0
    ensures Levels(ts, 0, n) == AtDepth(ts, 0) + Levels(ts, 1, n)
  {
  }

  /**
   The walk succeeds exactly if every listing below the root does. It then returns every table of
   the root and its descendants exactly once, all tables of one depth before those of the next.
   */
  lemma WalkReturnsEveryTable(tree: Tree)
    ensures LevelOrder([tree]).Ok? <==> EveryListed([tree])
    ensures LevelOrder([tree]).Ok? ==>
      && LevelOrder([tree]).value == Levels([tree], 0, Count([tree]))
      && multiset(LevelOrder([tree]).value) == multiset(DepthFirst([tree]))
  {
    hide LevelOrder, Levels, DepthFirst, EveryListed, Count;
    WalkOfForest([tree], Count([tree]));
  }
}

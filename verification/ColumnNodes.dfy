/** Walking, stripping and rewriting the `column` nodes of a pushdown request. */
module ColumnNodes {
  import opened Common
  import opened Json

  const TABLE_NAME := "tableName"
  const TABLE_ALIAS := "tableAlias"

  datatype Column = Column(name: string, tableName: Option<string>, tableAlias: Option<string>)

  /** `ColumnNode::from_map` */
  function FromMap(fields: seq<Field>): (r: Option<Column>)
  {
    if AsStr(Find(fields, "type")) != Some("column") then None
    else
      var name := AsStr(Find(fields, "name"));
      if name.None? then None
      else Some(Column(name.value, AsStr(Find(fields, TABLE_NAME)), AsStr(Find(fields, TABLE_ALIAS))))
  }

  predicate SaysText(fields: seq<Field>, key: string, text: Option<string>)
  {
    var value := Find(fields, key);
    if text.Some? then value == Some(JStr(text.value)) else value.None? || !value.value.JStr?
  }

  /** A map is read as a column exactly if its type says so and it has a name; table and alias where they are texts. */
  lemma FromMapExactly(fields: seq<Field>, c: Column)
    ensures FromMap(fields) == Some(c) <==>
      && SaysText(fields, "type", Some("column")) && SaysText(fields, "name", Some(c.name))
      && SaysText(fields, "tableName", c.tableName) && SaysText(fields, "tableAlias", c.tableAlias)
  {
    hide Find;
  }

  /** The columns `walk_column_nodes` visits, in its order: a node before what it holds */
  function Walk(t: Json): (r: seq<Column>)
    decreases t, 1
  {
    match t
    case JObj(fields) => Own(fields) + WalkFields(fields)
    case JArr(items) => WalkItems(items)
    case _ => []
  }

  function Own(fields: seq<Field>): (r: seq<Column>)
  {
    var column := FromMap(fields);
    if column.Some? then [column.value] else []
  }

  function WalkFields(fields: seq<Field>): (r: seq<Column>)
    decreases fields, 0
  {
    if fields == [] then [] else Walk(fields[0].value) + WalkFields(fields[1..])
  }

  function WalkItems(items: seq<Json>): (r: seq<Column>)
    decreases items, 0
  {
    if items == [] then [] else Walk(items[0]) + WalkItems(items[1..])
  }

  /** The map is the tree itself or stands somewhere inside it. */
  ghost predicate Inside(fields: seq<Field>, t: Json)
    decreases t
  {
    match t
    case JObj(own) => fields == own || exists f | f in own :: Inside(fields, f.value)
    case JArr(items) => exists i | i in items :: Inside(fields, i)
    case _ => false
  }

  /** The walk visits exactly the columns that stand somewhere in the tree. */
  lemma {:induction false} WalkVisitsExactly(t: Json, c: Column)
    ensures c in Walk(t) <==> exists fields :: Inside(fields, t) && FromMap(fields) == Some(c)
    decreases t, 1
  {
    hide FromMap;
    match t
    case JObj(own) => WalkFieldsExactly(own, c);
    case JArr(items) => WalkItemsExactly(items, c);
    case _ =>
  }

  ghost predicate Visited(t: Json, c: Column) { exists fields :: Inside(fields, t) && FromMap(fields) == Some(c) }

  lemma {:induction false} WalkFieldsExactly(own: seq<Field>, c: Column)
    ensures c in WalkFields(own) <==> exists f | f in own :: Visited(f.value, c)
    decreases own, 0
  {
    hide Walk, Visited;
    if own != [] {
      VisitedExactly(own[0].value, c);
      WalkFieldsExactly(own[1..], c);
      assert own == [own[0]] + own[1..];
    }
  }

  lemma {:induction false} WalkItemsExactly(items: seq<Json>, c: Column)
    ensures c in WalkItems(items) <==> exists i | i in items :: Visited(i, c)
    decreases items, 0
  {
    hide Walk, Visited;
    if items != [] {
      VisitedExactly(items[0], c);
      WalkItemsExactly(items[1..], c);
      assert items == [items[0]] + items[1..];
    }
  }

  lemma {:induction false} VisitedExactly(t: Json, c: Column)
    ensures c in Walk(t) <==> Visited(t, c)
    decreases t, 2
  {
    WalkVisitsExactly(t, c);
  }

  /** `strip_table_alias` */
  function Strip(t: Json): (r: Json)
    decreases t, 1
  {
    match t
    case JObj(fields) => JObj(StripFields(fields))
    case JArr(items) => JArr(StripItems(items))
    case _ => t
  }

  function StripFields(fields: seq<Field>): (r: seq<Field>)
    decreases fields, 0
  {
    if fields == [] then []
    else
      (if fields[0].key == TABLE_ALIAS then [] else [Field(fields[0].key, Strip(fields[0].value))])
      + StripFields(fields[1..])
  }

  function StripItems(items: seq<Json>): (r: seq<Json>)
    decreases items, 0
  {
    if items == [] then [] else [Strip(items[0])] + StripItems(items[1..])
  }

  predicate HasKey(fields: seq<Field>, key: string) { exists k :: 0 <= k < |fields| && fields[k].key == key }

  /** `map.insert`: a held key keeps its place, a new one goes before the first greater key. */
  function Insert(fields: seq<Field>, key: string, value: Json): (r: seq<Field>)
  {
    if fields == [] then [Field(key, value)]
    else if fields[0].key == key then [Field(key, value)] + fields[1..]
    else if Less(key, fields[0].key) && !HasKey(fields[1..], key) then [Field(key, value)] + fields
    else [fields[0]] + Insert(fields[1..], key, value)
  }

  /** A callback that keeps state `S`: for each column an alias, none, or a failure */
  type Callback<!S> = (S, Column) -> (S, Result<Option<string>>)

  /** `rewrite_table_aliases`, with the callback's state before and after */
  function Rewrite<S>(t: Json, f: Callback<S>, state: S): (r: (S, Result<Json>))
    decreases t, 1
  {
    match t
    case JObj(fields) =>
      var (after, out) := RewriteFields(fields, f, state);
      if out.Err? then (after, Err)
      else
        var column := FromMap(fields);
        if column.None? then (after, Ok(JObj(out.value)))
        else
          var (last, alias) := f(after, column.value);
          if alias.Err? then (last, Err) else (last, Ok(JObj(Aliased(out.value, alias.value))))
    case JArr(items) =>
      var (after, out) := RewriteItems(items, f, state);
      (after, if out.Err? then Err else Ok(JArr(out.value)))
    case _ => (state, Ok(t))
  }

  function Aliased(fields: seq<Field>, alias: Option<string>): (r: seq<Field>)
  {
    if alias.Some? then Insert(fields, TABLE_ALIAS, JStr(alias.value)) else fields
  }

  function RewriteFields<S>(fields: seq<Field>, f: Callback<S>, state: S): (r: (S, Result<seq<Field>>))
    decreases fields, 0
  {
    if fields == [] then (state, Ok([]))
    else
      var (after, value) := Rewrite(fields[0].value, f, state);
      if value.Err? then (after, Err)
      else
        var (last, rest) := RewriteFields(fields[1..], f, after);
        (last, if rest.Err? then Err else Ok([Field(fields[0].key, value.value)] + rest.value))
  }

  function RewriteItems<S>(items: seq<Json>, f: Callback<S>, state: S): (r: (S, Result<seq<Json>>))
    decreases items, 0
  {
    if items == [] then (state, Ok([]))
    else
      var (after, value) := Rewrite(items[0], f, state);
      if value.Err? then (after, Err)
      else
        var (last, rest) := RewriteItems(items[1..], f, after);
        (last, if rest.Err? then Err else Ok([value.value] + rest.value))
  }

  // ----- stripping undoes a rewrite

  lemma {:induction false} StripInsert(fields: seq<Field>, value: Json)
    ensures StripFields(Insert(fields, TABLE_ALIAS, value)) == StripFields(fields)
  {
    hide Strip, Less, HasKey;
    var r := Insert(fields, TABLE_ALIAS, value);
    if fields == [] {
      assert r[1..] == [];
    } else if fields[0].key == TABLE_ALIAS {
      assert r[1..] == fields[1..];
    } else if Less(TABLE_ALIAS, fields[0].key) && !HasKey(fields[1..], TABLE_ALIAS) {
      assert r[1..] == fields;
    } else {
      StripInsert(fields[1..], value);
      assert r[1..] == Insert(fields[1..], TABLE_ALIAS, value);
    }
  }

  lemma StripAliased(fields: seq<Field>, alias: Option<string>)
    ensures StripFields(Aliased(fields, alias)) == StripFields(fields)
  {
    hide StripFields, Insert;
    if alias.Some? {
      StripInsert(fields, JStr(alias.value));
    }
  }

  /** Stripping after an alias rewrite equals stripping alone. */
  lemma {:induction false} StripAfterRewrite<S>(t: Json, f: Callback<S>, state: S)
    requires Rewrite(t, f, state).1.Ok?
    ensures Strip(Rewrite(t, f, state).1.value) == Strip(t)
    decreases t, 1
  {
    hide FromMap, Insert;
    match t
    case JObj(fields) =>
      StripFieldsAfter(fields, f, state);
      var (after, out) := RewriteFields(fields, f, state);
      var column := FromMap(fields);
      if column.Some? {
        StripAliased(out.value, f(after, column.value).1.value);
      }
    case JArr(items) => StripItemsAfter(items, f, state);
    case _ =>
  }

  lemma {:induction false} StripFieldsAfter<S>(fields: seq<Field>, f: Callback<S>, state: S)
    requires RewriteFields(fields, f, state).1.Ok?
    ensures StripFields(RewriteFields(fields, f, state).1.value) == StripFields(fields)
    decreases fields, 0
  {
    hide FromMap, Insert;
    if fields != [] {
      StripAfterRewrite(fields[0].value, f, state);
      StripFieldsAfter(fields[1..], f, Rewrite(fields[0].value, f, state).0);
      assert RewriteFields(fields, f, state).1.value[1..]
          == RewriteFields(fields[1..], f, Rewrite(fields[0].value, f, state).0).1.value;
    }
  }

  lemma {:induction false} StripItemsAfter<S>(items: seq<Json>, f: Callback<S>, state: S)
    requires RewriteItems(items, f, state).1.Ok?
    ensures StripItems(RewriteItems(items, f, state).1.value) == StripItems(items)
    decreases items, 0
  {
    hide FromMap, Insert;
    if items != [] {
      StripAfterRewrite(items[0], f, state);
      StripItemsAfter(items[1..], f, Rewrite(items[0], f, state).0);
      assert RewriteItems(items, f, state).1.value[1..]
          == RewriteItems(items[1..], f, Rewrite(items[0], f, state).0).1.value;
    }
  }

  // ----- when a rewrite fails

  /** The columns in the order the rewrite hands them to its callback: a node after what it holds */
  function Calls(t: Json): (r: seq<Column>)
    decreases t, 1
  {
    match t
    case JObj(fields) => CallsFields(fields) + Own(fields)
    case JArr(items) => CallsItems(items)
    case _ => []
  }

  function CallsFields(fields: seq<Field>): (r: seq<Column>)
    decreases fields, 0
  {
    if fields == [] then [] else Calls(fields[0].value) + CallsFields(fields[1..])
  }

  function CallsItems(items: seq<Json>): (r: seq<Column>)
    decreases items, 0
  {
    if items == [] then [] else Calls(items[0]) + CallsItems(items[1..])
  }

  /** The callback's state after these columns, or after the first it fails on, and whether none failed */
  function Feed<S>(f: Callback<S>, state: S, columns: seq<Column>): (r: (S, bool))
  {
    if columns == [] then (state, true)
    else
      var (after, alias) := f(state, columns[0]);
      if alias.Err? then (after, false) else Feed(f, after, columns[1..])
  }

  lemma {:induction false} FeedConcat<S>(f: Callback<S>, state: S, a: seq<Column>, b: seq<Column>)
    ensures var first := Feed(f, state, a);
      Feed(f, state, a + b) == if first.1 then Feed(f, first.0, b) else first
  {
    if a == [] {
      assert a + b == b;
    } else {
      assert (a + b)[1..] == a[1..] + b;
      FeedConcat(f, f(state, a[0]).0, a[1..], b);
    }
  }

  /** A rewrite hands its callback the columns of `Calls`, in order, up to the first failure. */
  lemma {:induction false} RewriteFeeds<S>(t: Json, f: Callback<S>, state: S)
    ensures (Rewrite(t, f, state).0, Rewrite(t, f, state).1.Ok?) == Feed(f, state, Calls(t))
    decreases t, 1
  {
    hide FromMap, Insert;
    match t
    case JObj(fields) =>
      RewriteFieldsFeeds(fields, f, state);
      FeedConcat(f, state, CallsFields(fields), Own(fields));
      if FromMap(fields).Some? {
        assert Own(fields)[1..] == [];
      }
    case JArr(items) => RewriteItemsFeeds(items, f, state);
    case _ =>
  }

  lemma {:induction false} RewriteFieldsFeeds<S>(fields: seq<Field>, f: Callback<S>, state: S)
    ensures (RewriteFields(fields, f, state).0, RewriteFields(fields, f, state).1.Ok?)
         == Feed(f, state, CallsFields(fields))
    decreases fields, 0
  {
    hide FromMap, Insert, Rewrite, Calls, Feed;
    if fields == [] {
      FeedNothing(f, state);
    } else {
      RewriteFeeds(fields[0].value, f, state);
      FeedConcat(f, state, Calls(fields[0].value), CallsFields(fields[1..]));
      RewriteFieldsFeeds(fields[1..], f, Rewrite(fields[0].value, f, state).0);
    }
  }

  lemma {:induction false} RewriteItemsFeeds<S>(items: seq<Json>, f: Callback<S>, state: S)
    ensures (RewriteItems(items, f, state).0, RewriteItems(items, f, state).1.Ok?) == Feed(f, state, CallsItems(items))
    decreases items, 0
  {
    hide FromMap, Insert, Rewrite, Calls, Feed;
    if items == [] {
      FeedNothing(f, state);
    } else {
      RewriteFeeds(items[0], f, state);
      FeedConcat(f, state, Calls(items[0]), CallsItems(items[1..]));
      RewriteItemsFeeds(items[1..], f, Rewrite(items[0], f, state).0);
    }
  }

  lemma FeedNothing<S>(f: Callback<S>, state: S)
    ensures Feed(f, state, []) == (state, true)
  {
  }

  /** The rewrite visits the columns the walk visits, each as often. */
  lemma {:induction false} CallsAreWalked(t: Json)
    ensures multiset(Calls(t)) == multiset(Walk(t))
    decreases t, 1
  {
    hide FromMap, Own;
    match t
    case JObj(fields) => CallsFieldsWalked(fields);
    case JArr(items) => CallsItemsWalked(items);
    case _ =>
  }

  lemma {:induction false} CallsFieldsWalked(fields: seq<Field>)
    ensures multiset(CallsFields(fields)) == multiset(WalkFields(fields))
    decreases fields, 0
  {
    hide Calls, Walk;
    if fields != [] {
      CallsAreWalked(fields[0].value);
      CallsFieldsWalked(fields[1..]);
    }
  }

  lemma {:induction false} CallsItemsWalked(items: seq<Json>)
    ensures multiset(CallsItems(items)) == multiset(WalkItems(items))
    decreases items, 0
  {
    hide Calls, Walk;
    if items != [] {
      CallsAreWalked(items[0]);
      CallsItemsWalked(items[1..]);
    }
  }

  /** The callback fails at call number `k`, and at none before. */
  predicate FailsAt<S>(f: Callback<S>, state: S, columns: seq<Column>, k: nat)
    requires k < |columns|
  {
    var (before, fine) := Feed(f, state, columns[..k]);
    fine && f(before, columns[k]).1.Err?
  }

  lemma {:induction false} FeedFails<S>(f: Callback<S>, state: S, columns: seq<Column>)
    ensures !Feed(f, state, columns).1 <==> exists k :: 0 <= k < |columns| && FailsAt(f, state, columns, k)
  {
    if columns != [] {
      var (after, alias) := f(state, columns[0]);
      FeedNothing(f, state);
      if alias.Err? {
        assert FailsAt(f, state, columns, 0);
      } else {
        FeedFails(f, after, columns[1..]);
        forall k | 0 < k < |columns| ensures FailsAt(f, state, columns, k) <==> FailsAt(f, after, columns[1..], k - 1) {
          assert columns[..k][1..] == columns[1..][..k - 1];
        }
        assert !FailsAt(f, state, columns, 0);
        if k :| 0 <= k < |columns| - 1 && FailsAt(f, after, columns[1..], k) {
          assert FailsAt(f, state, columns, k + 1);
        }
      }
    }
  }

  /** A rewrite fails exactly if the callback, whatever state it keeps, fails at one of its calls. */
  lemma RewriteFailsExactly<S>(t: Json, f: Callback<S>, state: S)
    ensures Rewrite(t, f, state).1.Err? <==> exists k :: 0 <= k < |Calls(t)| && FailsAt(f, state, Calls(t), k)
  {
    hide Rewrite, Calls, Feed, FailsAt;
    RewriteFeeds(t, f, state);
    FeedFails(f, state, Calls(t));
  }

  // ----- a callback without state

  type Aliases = Column -> Result<Option<string>>

  function Stateless(g: Aliases): (f: Callback<()>)
  {
    (state, column) => ((), g(column))
  }

  lemma {:induction false} StatelessFeeds(g: Aliases, columns: seq<Column>)
    ensures Feed(Stateless(g), (), columns).1 <==> forall k :: 0 <= k < |columns| ==> g(columns[k]).Ok?
  {
    if columns != [] {
      StatelessFeeds(g, columns[1..]);
      assert columns == [columns[0]] + columns[1..];
    }
  }

  function Rewritten(t: Json, g: Aliases): (r: Result<Json>) { Rewrite(t, Stateless(g), ()).1 }

  /** Without state, a rewrite fails exactly if the callback fails on some column the walk visits. */
  lemma PureRewriteFails(t: Json, g: Aliases)
    ensures Rewritten(t, g).Err? <==> exists c :: c in Walk(t) && g(c).Err?
  {
    hide Rewrite, Calls, Walk, Feed;
    RewriteFeeds(t, Stateless(g), ());
    StatelessFeeds(g, Calls(t));
    CallsAreWalked(t);
    assert forall c :: c in Walk(t) <==> c in multiset(Walk(t));
    assert forall c :: c in Calls(t) <==> c in multiset(Calls(t));
  }

  // ----- what the rewritten tree says

  predicate IsScalar(j: Json) { !j.JArr? && !j.JObj? }

  /** No `tableAlias` holds an array or an object, at any depth. */
  predicate ScalarAliases(t: Json)
    decreases t, 1
  {
    match t
    case JObj(fields) => ScalarFields(fields)
    case JArr(items) => ScalarItems(items)
    case _ => true
  }

  predicate ScalarFields(fields: seq<Field>)
    decreases fields, 0
  {
    fields == [] || (
      && (fields[0].key == TABLE_ALIAS ==> IsScalar(fields[0].value))
      && ScalarAliases(fields[0].value) && ScalarFields(fields[1..]))
  }

  predicate ScalarItems(items: seq<Json>)
    decreases items, 0
  {
    items == [] || (ScalarAliases(items[0]) && ScalarItems(items[1..]))
  }

  predicate TopScalar(fields: seq<Field>)
  {
    forall k :: 0 <= k < |fields| && fields[k].key == TABLE_ALIAS ==> IsScalar(fields[k].value)
  }

  /** A column with the alias it is given, or its own where it is given none */
  function With(c: Column, alias: Result<Option<string>>): (r: Column)
  {
    if alias.Ok? && alias.value.Some? then c.(tableAlias := alias.value) else c
  }

  /** The columns in the order of the walk, each with the alias the callback gives it at its call */
  function Given<S>(t: Json, f: Callback<S>, state: S): (r: seq<Column>)
    decreases t, 1
  {
    match t
    case JObj(fields) => OwnGiven(fields, f, Feed(f, state, CallsFields(fields)).0) + GivenFields(fields, f, state)
    case JArr(items) => GivenItems(items, f, state)
    case _ => []
  }

  /** An object's own column comes first in the walk, and is handed out after all that it holds. */
  function OwnGiven<S>(fields: seq<Field>, f: Callback<S>, after: S): (r: seq<Column>)
  {
    var column := FromMap(fields);
    if column.Some? then [With(column.value, f(after, column.value).1)] else []
  }

  function GivenFields<S>(fields: seq<Field>, f: Callback<S>, state: S): (r: seq<Column>)
    decreases fields, 0
  {
    if fields == [] then []
    else Given(fields[0].value, f, state) + GivenFields(fields[1..], f, Feed(f, state, Calls(fields[0].value)).0)
  }

  function GivenItems<S>(items: seq<Json>, f: Callback<S>, state: S): (r: seq<Column>)
    decreases items, 0
  {
    if items == [] then []
    else Given(items[0], f, state) + GivenItems(items[1..], f, Feed(f, state, Calls(items[0])).0)
  }

  lemma {:induction false} FindInserted(fields: seq<Field>, key: string, value: Json, other: string)
    ensures Find(Insert(fields, key, value), other) == if other == key then Some(value) else Find(fields, other)
  {
    hide Less, HasKey;
    var r := Insert(fields, key, value);
    if fields == [] {
      assert r[1..] == [];
    } else if fields[0].key == key {
      assert r[1..] == fields[1..];
    } else if Less(key, fields[0].key) && !HasKey(fields[1..], key) {
      assert r[1..] == fields;
    } else {
      FindInserted(fields[1..], key, value, other);
      assert r[1..] == Insert(fields[1..], key, value);
    }
  }

  lemma {:induction false} WalkInserted(fields: seq<Field>, alias: string)
    requires TopScalar(fields)
    ensures WalkFields(Insert(fields, TABLE_ALIAS, JStr(alias))) == WalkFields(fields)
  {
    hide Less, HasKey;
    var r := Insert(fields, TABLE_ALIAS, JStr(alias));
    if fields == [] {
      assert r[1..] == [];
    } else if fields[0].key == TABLE_ALIAS {
      assert r[1..] == fields[1..];
    } else if Less(TABLE_ALIAS, fields[0].key) && !HasKey(fields[1..], TABLE_ALIAS) {
      assert r[1..] == fields;
    } else {
      WalkInserted(fields[1..], alias);
      assert r[1..] == Insert(fields[1..], TABLE_ALIAS, JStr(alias));
    }
  }

  lemma {:induction false} TextKept<S>(fields: seq<Field>, f: Callback<S>, state: S, key: string)
    requires RewriteFields(fields, f, state).1.Ok?
    ensures AsStr(Find(RewriteFields(fields, f, state).1.value, key)) == AsStr(Find(fields, key))
  {
    if fields != [] {
      var after := Rewrite(fields[0].value, f, state).0;
      var rest := RewriteFields(fields[1..], f, after).1.value;
      TextKept(fields[1..], f, after, key);
      assert RewriteFields(fields, f, state).1.value[1..] == rest;
    }
  }

  /** The column a rewritten map reads as */
  lemma ColumnRewritten<S>(fields: seq<Field>, f: Callback<S>, state: S, alias: Option<string>)
    requires RewriteFields(fields, f, state).1.Ok?
    ensures var column, r := FromMap(fields), FromMap(Aliased(RewriteFields(fields, f, state).1.value, alias));
      && r.Some? == column.Some?
      && (r.Some? ==> r.value == if alias.Some? then column.value.(tableAlias := alias) else column.value)
  {
    hide Insert, Find, RewriteFields;
    var out := RewriteFields(fields, f, state).1.value;
    TextKept(fields, f, state, "type");
    TextKept(fields, f, state, "name");
    TextKept(fields, f, state, TABLE_NAME);
    TextKept(fields, f, state, TABLE_ALIAS);
    if alias.Some? {
      var value := JStr(alias.value);
      FindInserted(out, TABLE_ALIAS, value, "type");
      FindInserted(out, TABLE_ALIAS, value, "name");
      FindInserted(out, TABLE_ALIAS, value, TABLE_NAME);
      FindInserted(out, TABLE_ALIAS, value, TABLE_ALIAS);
    }
  }

  /**
   Where every `tableAlias` is a scalar, walking the rewritten tree visits the same columns in the
   same order, each with the alias the callback, whatever state it keeps, gave at its call.
   */
  lemma {:induction false} WalkRewritten<S>(t: Json, f: Callback<S>, state: S)
    requires ScalarAliases(t) && Rewrite(t, f, state).1.Ok?
    ensures Walk(Rewrite(t, f, state).1.value) == Given(t, f, state)
    decreases t, 1
  {
    hide FromMap, Insert, Feed, OwnGiven, Own, ScalarFields, RewriteFields, WalkFields, GivenFields;
    match t
    case JObj(fields) =>
      FieldsRewritten(fields, f, state);
      TopScalarKept(fields, f, state);
      RewriteFieldsFeeds(fields, f, state);
      OwnRewritten(fields, f, state);
    case JArr(items) => ItemsRewritten(items, f, state);
    case _ =>
  }

  lemma OwnRewritten<S>(fields: seq<Field>, f: Callback<S>, state: S)
    requires RewriteFields(fields, f, state).1.Ok? && TopScalar(RewriteFields(fields, f, state).1.value)
    requires Rewrite(JObj(fields), f, state).1.Ok?
    ensures var (after, out) := RewriteFields(fields, f, state);
      Walk(Rewrite(JObj(fields), f, state).1.value) == OwnGiven(fields, f, after) + WalkFields(out.value)
  {
    hide FromMap, Insert, RewriteFields, WalkFields;
    var (after, out) := RewriteFields(fields, f, state);
    var column := FromMap(fields);
    if column.Some? {
      var alias := f(after, column.value).1.value;
      ColumnRewritten(fields, f, state, alias);
      if alias.Some? {
        WalkInserted(out.value, alias.value);
      }
    } else {
      ColumnRewritten(fields, f, state, None);
    }
  }

  lemma {:induction false} FieldsRewritten<S>(fields: seq<Field>, f: Callback<S>, state: S)
    requires ScalarFields(fields) && RewriteFields(fields, f, state).1.Ok?
    ensures WalkFields(RewriteFields(fields, f, state).1.value) == GivenFields(fields, f, state)
    decreases fields, 0
  {
    hide Walk, Rewrite, Feed, Given, ScalarAliases;
    if fields != [] {
      var after := Rewrite(fields[0].value, f, state).0;
      WalkRewritten(fields[0].value, f, state);
      FieldsRewritten(fields[1..], f, after);
      RewriteFeeds(fields[0].value, f, state);
      assert RewriteFields(fields, f, state).1.value[1..] == RewriteFields(fields[1..], f, after).1.value;
    }
  }

  lemma {:induction false} ItemsRewritten<S>(items: seq<Json>, f: Callback<S>, state: S)
    requires ScalarItems(items) && RewriteItems(items, f, state).1.Ok?
    ensures WalkItems(RewriteItems(items, f, state).1.value) == GivenItems(items, f, state)
    decreases items, 0
  {
    hide Walk, Rewrite, Feed, Given, ScalarAliases;
    if items != [] {
      var after := Rewrite(items[0], f, state).0;
      WalkRewritten(items[0], f, state);
      ItemsRewritten(items[1..], f, after);
      RewriteFeeds(items[0], f, state);
      assert RewriteItems(items, f, state).1.value[1..] == RewriteItems(items[1..], f, after).1.value;
    }
  }

  /** Without state, each column of the walk gets what the callback gives that column. */
  lemma {:induction false} GivenPurely(t: Json, g: Aliases)
    ensures var gs := Given(t, Stateless(g), ());
      |gs| == |Walk(t)| && forall k :: 0 <= k < |gs| ==> gs[k] == With(Walk(t)[k], g(Walk(t)[k]))
    decreases t, 1
  {
    hide FromMap, Feed;
    match t
    case JObj(fields) => GivenFieldsPurely(fields, g);
    case JArr(items) => GivenItemsPurely(items, g);
    case _ =>
  }

  lemma {:induction false} GivenFieldsPurely(fields: seq<Field>, g: Aliases)
    ensures var gs, cs := GivenFields(fields, Stateless(g), ()), WalkFields(fields);
      |gs| == |cs| && forall k :: 0 <= k < |gs| ==> gs[k] == With(cs[k], g(cs[k]))
    decreases fields, 0
  {
    hide Given, Walk, Feed, With;
    if fields != [] {
      assert Feed(Stateless(g), (), Calls(fields[0].value)).0 == ();
      GivenPurely(fields[0].value, g);
      GivenFieldsPurely(fields[1..], g);
    }
  }

  lemma {:induction false} GivenItemsPurely(items: seq<Json>, g: Aliases)
    ensures var gs, cs := GivenItems(items, Stateless(g), ()), WalkItems(items);
      |gs| == |cs| && forall k :: 0 <= k < |gs| ==> gs[k] == With(cs[k], g(cs[k]))
    decreases items, 0
  {
    hide Given, Walk, Feed, With;
    if items != [] {
      assert Feed(Stateless(g), (), Calls(items[0])).0 == ();
      GivenPurely(items[0], g);
      GivenItemsPurely(items[1..], g);
    }
  }

  // ----- the same in the order of the calls

  /** Each column with the alias the callback gives it when it is handed them in this order */
  function Answered<S>(f: Callback<S>, state: S, columns: seq<Column>): (r: seq<Column>)
    ensures |r| == |columns|
  {
    if columns == [] then []
    else
      var (after, alias) := f(state, columns[0]);
      [With(columns[0], alias)] + Answered(f, after, columns[1..])
  }

  lemma {:induction false} AnsweredConcat<S>(f: Callback<S>, state: S, a: seq<Column>, b: seq<Column>)
    requires Feed(f, state, a).1
    ensures Answered(f, state, a + b) == Answered(f, state, a) + Answered(f, Feed(f, state, a).0, b)
  {
    if a == [] {
      assert a + b == b;
    } else {
      assert (a + b)[1..] == a[1..] + b;
      AnsweredConcat(f, f(state, a[0]).0, a[1..], b);
    }
  }

  lemma {:induction false} CallsInserted(fields: seq<Field>, alias: string)
    requires TopScalar(fields)
    ensures CallsFields(Insert(fields, TABLE_ALIAS, JStr(alias))) == CallsFields(fields)
  {
    hide Less, HasKey;
    var r := Insert(fields, TABLE_ALIAS, JStr(alias));
    if fields == [] {
      assert r[1..] == [];
    } else if fields[0].key == TABLE_ALIAS {
      assert r[1..] == fields[1..];
    } else if Less(TABLE_ALIAS, fields[0].key) && !HasKey(fields[1..], TABLE_ALIAS) {
      assert r[1..] == fields;
    } else {
      CallsInserted(fields[1..], alias);
      assert r[1..] == Insert(fields[1..], TABLE_ALIAS, JStr(alias));
    }
  }

  lemma {:induction false} TopScalarKept<S>(fields: seq<Field>, f: Callback<S>, state: S)
    requires ScalarFields(fields) && RewriteFields(fields, f, state).1.Ok?
    ensures TopScalar(RewriteFields(fields, f, state).1.value)
  {
    if fields != [] {
      var after := Rewrite(fields[0].value, f, state).0;
      TopScalarKept(fields[1..], f, after);
      assert RewriteFields(fields, f, state).1.value[1..] == RewriteFields(fields[1..], f, after).1.value;
    }
  }

  /**
   Where every `tableAlias` is a scalar, the columns of a rewritten tree are, in the order of the
   calls, the columns the callback was handed, each with the alias it gave at that call.
   */
  lemma {:induction false} CallsRewritten<S>(t: Json, f: Callback<S>, state: S)
    requires ScalarAliases(t) && Rewrite(t, f, state).1.Ok?
    ensures Calls(Rewrite(t, f, state).1.value) == Answered(f, state, Calls(t))
    decreases t, 1
  {
    hide FromMap, Insert, Answered, Feed, RewriteFields, CallsFields, ScalarFields;
    match t
    case JObj(fields) =>
      CallsFieldsRewritten(fields, f, state);
      TopScalarKept(fields, f, state);
      RewriteFieldsFeeds(fields, f, state);
      AnsweredConcat(f, state, CallsFields(fields), Own(fields));
      OwnAnswered(fields, f, state);
    case JArr(items) => CallsItemsRewritten(items, f, state);
    case _ => assert Answered(f, state, []) == [];
  }

  /** An object's own column and its members, once its alias is in */
  lemma OwnAnswered<S>(fields: seq<Field>, f: Callback<S>, state: S)
    requires RewriteFields(fields, f, state).1.Ok? && TopScalar(RewriteFields(fields, f, state).1.value)
    requires Rewrite(JObj(fields), f, state).1.Ok?
    ensures var (after, out) := RewriteFields(fields, f, state);
      Calls(Rewrite(JObj(fields), f, state).1.value) == CallsFields(out.value) + Answered(f, after, Own(fields))
  {
    hide FromMap, Insert, RewriteFields, CallsFields;
    var (after, out) := RewriteFields(fields, f, state);
    var column := FromMap(fields);
    if column.Some? {
      var alias := f(after, column.value).1.value;
      ColumnRewritten(fields, f, state, alias);
      if alias.Some? {
        CallsInserted(out.value, alias.value);
      }
      assert Own(fields)[1..] == [] && Answered(f, f(after, column.value).0, []) == [];
    } else {
      ColumnRewritten(fields, f, state, None);
    }
  }

  lemma {:induction false} CallsFieldsRewritten<S>(fields: seq<Field>, f: Callback<S>, state: S)
    requires ScalarFields(fields) && RewriteFields(fields, f, state).1.Ok?
    ensures CallsFields(RewriteFields(fields, f, state).1.value) == Answered(f, state, CallsFields(fields))
    decreases fields, 0
  {
    hide Calls, Rewrite, Feed, Answered, ScalarAliases;
    if fields == [] {
      assert Answered(f, state, []) == [];
    } else {
      var after := Rewrite(fields[0].value, f, state).0;
      CallsRewritten(fields[0].value, f, state);
      CallsFieldsRewritten(fields[1..], f, after);
      RewriteFeeds(fields[0].value, f, state);
      AnsweredConcat(f, state, Calls(fields[0].value), CallsFields(fields[1..]));
      assert RewriteFields(fields, f, state).1.value[1..] == RewriteFields(fields[1..], f, after).1.value;
    }
  }

  lemma {:induction false} CallsItemsRewritten<S>(items: seq<Json>, f: Callback<S>, state: S)
    requires ScalarItems(items) && RewriteItems(items, f, state).1.Ok?
    ensures CallsItems(RewriteItems(items, f, state).1.value) == Answered(f, state, CallsItems(items))
    decreases items, 0
  {
    hide Calls, Rewrite, Feed, Answered, ScalarAliases;
    if items == [] {
      assert Answered(f, state, []) == [];
    } else {
      var after := Rewrite(items[0], f, state).0;
      CallsRewritten(items[0], f, state);
      CallsItemsRewritten(items[1..], f, after);
      RewriteFeeds(items[0], f, state);
      AnsweredConcat(f, state, Calls(items[0]), CallsItems(items[1..]));
      assert RewriteItems(items, f, state).1.value[1..] == RewriteItems(items[1..], f, after).1.value;
    }
  }

  // ----- what a strip leaves

  /** No `tableAlias` key, at any depth */
  predicate AliasFree(t: Json)
    decreases t, 1
  {
    match t
    case JObj(fields) => AliasFreeFields(fields)
    case JArr(items) => AliasFreeItems(items)
    case _ => true
  }

  predicate AliasFreeFields(fields: seq<Field>)
    decreases fields, 0
  {
    fields == [] || (fields[0].key != TABLE_ALIAS && AliasFree(fields[0].value) && AliasFreeFields(fields[1..]))
  }

  predicate AliasFreeItems(items: seq<Json>)
    decreases items, 0
  {
    items == [] || (AliasFree(items[0]) && AliasFreeItems(items[1..]))
  }

  /** A strip removes every `tableAlias`, and is the identity where there is none. */
  lemma {:induction false} StripClears(t: Json)
    ensures AliasFree(Strip(t)) && (AliasFree(t) ==> Strip(t) == t)
    decreases t, 1
  {
    match t
    case JObj(fields) => StripClearsFields(fields);
    case JArr(items) => StripClearsItems(items);
    case _ =>
  }

  lemma {:induction false} StripClearsFields(fields: seq<Field>)
    ensures AliasFreeFields(StripFields(fields)) && (AliasFreeFields(fields) ==> StripFields(fields) == fields)
    decreases fields, 0
  {
    if fields != [] {
      StripClears(fields[0].value);
      StripClearsFields(fields[1..]);
      assert fields == [fields[0]] + fields[1..];
      if fields[0].key == TABLE_ALIAS {
        assert StripFields(fields) == StripFields(fields[1..]);
      } else {
        assert StripFields(fields)[1..] == StripFields(fields[1..]);
      }
    }
  }

  lemma {:induction false} StripClearsItems(items: seq<Json>)
    ensures AliasFreeItems(StripItems(items)) && (AliasFreeItems(items) ==> StripItems(items) == items)
    decreases items, 0
  {
    if items != [] {
      StripClears(items[0]);
      StripClearsItems(items[1..]);
      assert items == [items[0]] + items[1..];
      assert StripItems(items)[1..] == StripItems(items[1..]);
    }
  }

  function Unaliased(cs: seq<Column>): (r: seq<Column>)
    ensures |r| == |cs| && forall k :: 0 <= k < |cs| ==> r[k] == cs[k].(tableAlias := None)
  {
    seq(|cs|, k requires 0 <= k < |cs| => cs[k].(tableAlias := None))
  }

  lemma UnaliasedConcat(a: seq<Column>, b: seq<Column>)
    ensures Unaliased(a + b) == Unaliased(a) + Unaliased(b)
  {
  }

  lemma {:induction false} StripFinds(fields: seq<Field>, key: string)
    ensures AsStr(Find(StripFields(fields), key)) == if key == TABLE_ALIAS then None else AsStr(Find(fields, key))
  {
    if fields != [] {
      StripFinds(fields[1..], key);
      if fields[0].key == TABLE_ALIAS {
        assert StripFields(fields) == StripFields(fields[1..]);
      } else {
        assert StripFields(fields)[1..] == StripFields(fields[1..]);
      }
    }
  }

  /** Where every `tableAlias` is a scalar, walking the stripped tree visits the same columns, without aliases. */
  lemma {:induction false} WalkStripped(t: Json)
    requires ScalarAliases(t)
    ensures Walk(Strip(t)) == Unaliased(Walk(t))
    decreases t, 1
  {
    hide FromMap, Unaliased;
    match t
    case JObj(fields) =>
      WalkStrippedFields(fields);
      OwnStripped(fields);
      UnaliasedConcat(Own(fields), WalkFields(fields));
    case JArr(items) => WalkStrippedItems(items);
    case _ =>
  }

  lemma OwnStripped(fields: seq<Field>)
    ensures Own(StripFields(fields)) == Unaliased(Own(fields))
  {
    hide Find, StripFields;
    StripFinds(fields, "type");
    StripFinds(fields, "name");
    StripFinds(fields, TABLE_NAME);
    StripFinds(fields, TABLE_ALIAS);
  }

  lemma {:induction false} WalkStrippedFields(fields: seq<Field>)
    requires ScalarFields(fields)
    ensures WalkFields(StripFields(fields)) == Unaliased(WalkFields(fields))
    decreases fields, 0
  {
    hide FromMap, Unaliased;
    if fields != [] {
      WalkStripped(fields[0].value);
      WalkStrippedFields(fields[1..]);
      UnaliasedConcat(Walk(fields[0].value), WalkFields(fields[1..]));
      if fields[0].key == TABLE_ALIAS {
        assert Walk(fields[0].value) == [];
        assert StripFields(fields) == StripFields(fields[1..]);
      } else {
        assert StripFields(fields)[1..] == StripFields(fields[1..]);
      }
    }
  }

  lemma {:induction false} WalkStrippedItems(items: seq<Json>)
    requires ScalarItems(items)
    ensures WalkItems(StripItems(items)) == Unaliased(WalkItems(items))
    decreases items, 0
  {
    hide FromMap, Unaliased;
    if items != [] {
      WalkStripped(items[0]);
      WalkStrippedItems(items[1..]);
      UnaliasedConcat(Walk(items[0]), WalkItems(items[1..]));
      assert StripItems(items)[1..] == StripItems(items[1..]);
    }
  }
}

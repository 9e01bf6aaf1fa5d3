/** The renderer's loops, run step by step, against the functions that specify them. */
module RenderLoops {
  import opened Common
  import opened SqlText
  import opened SqlTree
  import opened Wire
  import opened Renderer

  function After(done: seq<Sql>, rest: Result<seq<Sql>>): (r: Result<seq<Sql>>)
  {
    match rest
    case Err => Err
    case Ok(es) => Ok(done + es)
  }

  lemma PresentMoves(d: Dialect, done: seq<Sql>, ns: seq<Node>)
    requires ns != []
    ensures After(done, Present(d, ns)) ==
            match Render(d, ns[0])
            case Err => Err
            case Ok(None) => After(done, Present(d, ns[1..]))
            case Ok(Some(e)) => After(if IsBlank(e) then done else done + [e], Present(d, ns[1..]))
  {
    hide Render;
    var rest := Present(d, ns[1..]);
    if Render(d, ns[0]).Ok? && Render(d, ns[0]).value.Some? && rest.Ok? {
      var e := Render(d, ns[0]).value.value;
      assert done + ([e] + rest.value) == done + [e] + rest.value;
    }
  }

  lemma EntriesMove(d: Dialect, done: seq<Sql>, ns: seq<Node>)
    requires ns != []
    ensures After(done, Entries(d, ns)) ==
            if IsNullLiteral(ns[0]) then After(done, Entries(d, ns[1..]))
            else match Render(d, ns[0])
                 case Err => Err
                 case Ok(None) => After(done, Entries(d, ns[1..]))
                 case Ok(Some(e)) => After(done + [e], Entries(d, ns[1..]))
  {
    hide Render, IsNullLiteral;
    var rest := Entries(d, ns[1..]);
    if Render(d, ns[0]).Ok? && Render(d, ns[0]).value.Some? && rest.Ok? {
      var e := Render(d, ns[0]).value.value;
      assert done + ([e] + rest.value) == done + [e] + rest.value;
    }
  }

  lemma Started(es: Result<seq<Sql>>)
    ensures After([], es) == es
  {
    if es.Ok? {
      assert [] + es.value == es.value;
    }
  }

  lemma {:induction false} TextOf(e: Sql, rest: seq<Tok>)
    ensures Flatten(Toks(true, e, rest)) == "" <==> IsBlank(e) && Flatten(rest) == ""
    decreases e
  {
    hide Escaped, KwText, SymText;
    assert forall t | t in [Sp, LP] :: Spell(t) != "";
    match e
    case Bin(op, l, x) => TextOf(l, [Sp] + ([OpTok(op)] + ([Sp] + Toks(true, x, rest))));
    case IsNull(x) => TextOf(x, [Sp] + ([Kw(KIs)] + ([Sp] + ([Kw(KNull)] + rest))));
    case IsNotNull(x) => TextOf(x, [Sp] + ([Kw(KIs)] + ([Sp] + ([Kw(KNot)] + ([Sp] + ([Kw(KNull)] + rest))))));
    case In(x, list) => TextOf(x, [Sp] + ([Kw(KIn)] + ([Sp] + ([LP] + ListToks(true, list, [RP] + rest)))));
    case Between(x, lo, hi) =>
      TextOf(x, [Sp] + ([Kw(KBetween)] + ([Sp] + Toks(true, lo, [Sp] + ([Kw(KAnd)] + ([Sp] + Toks(true, hi, rest)))))));
    case Like(x, pat, esc) => TextOf(x, [Sp] + ([Kw(KLike)] + ([Sp] + Toks(true, pat, EscapeToks(true, esc, rest)))));
    case _ => LeafText(e, rest);
  }

  lemma LeafText(e: Sql, rest: seq<Tok>)
    requires !e.Bin? && !e.IsNull? && !e.IsNotNull? && !e.In? && !e.Between? && !e.Like?
    ensures Flatten(Toks(true, e, rest)) == "" <==> IsBlank(e) && Flatten(rest) == ""
  {
    var ts := Toks(true, e, rest);
    assert Flatten(ts) == Spell(ts[0]) + Flatten(ts[1..]);
    if IsBlank(e) {
      assert ts[1..] == rest;
    } else if ts[0].Kw? {
      KeywordIsWord(ts[0].kw);
    }
  }

  /** Only a blank tree has the empty text. */
  lemma BlankText(e: Sql)
    ensures Show(e) == "" <==> IsBlank(e)
  {
    TextOf(e, []);
  }

  /** `render_junction` */
  method RenderJunction(d: Dialect, isAnd: bool, members: seq<Node>) returns (r: Result<Option<Sql>>)
    ensures r == Render(d, Junction(isAnd, members))
  {
    hide JoinParts, RenderLiteral, Apply, Show, IsBlank, Declared;
    var parts: seq<Sql> := [];
    Started(Present(d, members));
    assert members[0..] == members;
    for i := 0 to |members|
      invariant Present(d, members) == After(parts, Present(d, members[i..]))
    {
      PresentMoves(d, parts, members[i..]);
      assert members[i..][1..] == members[i + 1..];
      match Render(d, members[i]) {
        case Err => return Err;
        case Ok(None) =>
        case Ok(Some(e)) =>
          BlankText(e);
          if Show(e) != "" {
            parts := parts + [e];
          }
      }
    }
    assert parts + [] == parts;
    return Ok(Some(JoinParts(isAnd, parts)));
  }

  /** The IN-list arm: its target first, then the entries that are not NULL literals. */
  method RenderInList(d: Dialect, target: Node, entries: seq<Node>) returns (r: Result<Option<Sql>>)
    ensures r == Render(d, InList(target, entries))
  {
    hide InSql, Render, Need, Entries, IsNullLiteral, After;
    InListRenders(d, target, entries);
    if Need(d, target).Err? {
      return Err;
    }
    var rendered: seq<Sql> := [];
    Started(Entries(d, entries));
    assert entries[0..] == entries;
    for i := 0 to |entries|
      invariant Entries(d, entries) == After(rendered, Entries(d, entries[i..]))
    {
      EntriesMove(d, rendered, entries[i..]);
      assert entries[i..][1..] == entries[i + 1..];
      if IsNullLiteral(entries[i]) {
        continue;
      }
      match Render(d, entries[i]) {
        case Err => return Err;
        case Ok(None) =>
        case Ok(Some(e)) => rendered := rendered + [e];
      }
    }
    AfterNothing(d, rendered);
    assert entries[|entries|..] == [];
    return Ok(Some(InSql(Need(d, target).value, rendered)));
  }

  lemma AfterNothing(d: Dialect, rendered: seq<Sql>)
    ensures After(rendered, Entries(d, [])) == Ok(rendered)
  {
    assert rendered + [] == rendered;
  }

  lemma InListRenders(d: Dialect, target: Node, entries: seq<Node>)
    ensures Render(d, InList(target, entries)) ==
      if Need(d, target).Err? || Entries(d, entries).Err? then Err
      else Ok(Some(InSql(Need(d, target).value, Entries(d, entries).value)))
  {
    hide InSql, RenderLiteral, Apply, Need, Entries;
  }

  lemma {:induction false} NeedAllAt(d: Dialect, ns: seq<Node>)
    ensures NeedAll(d, ns).Ok? <==> forall i :: 0 <= i < |ns| ==> Need(d, ns[i]).Ok?
    ensures NeedAll(d, ns).Ok? ==> forall i :: 0 <= i < |ns| ==> NeedAll(d, ns).value[i] == Need(d, ns[i]).value
  {
    hide Need;
    if ns != [] {
      NeedAllAt(d, ns[1..]);
      forall i | 0 < i < |ns| ensures ns[i] == ns[1..][i - 1] {
      }
      if NeedAll(d, ns[1..]).Ok? && Need(d, ns[0]).Ok? {
        forall i | 0 < i < |ns| ensures Need(d, ns[i]).Ok? {
          assert Need(d, ns[1..][i - 1]).Ok?;
        }
      }
    }
  }

  /** The branches of the interleaved encoding: a condition and a result in turn. */
  method RenderInterleavedCase(d: Dialect, args: seq<Node>) returns (r: Result<Option<Sql>>)
    ensures r == Render(d, Wire.Scalar(CaseFn, args))
  {
    hide Render, Need, NeedAll, CaseSql, Conditions, Outcomes;
    InterleavedRenders(d, args);
    NeedAllAt(d, args);
    if |args| < 2 {
      return Err;
    }
    var branches: seq<Branch> := [];
    var end := if |args| % 2 == 1 then |args| - 1 else |args|;
    var i := 0;
    while i < end
      invariant 0 <= i <= end && i % 2 == 0 && |branches| == i / 2
      invariant forall j :: 0 <= j < i ==> Need(d, args[j]).Ok?
      invariant forall j :: 0 <= j < |branches| ==>
                  branches[j] == Branch(Need(d, args[2 * j]).value, Need(d, args[2 * j + 1]).value)
    {
      if Need(d, args[i]).Err? || Need(d, args[i + 1]).Err? {
        return Err;
      }
      branches := branches + [Branch(Need(d, args[i]).value, Need(d, args[i + 1]).value)];
      i := i + 2;
    }
    var els := None;
    if |args| % 2 == 1 {
      if Need(d, args[|args| - 1]).Err? {
        return Err;
      }
      els := Some(Need(d, args[|args| - 1]).value);
    }
    InterleavedIs(d, args, branches, els);
    return Ok(Some(Case(None, branches, els)));
  }

  lemma InterleavedRenders(d: Dialect, args: seq<Node>)
    ensures Render(d, Wire.Scalar(CaseFn, args)) ==
      if |args| < 2 || NeedAll(d, args).Err? then Err
      else Ok(Some(CaseSql(None, Conditions(NeedAll(d, args).value), Outcomes(NeedAll(d, args).value))))
  {
    hide RenderLiteral, Need, NeedAll, ApplyDf, Arith, CaseSql, Conditions, Outcomes;
    NeedAllAt(d, args);
  }

  lemma InterleavedIs(d: Dialect, args: seq<Node>, branches: seq<Branch>, els: Option<Sql>)
    requires |args| >= 2 && |branches| == |args| / 2 && forall j :: 0 <= j < |args| ==> Need(d, args[j]).Ok?
    requires forall j :: 0 <= j < |branches| ==>
               branches[j] == Branch(Need(d, args[2 * j]).value, Need(d, args[2 * j + 1]).value)
    requires els == if |args| % 2 == 1 then Some(Need(d, args[|args| - 1]).value) else None
    ensures NeedAll(d, args).Ok?
    ensures Case(None, branches, els)
            == CaseSql(None, Conditions(NeedAll(d, args).value), Outcomes(NeedAll(d, args).value))
  {
    hide Need;
    NeedAllAt(d, args);
    var es := NeedAll(d, args).value;
    var conds, results := Conditions(es), Outcomes(es);
    forall j | 0 <= j < |branches| ensures branches[j] == Pairs(conds, results)[j] {
      assert conds[j] == es[2 * j] && results[j] == es[2 * j + 1];
    }
    assert branches == Pairs(conds, results);
  }
}

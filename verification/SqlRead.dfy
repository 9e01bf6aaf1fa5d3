/**
 Unique readability: the text of every readable tree reads back as that tree.

 `Readable` is what a tree must satisfy: each operand binds at least as tight as its place asks,
 names are words, numerals are numerals, and no minus sign stands right before another.
 */
module SqlRead {
  import opened Common
  import opened SqlText
  import opened SqlTree

  /** How tight a tree binds when written without parentheses around it. */
  function Rank(e: Sql): (k: nat)
    ensures 1 <= k <= 7
  {
    match e
    case Bin(op, _, _) => OpLevel(op)
    case Not(_) => 3
    case IsNull(_) => 4
    case IsNotNull(_) => 4
    case In(_, _) => 4
    case Between(_, _, _) => 4
    case Like(_, _, _) => 4
    case _ => 7
  }

  predicate Readable(e: Sql)
    decreases e
  {
    match e
    case SqlNull => true
    case SqlBool(_) => true
    case SqlNum(n) => IsNumeral(n)
    case SqlStr(_) => true
    case Typed(kw, _) => IsName(kw)
    case Bare(w) => IsName(w)
    case Col(_, _) => true
    case Paren(x) => Readable(x)
    case Bin(op, l, x) =>
      && Readable(l) && Readable(x)
      && Rank(l) >= (if OpLevel(op) == 4 then 5 else OpLevel(op))
      && Rank(x) > OpLevel(op)
    case Not(x) => Readable(x) && Rank(x) >= 3
    case Neg(x) => Readable(x) && Rank(x) == 7 && !x.Neg?
    case IsNull(x) => Readable(x) && Rank(x) >= 5
    case IsNotNull(x) => Readable(x) && Rank(x) >= 5
    case In(x, list) =>
      Readable(x) && Rank(x) >= 5 && list != [] && forall y | y in list :: Readable(y)
    case Between(x, lo, hi) =>
      Readable(x) && Rank(x) >= 5 && Readable(lo) && Rank(lo) >= 5 && Readable(hi) && Rank(hi) >= 5
    case Like(x, pat, _) => Readable(x) && Rank(x) >= 5 && Readable(pat) && Rank(pat) >= 5
    case Case(basis, branches, els) =>
      && (basis.Some? ==> Readable(basis.value))
      && branches != []
      && (forall b | b in branches :: ReadableBranch(b))
      && (els.Some? ==> Readable(els.value))
    case Call(name, args) => IsName(name) && forall y | y in args :: Readable(y)
    case Cast(x, ty) => Readable(x) && IsType(ty)
    case Extract(field, x) => IsName(field) && Readable(x)
    case DateNull => false
    case RawStr(_) => false
  }

  predicate ReadableBranch(b: Branch)
    decreases b
  {
    Readable(b.cond) && Readable(b.result)
  }

  // ----- what may come behind a tree

  /** Nothing the parser would take for a continuation of the operand before it. */
  predicate Follow(rest: seq<Tok>)
  {
    rest != [] ==> rest[0] == RP || rest[0] == Comma || rest[0].Kw? || rest[0].Sym?
  }

  predicate IsStarter(t: Tok)
  {
    IsOpAt(4, t) || t == Kw(KEscape) || t == Kw(KIs) || t == Kw(KIn) || t == Kw(KBetween) || t == Kw(KLike)
  }

  /** No operator of level `k` or tighter goes on behind a tree of level `k`. */
  predicate Stops(k: nat, rest: seq<Tok>)
  {
    && Follow(rest)
    && (rest != [] && OpOf(rest[0]).Some? ==> OpLevel(OpOf(rest[0]).value) < k)
    && (rest != [] && k <= 4 ==> !IsStarter(rest[0]))
  }

  /** The tokens of a tree and then `rest`, as the parser sees them. */
  function B(e: Sql, rest: seq<Tok>): (r: seq<Tok>)
  {
    Toks(false, e, rest)
  }

  lemma {:induction false} Head(e: Sql, rest: seq<Tok>)
    requires Readable(e)
    ensures B(e, rest) != []
    ensures B(e, rest)[0] != Kw(KWhen) && B(e, rest)[0] != RP
    ensures Rank(e) >= 4 ==> B(e, rest)[0] != Kw(KNot)
    ensures Rank(e) == 7 && !e.Neg? ==> B(e, rest)[0] != Sym(MinusSym)
    decreases e
  {
    match e
    case Bin(op, l, x) => Head(l, [OpTok(op)] + B(x, rest));
    case IsNull(x) => Head(x, [Kw(KIs)] + ([Kw(KNull)] + rest));
    case IsNotNull(x) => Head(x, [Kw(KIs)] + ([Kw(KNot)] + ([Kw(KNull)] + rest)));
    case In(x, list) => Head(x, [Kw(KIn)] + ([LP] + ListToks(false, list, [RP] + rest)));
    case Between(x, lo, hi) => Head(x, [Kw(KBetween)] + B(lo, [Kw(KAnd)] + B(hi, rest)));
    case Like(x, pat, esc) => Head(x, [Kw(KLike)] + B(pat, EscapeToks(false, esc, rest)));
    case _ =>
  }

  lemma {:induction false} ReadsType(ty: seq<Tok>, depth: nat, rest: seq<Tok>)
    requires Balanced(ty, depth)
    ensures TypeOf(TypeToks(false, ty, [RP] + rest), depth) == Got(ty, [RP] + rest)
  {
    if ty != [] {
      var d := if ty[0] == LP then depth + 1 else if ty[0] == RP then depth - 1 else depth;
      ReadsType(ty[1..], d, rest);
      assert [ty[0]] + ty[1..] == ty;
      assert TypeToks(false, ty, [RP] + rest)[1..] == TypeToks(false, ty[1..], [RP] + rest);
    }
  }

  // ----- single steps of the parser

  lemma TailStep(k: nat, acc: Sql, ts: seq<Tok>, x: Sql, rest: seq<Tok>)
    requires k in {1, 2, 5, 6}
    requires ts != [] && IsOpAt(k, ts[0]) && Level(k + 1, ts[1..]) == Got(x, rest)
    ensures Tail(k, acc, ts) == Tail(k, Bin(OpOf(ts[0]).value, acc, x), rest)
  {
  }

  lemma PredicateStep(ts: seq<Tok>, x: Sql, rest: seq<Tok>)
    requires Level(5, ts) == Got(x, rest)
    ensures Level(4, ts) == Suffix(x, rest)
  {
  }

  lemma BetweenStep(x: Sql, ts: seq<Tok>, lo: Sql, mid: seq<Tok>, hi: Sql, rest: seq<Tok>)
    requires ts != [] && ts[0] == Kw(KBetween) && Level(5, ts[1..]) == Got(lo, mid)
    requires mid != [] && mid[0] == Kw(KAnd) && Level(5, mid[1..]) == Got(hi, rest)
    ensures Suffix(x, ts) == Got(Between(x, lo, hi), rest)
  {
  }

  lemma LikeStep(x: Sql, ts: seq<Tok>, pat: Sql, mid: seq<Tok>, esc: Option<string>, rest: seq<Tok>)
    requires ts != [] && ts[0] == Kw(KLike) && Level(5, ts[1..]) == Got(pat, mid)
    requires mid == EscapeToks(false, esc, rest)
    requires rest != [] ==> rest[0] != Kw(KEscape)
    ensures Suffix(x, ts) == Got(Like(x, pat, esc), rest)
  {
    hide Level;
    if esc.Some? {
      assert mid[2..] == rest;
    }
  }

  lemma InStep(x: Sql, ts: seq<Tok>, list: seq<Sql>, rest: seq<Tok>)
    requires |ts| > 1 && ts[0] == Kw(KIn) && ts[1] == LP && Items(ts[2..]) == Got(list, [RP] + rest)
    ensures Suffix(x, ts) == Got(In(x, list), rest)
  {
    assert ([RP] + rest)[1..] == rest;
  }

  lemma CompareStep(x: Sql, ts: seq<Tok>, y: Sql, rest: seq<Tok>)
    requires ts != [] && IsOpAt(4, ts[0]) && Level(5, ts[1..]) == Got(y, rest)
    ensures Suffix(x, ts) == Got(Bin(OpOf(ts[0]).value, x, y), rest)
  {
  }

  lemma LevelStep(k: nat, ts: seq<Tok>, x: Sql, rest: seq<Tok>)
    requires k in {1, 2, 5, 6} && Level(k + 1, ts) == Got(x, rest)
    ensures Level(k, ts) == Tail(k, x, rest)
  {
  }

  lemma IsNullStep(x: Sql, rest: seq<Tok>)
    ensures Suffix(x, [Kw(KIs)] + ([Kw(KNull)] + rest)) == Got(IsNull(x), rest)
    ensures Suffix(x, [Kw(KIs)] + ([Kw(KNot)] + ([Kw(KNull)] + rest))) == Got(IsNotNull(x), rest)
  {
    assert ([Kw(KIs)] + ([Kw(KNull)] + rest))[2..] == rest;
    assert ([Kw(KIs)] + ([Kw(KNot)] + ([Kw(KNull)] + rest)))[3..] == rest;
  }

  lemma ExtractStep(field: string, ts: seq<Tok>, x: Sql, rest: seq<Tok>)
    requires Level(1, ts) == Got(x, [RP] + rest)
    ensures Primary([Kw(KExtract), LP, Word(field)] + ([Kw(KFrom)] + ts)) == Got(Extract(field, x), rest)
  {
    var all := [Kw(KExtract), LP, Word(field)] + ([Kw(KFrom)] + ts);
    assert all[1..][3..] == ts;
    assert ([RP] + rest)[1..] == rest;
    assert KwPrimary(KExtract, all[1..]) == Got(Extract(field, x), rest);
  }

  lemma CastPrimaryStep(ts: seq<Tok>, x: Sql, rest: seq<Tok>)
    requires CastBody(ts) == Got(x, rest)
    ensures Primary([Kw(KCast), LP] + ts) == Got(x, rest)
  {
    var all := [Kw(KCast), LP] + ts;
    assert all[1..][1..] == ts;
    assert KwPrimary(KCast, all[1..]) == Got(x, rest);
  }

  lemma CasePrimaryStep(ts: seq<Tok>, x: Sql, rest: seq<Tok>)
    requires CaseBody(ts) == Got(x, rest)
    ensures Primary([Kw(KCase)] + ts) == Got(x, rest)
  {
    var all := [Kw(KCase)] + ts;
    assert all[1..] == ts;
    assert KwPrimary(KCase, ts) == Got(x, rest);
  }

  lemma CaseEndStep(basis: Option<Sql>, ts: seq<Tok>, branches: seq<Branch>, rest: seq<Tok>)
    requires branches != [] && Branches(ts) == Got(branches, [Kw(KEnd)] + rest)
    ensures CaseBranches(basis, ts) == Got(Case(basis, branches, None), rest)
  {
    assert ([Kw(KEnd)] + rest)[1..] == rest;
  }

  lemma CaseElseStep(basis: Option<Sql>, ts: seq<Tok>, branches: seq<Branch>, mid: seq<Tok>, els: Sql, rest: seq<Tok>)
    requires branches != [] && Branches(ts) == Got(branches, [Kw(KElse)] + mid)
    requires Level(1, mid) == Got(els, [Kw(KEnd)] + rest)
    ensures CaseBranches(basis, ts) == Got(Case(basis, branches, Some(els)), rest)
  {
    hide Level, Branches;
    assert ([Kw(KElse)] + mid)[1..] == mid;
    assert ([Kw(KEnd)] + rest)[1..] == rest;
  }

  lemma CastStep(ts: seq<Tok>, x: Sql, mid: seq<Tok>, ty: seq<Tok>, rest: seq<Tok>)
    requires Level(1, ts) == Got(x, [Kw(KAs)] + mid) && TypeOf(mid, 0) == Got(ty, [RP] + rest) && IsType(ty)
    ensures CastBody(ts) == Got(Cast(x, ty), rest)
  {
    assert ([Kw(KAs)] + mid)[1..] == mid;
    assert ([RP] + rest)[1..] == rest;
  }

  // ----- the parser takes a readable tree off the head of any text that stops it

  lemma {:induction false} Reads(k: nat, e: Sql, rest: seq<Tok>)
    requires 1 <= k <= 7
    requires Readable(e) && Rank(e) >= k && Stops(k, rest)
    ensures Level(k, B(e, rest)) == Got(e, rest)
    decreases e, 8 - k, 1
  {
    hide Primary;
    Head(e, rest);
    if k in {1, 2, 5, 6} {
      ReadsChain(k, e, rest);
    } else if k == 7 {
      if e.Neg? {
        assert B(e, rest)[1..] == B(e.e, rest);
        Reads(7, e.e, rest);
      } else {
        ReadsPrimary(e, rest);
      }
    } else if k == 3 && e.Not? {
      assert B(e, rest)[1..] == B(e.e, rest);
      Reads(3, e.e, rest);
    } else if k == 3 || Rank(e) > 4 {
      Reads(k + 1, e, rest);
    } else {
      ReadsPredicate(e, rest);
    }
  }

  lemma {:induction false} ReadsChain(k: nat, e: Sql, rest: seq<Tok>)
    requires k in {1, 2, 5, 6}
    requires Readable(e) && Rank(e) >= k && Stops(k + 1, rest)
    ensures Level(k, B(e, rest)) == Tail(k, e, rest)
    decreases e, 8 - k, 0
  {
    if Rank(e) > k {
      Reads(k + 1, e, rest);
      LevelStep(k, B(e, rest), e, rest);
    } else {
      ReadsLink(e.op, e.l, e.r, rest);
    }
  }

  lemma LinkStops(op: BinOp, ts: seq<Tok>)
    requires OpLevel(op) != 4
    ensures Stops(OpLevel(op) + 1, [OpTok(op)] + ts)
    ensures OpOf(OpTok(op)) == Some(op)
  {
  }

  lemma {:induction false} ReadsLink(op: BinOp, l: Sql, x: Sql, rest: seq<Tok>)
    requires OpLevel(op) != 4 && Readable(l) && Readable(x)
    requires Rank(l) >= OpLevel(op) && Rank(x) > OpLevel(op) && Stops(OpLevel(op) + 1, rest)
    ensures Level(OpLevel(op), B(l, [OpTok(op)] + B(x, rest))) == Tail(OpLevel(op), Bin(op, l, x), rest)
    decreases Bin(op, l, x), 0, 0
  {
    var k := OpLevel(op);
    var more := [OpTok(op)] + B(x, rest);
    LinkStops(op, B(x, rest));
    ReadsChain(k, l, more);
    assert more[1..] == B(x, rest);
    Reads(k + 1, x, rest);
    TailStep(k, l, more, x, rest);
  }

  lemma {:induction false} ReadsPredicate(e: Sql, rest: seq<Tok>)
    requires Readable(e) && Rank(e) == 4 && Stops(4, rest)
    ensures Level(4, B(e, rest)) == Got(e, rest)
    decreases e, 4, 0
  {
    match e
    case Bin(_, _, _) => ReadsCompare(e, rest);
    case IsNull(_) => ReadsIsNull(e, rest);
    case IsNotNull(_) => ReadsIsNull(e, rest);
    case In(_, _) => ReadsIn(e, rest);
    case Between(_, _, _) => ReadsBetween(e, rest);
    case Like(_, _, _) => ReadsLike(e, rest);
  }

  lemma {:induction false} ReadsCompare(e: Sql, rest: seq<Tok>)
    requires e.Bin? && Readable(e) && Rank(e) == 4 && Stops(4, rest)
    ensures Level(4, B(e, rest)) == Got(e, rest)
    decreases e, 3, 0
  {
    hide Level, Primary;
    var more := [OpTok(e.op)] + B(e.r, rest);
    Reads(5, e.l, more);
    assert more[1..] == B(e.r, rest);
    Reads(5, e.r, rest);
    CompareStep(e.l, more, e.r, rest);
    PredicateStep(B(e, rest), e.l, more);
  }

  lemma {:induction false} ReadsIsNull(e: Sql, rest: seq<Tok>)
    requires (e.IsNull? || e.IsNotNull?) && Readable(e) && Stops(4, rest)
    ensures Level(4, B(e, rest)) == Got(e, rest)
    decreases e, 3, 0
  {
    hide Level, Primary, Rank;
    var more :=
      if e.IsNull? then [Kw(KIs)] + ([Kw(KNull)] + rest) else [Kw(KIs)] + ([Kw(KNot)] + ([Kw(KNull)] + rest));
    Reads(5, e.e, more);
    IsNullStep(e.e, rest);
    PredicateStep(B(e, rest), e.e, more);
  }

  lemma {:induction false} ReadsIn(e: Sql, rest: seq<Tok>)
    requires e.In? && Readable(e) && Stops(4, rest)
    ensures Level(4, B(e, rest)) == Got(e, rest)
    decreases e, 3, 0
  {
    hide Level, Primary, Rank;
    var more := [Kw(KIn)] + ([LP] + ListToks(false, e.list, [RP] + rest));
    Reads(5, e.e, more);
    assert more[2..] == ListToks(false, e.list, [RP] + rest);
    ReadsItems(e.list, rest);
    InStep(e.e, more, e.list, rest);
    PredicateStep(B(e, rest), e.e, more);
  }

  lemma {:induction false} ReadsBetween(e: Sql, rest: seq<Tok>)
    requires e.Between? && Readable(e) && Stops(4, rest)
    ensures Level(4, B(e, rest)) == Got(e, rest)
    decreases e, 3, 0
  {
    hide Level, Primary, Rank;
    var more2 := [Kw(KAnd)] + B(e.hi, rest);
    var more := [Kw(KBetween)] + B(e.lo, more2);
    Reads(5, e.e, more);
    assert more[1..] == B(e.lo, more2);
    Reads(5, e.lo, more2);
    assert more2[1..] == B(e.hi, rest);
    Reads(5, e.hi, rest);
    BetweenStep(e.e, more, e.lo, more2, e.hi, rest);
    PredicateStep(B(e, rest), e.e, more);
  }

  lemma {:induction false} ReadsLike(e: Sql, rest: seq<Tok>)
    requires e.Like? && Readable(e) && Stops(4, rest)
    requires rest != [] ==> rest[0] != Kw(KEscape)
    ensures Level(4, B(e, rest)) == Got(e, rest)
    decreases e, 3, 0
  {
    hide Level, Primary, Rank;
    var more2 := EscapeToks(false, e.esc, rest);
    var more := [Kw(KLike)] + B(e.pat, more2);
    Reads(5, e.e, more);
    assert more[1..] == B(e.pat, more2);
    Reads(5, e.pat, more2);
    LikeStep(e.e, more, e.pat, more2, e.esc, rest);
    PredicateStep(B(e, rest), e.e, more);
  }

  lemma {:induction false} ReadsItems(list: seq<Sql>, rest: seq<Tok>)
    requires list != [] && forall y | y in list :: Readable(y)
    ensures Items(ListToks(false, list, [RP] + rest)) == Got(list, [RP] + rest)
    decreases list, 8, 0
  {
    hide Level, Primary, Rank;
    var close := [RP] + rest;
    if |list| == 1 {
      Reads(1, list[0], close);
      assert list == [list[0]];
    } else {
      var more := [Comma] + ListToks(false, list[1..], close);
      Reads(1, list[0], more);
      assert more[1..] == ListToks(false, list[1..], close);
      ReadsItems(list[1..], rest);
      assert [list[0]] + list[1..] == list;
    }
  }

  lemma {:induction false} ReadsPrimary(e: Sql, rest: seq<Tok>)
    requires Readable(e) && Rank(e) == 7 && !e.Neg? && Follow(rest)
    ensures Primary(B(e, rest)) == Got(e, rest)
    decreases e, 0, 2
  {
    hide Primary, Follow;
    match e
    case Paren(_) => ReadsParen(e, rest);
    case Case(_, _, _) => ReadsCase(e, rest);
    case Call(_, _) => ReadsCall(e, rest);
    case Cast(_, _) => ReadsCast(e, rest);
    case Extract(_, _) => ReadsExtract(e, rest);
    case Col(_, _) => ReadsLeaf(e, rest);
    case Typed(_, _) => ReadsLeaf(e, rest);
    case SqlNull => ReadsLeaf(e, rest);
    case SqlBool(_) => ReadsLeaf(e, rest);
    case SqlNum(_) => ReadsLeaf(e, rest);
    case SqlStr(_) => ReadsLeaf(e, rest);
    case Bare(_) => ReadsLeaf(e, rest);
    case _ =>
  }

  lemma {:induction false} ReadsParen(e: Sql, rest: seq<Tok>)
    requires e.Paren? && Readable(e) && Follow(rest)
    ensures Primary(B(e, rest)) == Got(e, rest)
    decreases e, 0, 0
  {
    var more := [RP] + rest;
    assert B(e, rest)[1..] == B(e.e, more);
    Reads(1, e.e, more);
    assert more[1..] == rest;
  }

  lemma ReadsLeaf(e: Sql, rest: seq<Tok>)
    requires e.Col? || e.Typed? || e.SqlNull? || e.SqlBool? || e.SqlNum? || e.SqlStr? || e.Bare?
    requires Readable(e) && Follow(rest)
    ensures Primary(B(e, rest)) == Got(e, rest)
  {
    var ts := B(e, rest);
    match e
    case Col(alias, name) =>
      if alias.Some? {
        assert ts[3..] == rest;
      } else {
        assert ts[1..] == rest;
      }
    case Typed(kw, s) =>
      assert ts[1..] == [Str(s)] + rest;
      assert ts[1..][1..] == rest;
    case SqlNull => assert ts[1..] == rest;
    case SqlBool(_) => assert ts[1..] == rest;
    case SqlNum(_) => assert ts[1..] == rest;
    case SqlStr(_) => assert ts[1..] == rest;
    case Bare(_) => assert ts[1..] == rest;
  }

  lemma {:induction false} ReadsExtract(e: Sql, rest: seq<Tok>)
    requires e.Extract? && Readable(e) && Follow(rest)
    ensures Primary(B(e, rest)) == Got(e, rest)
    decreases e, 0, 0
  {
    var more := [RP] + rest;
    Reads(1, e.e, more);
    ExtractStep(e.field, B(e.e, more), e.e, rest);
  }

  lemma {:induction false} ReadsCall(e: Sql, rest: seq<Tok>)
    requires e.Call? && Readable(e) && Follow(rest)
    ensures Primary(B(e, rest)) == Got(e, rest)
    decreases e, 0, 0
  {
    hide Level, Rank;
    var ts := B(e, rest);
    var close := [RP] + rest;
    assert ts[1..][1..] == ListToks(false, e.args, close);
    assert close[1..] == rest;
    if e.args != [] {
      ReadsItems(e.args, rest);
      ListHead(e.args, close);
    }
    assert Arguments(ts[1..][1..]) == Got(e.args, rest);
    assert WordPrimary(e.name, ts[1..]) == Got(e, rest);
  }

  lemma ListHead(list: seq<Sql>, rest: seq<Tok>)
    requires list != [] && forall y | y in list :: Readable(y)
    ensures ListToks(false, list, rest) != [] && ListToks(false, list, rest)[0] != RP
  {
    Head(list[0], if |list| == 1 then rest else [Comma] + ListToks(false, list[1..], rest));
  }

  lemma {:induction false} ReadsCast(e: Sql, rest: seq<Tok>)
    requires e.Cast? && Readable(e) && Follow(rest)
    ensures Primary(B(e, rest)) == Got(e, rest)
    decreases e, 0, 0
  {
    hide Level, Primary, Rank;
    var types := TypeToks(false, e.ty, [RP] + rest);
    var more := [Kw(KAs)] + types;
    Reads(1, e.e, more);
    ReadsType(e.ty, 0, rest);
    CastStep(B(e.e, more), e.e, types, e.ty, rest);
    CastPrimaryStep(B(e.e, more), e, rest);
  }

  lemma {:induction false} ReadsCase(e: Sql, rest: seq<Tok>)
    requires e.Case? && Readable(e) && Follow(rest)
    ensures Primary(B(e, rest)) == Got(e, rest)
    decreases e, 0, 1
  {
    hide Level, Primary, Rank;
    var els := ElseToks(false, e.els, [Kw(KEnd)] + rest);
    var more := BranchToks(false, e.branches, els);
    BranchHead(e.branches, els);
    ReadsCaseBranches(e, rest);
    if e.basis.Some? {
      Head(e.basis.value, more);
      Reads(1, e.basis.value, more);
    }
    CasePrimaryStep(BasisToks(false, e.basis, more), e, rest);
  }

  lemma {:induction false} ReadsCaseBranches(e: Sql, rest: seq<Tok>)
    requires e.Case? && Readable(e)
    ensures CaseBranches(e.basis, BranchToks(false, e.branches, ElseToks(false, e.els, [Kw(KEnd)] + rest)))
            == Got(e, rest)
    decreases e, 0, 0
  {
    hide Level, Primary, Rank;
    var end := [Kw(KEnd)] + rest;
    var els := ElseToks(false, e.els, end);
    var more := BranchToks(false, e.branches, els);
    ReadsBranches(e.branches, els);
    if e.els.Some? {
      Reads(1, e.els.value, end);
      CaseElseStep(e.basis, more, e.branches, B(e.els.value, end), e.els.value, rest);
    } else {
      CaseEndStep(e.basis, more, e.branches, rest);
    }
  }

  lemma BranchHead(branches: seq<Branch>, rest: seq<Tok>)
    requires branches != []
    ensures BranchToks(false, branches, rest) != []
    ensures BranchToks(false, branches, rest)[0] == Kw(KWhen)
  {
  }

  lemma NoBranches(rest: seq<Tok>)
    requires rest != [] && (rest[0] == Kw(KElse) || rest[0] == Kw(KEnd))
    ensures Branches(rest) == Got([], rest)
  {
    hide Level, Primary;
  }

  lemma {:induction false} ReadsBranches(branches: seq<Branch>, rest: seq<Tok>)
    requires forall b | b in branches :: ReadableBranch(b)
    requires rest != [] && (rest[0] == Kw(KElse) || rest[0] == Kw(KEnd))
    ensures Branches(BranchToks(false, branches, rest)) == Got(branches, rest)
    decreases branches, 0, 0
  {
    hide Level, Primary, Rank, BranchTok, Branches;
    if branches == [] {
      NoBranches(rest);
    } else {
      var b, tail := branches[0], branches[1..];
      ReadsBranches(tail, rest);
      if tail != [] {
        BranchHead(tail, rest);
      }
      ReadsBranch(b, tail, BranchToks(false, tail, rest), rest);
      assert [b] + tail == branches;
    }
  }

  lemma {:induction false} ReadsBranch(b: Branch, tail: seq<Branch>, more: seq<Tok>, rest: seq<Tok>)
    requires ReadableBranch(b)
    requires Stops(1, more)
    requires Branches(more) == Got(tail, rest)
    ensures Branches(BranchTok(false, b, more)) == Got([b] + tail, rest)
    decreases b, 0, 0
  {
    hide Level, Primary, Rank;
    var ts := BranchTok(false, b, more);
    var after := [Kw(KThen)] + B(b.result, more);
    assert ts[1..] == B(b.cond, after);
    Reads(1, b.cond, after);
    assert after[1..] == B(b.result, more);
    Reads(1, b.result, more);
  }
}

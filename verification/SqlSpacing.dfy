/**
 Spacing: the renderer's spaces keep all tokens apart but two touching minus signs. With it the
 text of a printable tree reads back as that tree exactly when the tree is readable.
 */
module SqlSpacing {
  import opened Common
  import opened SqlText
  import opened SqlTree
  import opened SqlRead

  /** Like `Readable`, but `DATE NULL`, a CASE without a WHEN and a doubled minus are let through. */
  predicate Printable(e: Sql)
    decreases e
  {
    match e
    case SqlNum(n) => IsNumeral(n)
    case Typed(kw, _) => IsName(kw)
    case Bare(w) => IsName(w)
    case Paren(x) => Printable(x)
    case Bin(op, l, x) =>
      && Printable(l) && Printable(x)
      && Rank(l) >= (if OpLevel(op) == 4 then 5 else OpLevel(op))
      && Rank(x) > OpLevel(op)
    case Not(x) => Printable(x) && Rank(x) >= 3
    case Neg(x) => Printable(x) && Rank(x) == 7
    case IsNull(x) => Printable(x) && Rank(x) >= 5
    case IsNotNull(x) => Printable(x) && Rank(x) >= 5
    case In(x, list) =>
      Printable(x) && Rank(x) >= 5 && list != [] && forall y | y in list :: Printable(y)
    case Between(x, lo, hi) =>
      Printable(x) && Rank(x) >= 5 && Printable(lo) && Rank(lo) >= 5 && Printable(hi) && Rank(hi) >= 5
    case Like(x, pat, _) => Printable(x) && Rank(x) >= 5 && Printable(pat) && Rank(pat) >= 5
    case Case(basis, branches, els) =>
      && (basis.Some? ==> Printable(basis.value))
      && (forall b | b in branches :: PrintableBranch(b))
      && (els.Some? ==> Printable(els.value))
    case Call(name, args) => IsName(name) && forall y | y in args :: Printable(y)
    case Cast(x, ty) => Printable(x) && IsType(ty)
    case Extract(field, x) => IsName(field) && Printable(x)
    case RawStr(_) => false
    case _ => true
  }

  predicate PrintableBranch(b: Branch)
    decreases b
  {
    Printable(b.cond) && Printable(b.result)
  }

  /** `ts` holds the tokens `bones` and spaces; the lexer finds those tokens exactly if `ok`. */
  predicate Sits(ts: seq<Tok>, bones: seq<Tok>, ok: bool)
  {
    Loose(ts) && (Spaced(ts) <==> ok) && NoSp(ts) == bones
  }

  predicate Ends(rest: seq<Tok>)
  {
    rest != [] ==> IsSep(rest[0])
  }

  lemma Cons(t: Tok, ts: seq<Tok>, bones: seq<Tok>, ok: bool)
    requires Sits(ts, bones, ok) && ValidTok(t)
    requires ts != [] ==> Apart(t, ts[0]) || Dashes(t, ts[0])
    ensures Sits([t] + ts, if t == Sp then bones else [t] + bones, ok && (ts != [] ==> Apart(t, ts[0])))
  {
    assert ([t] + ts)[1..] == ts;
  }

  /** A token between spaces. */
  lemma Set(t: Tok, ts: seq<Tok>, bones: seq<Tok>, ok: bool)
    requires Sits(ts, bones, ok) && ValidTok(t) && t != Sp
    ensures Sits([Sp] + ([t] + ([Sp] + ts)), [t] + bones, ok)
  {
    hide Sits;
    Cons(Sp, ts, bones, ok);
    Cons(t, [Sp] + ts, bones, ok);
    Cons(Sp, [t] + ([Sp] + ts), [t] + bones, ok);
  }

  /** A token with a space before it. */
  lemma Lead(t: Tok, ts: seq<Tok>, bones: seq<Tok>, ok: bool)
    requires Sits(ts, bones, ok) && ValidTok(t) && t != Sp
    requires Ends(ts) || IsSep(t)
    ensures Sits([Sp] + ([t] + ts), [t] + bones, ok)
  {
    hide Sits;
    Cons(t, ts, bones, ok);
    Cons(Sp, [t] + ts, [t] + bones, ok);
  }

  /** A token and the parenthesis it opens. */
  lemma Opens(t: Tok, ts: seq<Tok>, bones: seq<Tok>, ok: bool)
    requires Sits(ts, bones, ok) && ValidTok(t) && t != Sp
    ensures Sits([t, LP] + ts, [t, LP] + bones, ok)
  {
    hide Sits;
    Cons(LP, ts, bones, ok);
    Cons(t, [LP] + ts, [LP] + bones, ok);
    assert [t, LP] + ts == [t] + ([LP] + ts) && [t, LP] + bones == [t] + ([LP] + bones);
  }

  lemma HeadSpaced(e: Sql, rest: seq<Tok>)
    requires Rank(e) == 7
    ensures Toks(true, e, rest) != []
    ensures Toks(true, e, rest)[0] == Sym(MinusSym) <==> e.Neg?
  {
  }

  lemma {:induction false} LaysType(ty: seq<Tok>, rest: seq<Tok>, bones: seq<Tok>, ok: bool)
    requires TypeSpaced(ty) && Sits(rest, bones, ok) && Ends(rest)
    ensures Sits(TypeToks(true, ty, rest), TypeToks(false, ty, bones), ok)
    ensures ty != [] && ty[0].Word? ==> Ends(TypeToks(true, ty, rest))
  {
    hide Sits;
    if ty != [] {
      var tail := ty[1..];
      LaysType(tail, rest, bones, ok);
      var ts := TypeToks(true, tail, rest);
      assert tail != [] && !tail[0].Word? ==> ts[0] == ty[1];
      Cons(ty[0], ts, TypeToks(false, tail, bones), ok);
      Cons(Sp, [ty[0]] + ts, [ty[0]] + TypeToks(false, tail, bones), ok);
    }
  }

  /** A printable tree without `DATE NULL` and without an empty CASE is spaced if it is readable. */
  lemma {:induction false} Lays(e: Sql, rest: seq<Tok>, bones: seq<Tok>, ok: bool)
    requires Printable(e) && Grammatical(e) && Sits(rest, bones, ok) && Ends(rest)
    ensures Sits(Toks(true, e, rest), Toks(false, e, bones), ok && Readable(e))
    decreases e, 2
  {
    hide Sits, Toks, Ends;
    match e
    case Paren(_) => LaysParen(e, rest, bones, ok);
    case Bin(_, _, _) => LaysBin(e, rest, bones, ok);
    case Not(_) => LaysPrefix(e, rest, bones, ok);
    case Neg(_) => LaysPrefix(e, rest, bones, ok);
    case IsNull(_) => LaysIsNull(e, rest, bones, ok);
    case IsNotNull(_) => LaysIsNull(e, rest, bones, ok);
    case In(_, _) => LaysIn(e, rest, bones, ok);
    case Between(_, _, _) => LaysBetween(e, rest, bones, ok);
    case Like(_, _, _) => LaysLike(e, rest, bones, ok);
    case Case(_, _, _) => LaysCase(e, rest, bones, ok);
    case Call(_, _) => LaysCall(e, rest, bones, ok);
    case Cast(_, _) => LaysCast(e, rest, bones, ok);
    case Extract(_, _) => LaysExtract(e, rest, bones, ok);
    case Col(alias, name) => LaysColumn(alias, name, rest, bones, ok);
    case _ => LaysLeaf(e, rest, bones, ok);
  }

  lemma LaysLeaf(e: Sql, rest: seq<Tok>, bones: seq<Tok>, ok: bool)
    requires e.SqlNull? || e.SqlBool? || e.SqlNum? || e.SqlStr? || e.Typed? || e.Bare?
    requires Printable(e) && Grammatical(e) && Sits(rest, bones, ok) && Ends(rest)
    ensures Sits(Toks(true, e, rest), Toks(false, e, bones), ok && Readable(e))
  {
    hide Sits;
    match e
    case SqlNull => Cons(Kw(KNull), rest, bones, ok);
    case SqlBool(b) => Cons(Kw(if b then KTrue else KFalse), rest, bones, ok);
    case SqlNum(n) => Cons(Num(n), rest, bones, ok);
    case SqlStr(s) => Cons(Str(s), rest, bones, ok);
    case Typed(kw, s) =>
      Lead(Str(s), rest, bones, ok);
      Cons(Word(kw), [Sp] + ([Str(s)] + rest), [Str(s)] + bones, ok);
    case Bare(w) => Cons(Word(w), rest, bones, ok);
  }

  lemma {:induction false} LaysParen(e: Sql, rest: seq<Tok>, bones: seq<Tok>, ok: bool)
    requires e.Paren?
    requires Printable(e) && Grammatical(e) && Sits(rest, bones, ok) && Ends(rest)
    ensures Sits(Toks(true, e, rest), Toks(false, e, bones), ok && Readable(e))
    decreases e, 1
  {
    hide Sits;
    Cons(RP, rest, bones, ok);
    Lays(e.e, [RP] + rest, [RP] + bones, ok);
    Cons(LP, Toks(true, e.e, [RP] + rest), Toks(false, e.e, [RP] + bones), ok && Readable(e.e));
  }

  lemma {:induction false} LaysBin(e: Sql, rest: seq<Tok>, bones: seq<Tok>, ok: bool)
    requires e.Bin?
    requires Printable(e) && Grammatical(e) && Sits(rest, bones, ok) && Ends(rest)
    ensures Sits(Toks(true, e, rest), Toks(false, e, bones), ok && Readable(e))
    decreases e, 1
  {
    hide Sits;
    var t := OpTok(e.op);
    Lays(e.r, rest, bones, ok);
    var ts, bs, ok1 := Toks(true, e.r, rest), Toks(false, e.r, bones), ok && Readable(e.r);
    Set(t, ts, bs, ok1);
    Lays(e.l, [Sp] + ([t] + ([Sp] + ts)), [t] + bs, ok1);
  }

  lemma {:induction false} LaysPrefix(e: Sql, rest: seq<Tok>, bones: seq<Tok>, ok: bool)
    requires e.Not? || e.Neg?
    requires Printable(e) && Grammatical(e) && Sits(rest, bones, ok) && Ends(rest)
    ensures Sits(Toks(true, e, rest), Toks(false, e, bones), ok && Readable(e))
    decreases e, 1
  {
    hide Sits;
    Lays(e.e, rest, bones, ok);
    var ts, bs, ok1 := Toks(true, e.e, rest), Toks(false, e.e, bones), ok && Readable(e.e);
    if e.Not? {
      Cons(Sp, ts, bs, ok1);
      Cons(Kw(KNot), [Sp] + ts, bs, ok1);
    } else {
      HeadSpaced(e.e, rest);
      Cons(Sym(MinusSym), ts, bs, ok1);
    }
  }

  lemma {:induction false} LaysCall(e: Sql, rest: seq<Tok>, bones: seq<Tok>, ok: bool)
    requires e.Call?
    requires Printable(e) && Grammatical(e) && Sits(rest, bones, ok) && Ends(rest)
    ensures Sits(Toks(true, e, rest), Toks(false, e, bones), ok && Readable(e))
    decreases e, 1
  {
    hide Sits;
    Cons(RP, rest, bones, ok);
    LaysList(e.args, [RP] + rest, [RP] + bones, ok);
    var ts, bs := ListToks(true, e.args, [RP] + rest), ListToks(false, e.args, [RP] + bones);
    var ok1 := ok && forall y | y in e.args :: Readable(y);
    Opens(Word(e.name), ts, bs, ok1);
  }

  lemma LaysColumn(alias: Option<string>, name: string, rest: seq<Tok>, bones: seq<Tok>, ok: bool)
    requires Sits(rest, bones, ok) && Ends(rest)
    ensures Sits(Toks(true, Col(alias, name), rest), Toks(false, Col(alias, name), bones), ok)
  {
    hide Sits;
    Cons(Ident(name), rest, bones, ok);
    if alias.Some? {
      var a := Ident(alias.value);
      Cons(Dot, [Ident(name)] + rest, [Ident(name)] + bones, ok);
      Cons(a, [Dot] + ([Ident(name)] + rest), [Dot] + ([Ident(name)] + bones), ok);
      assert [a, Dot, Ident(name)] + rest == [a] + ([Dot] + ([Ident(name)] + rest));
      assert [a, Dot, Ident(name)] + bones == [a] + ([Dot] + ([Ident(name)] + bones));
    }
  }

  lemma {:induction false} LaysIsNull(e: Sql, rest: seq<Tok>, bones: seq<Tok>, ok: bool)
    requires e.IsNull? || e.IsNotNull?
    requires Printable(e) && Grammatical(e) && Sits(rest, bones, ok) && Ends(rest)
    ensures Sits(Toks(true, e, rest), Toks(false, e, bones), ok && Readable(e))
    decreases e, 1
  {
    hide Sits;
    Cons(Kw(KNull), rest, bones, ok);
    var ts, bs := [Kw(KNull)] + rest, [Kw(KNull)] + bones;
    if e.IsNotNull? {
      Cons(Sp, ts, bs, ok);
      Cons(Kw(KNot), [Sp] + ts, bs, ok);
      ts, bs := [Kw(KNot)] + ([Sp] + ts), [Kw(KNot)] + bs;
    }
    Set(Kw(KIs), ts, bs, ok);
    Lays(e.e, [Sp] + ([Kw(KIs)] + ([Sp] + ts)), [Kw(KIs)] + bs, ok);
  }

  lemma {:induction false} LaysIn(e: Sql, rest: seq<Tok>, bones: seq<Tok>, ok: bool)
    requires e.In?
    requires Printable(e) && Grammatical(e) && Sits(rest, bones, ok) && Ends(rest)
    ensures Sits(Toks(true, e, rest), Toks(false, e, bones), ok && Readable(e))
    decreases e, 1
  {
    hide Sits;
    Cons(RP, rest, bones, ok);
    LaysList(e.list, [RP] + rest, [RP] + bones, ok);
    var ok' := ok && forall y | y in e.list :: Readable(y);
    var ts, bs := ListToks(true, e.list, [RP] + rest), ListToks(false, e.list, [RP] + bones);
    Cons(LP, ts, bs, ok');
    Set(Kw(KIn), [LP] + ts, [LP] + bs, ok');
    Lays(e.e, [Sp] + ([Kw(KIn)] + ([Sp] + ([LP] + ts))), [Kw(KIn)] + ([LP] + bs), ok');
  }

  lemma {:induction false} LaysBetween(e: Sql, rest: seq<Tok>, bones: seq<Tok>, ok: bool)
    requires e.Between?
    requires Printable(e) && Grammatical(e) && Sits(rest, bones, ok) && Ends(rest)
    ensures Sits(Toks(true, e, rest), Toks(false, e, bones), ok && Readable(e))
    decreases e, 1
  {
    hide Sits;
    Lays(e.hi, rest, bones, ok);
    var ok1 := ok && Readable(e.hi);
    var ts, bs := Toks(true, e.hi, rest), Toks(false, e.hi, bones);
    Set(Kw(KAnd), ts, bs, ok1);
    ts, bs := [Sp] + ([Kw(KAnd)] + ([Sp] + ts)), [Kw(KAnd)] + bs;
    Lays(e.lo, ts, bs, ok1);
    var ok2 := ok1 && Readable(e.lo);
    ts, bs := Toks(true, e.lo, ts), Toks(false, e.lo, bs);
    Set(Kw(KBetween), ts, bs, ok2);
    Lays(e.e, [Sp] + ([Kw(KBetween)] + ([Sp] + ts)), [Kw(KBetween)] + bs, ok2);
  }

  lemma {:induction false} LaysLike(e: Sql, rest: seq<Tok>, bones: seq<Tok>, ok: bool)
    requires e.Like?
    requires Printable(e) && Grammatical(e) && Sits(rest, bones, ok) && Ends(rest)
    ensures Sits(Toks(true, e, rest), Toks(false, e, bones), ok && Readable(e))
    decreases e, 1
  {
    hide Sits;
    var ts, bs := EscapeToks(true, e.esc, rest), EscapeToks(false, e.esc, bones);
    if e.esc.Some? {
      Cons(Str(e.esc.value), rest, bones, ok);
      Set(Kw(KEscape), [Str(e.esc.value)] + rest, [Str(e.esc.value)] + bones, ok);
    }
    Lays(e.pat, ts, bs, ok);
    var ok1 := ok && Readable(e.pat);
    ts, bs := Toks(true, e.pat, ts), Toks(false, e.pat, bs);
    Set(Kw(KLike), ts, bs, ok1);
    Lays(e.e, [Sp] + ([Kw(KLike)] + ([Sp] + ts)), [Kw(KLike)] + bs, ok1);
  }

  lemma {:induction false} LaysCast(e: Sql, rest: seq<Tok>, bones: seq<Tok>, ok: bool)
    requires e.Cast?
    requires Printable(e) && Grammatical(e) && Sits(rest, bones, ok) && Ends(rest)
    ensures Sits(Toks(true, e, rest), Toks(false, e, bones), ok && Readable(e))
    decreases e, 1
  {
    hide Sits;
    Cons(RP, rest, bones, ok);
    LaysType(e.ty, [RP] + rest, [RP] + bones, ok);
    var ts, bs := TypeToks(true, e.ty, [RP] + rest), TypeToks(false, e.ty, [RP] + bones);
    Lead(Kw(KAs), ts, bs, ok);
    ts, bs := [Sp] + ([Kw(KAs)] + ts), [Kw(KAs)] + bs;
    Lays(e.e, ts, bs, ok);
    var ok1 := ok && Readable(e.e);
    ts, bs := Toks(true, e.e, ts), Toks(false, e.e, bs);
    Opens(Kw(KCast), ts, bs, ok1);
  }

  lemma {:induction false} LaysExtract(e: Sql, rest: seq<Tok>, bones: seq<Tok>, ok: bool)
    requires e.Extract?
    requires Printable(e) && Grammatical(e) && Sits(rest, bones, ok) && Ends(rest)
    ensures Sits(Toks(true, e, rest), Toks(false, e, bones), ok && Readable(e))
    decreases e, 1
  {
    hide Sits;
    Cons(RP, rest, bones, ok);
    Lays(e.e, [RP] + rest, [RP] + bones, ok);
    var ok1 := ok && Readable(e.e);
    var ts, bs := Toks(true, e.e, [RP] + rest), Toks(false, e.e, [RP] + bones);
    Set(Kw(KFrom), ts, bs, ok1);
    ExtractHead(e.field, [Sp] + ([Kw(KFrom)] + ([Sp] + ts)), [Kw(KFrom)] + bs, ok1);
  }

  lemma ExtractHead(field: string, ts: seq<Tok>, bs: seq<Tok>, ok: bool)
    requires IsName(field) && Sits(ts, bs, ok) && Ends(ts)
    ensures Sits([Kw(KExtract), LP, Word(field)] + ts, [Kw(KExtract), LP, Word(field)] + bs, ok)
  {
    hide Sits;
    var f := Word(field);
    Cons(f, ts, bs, ok);
    Cons(LP, [f] + ts, [f] + bs, ok);
    Cons(Kw(KExtract), [LP] + ([f] + ts), [LP] + ([f] + bs), ok);
    assert [Kw(KExtract), LP, f] + ts == [Kw(KExtract)] + ([LP] + ([f] + ts));
    assert [Kw(KExtract), LP, f] + bs == [Kw(KExtract)] + ([LP] + ([f] + bs));
  }

  lemma {:induction false} LaysList(list: seq<Sql>, rest: seq<Tok>, bones: seq<Tok>, ok: bool)
    requires forall y | y in list :: Printable(y) && Grammatical(y)
    requires Sits(rest, bones, ok) && Ends(rest)
    ensures Sits(ListToks(true, list, rest), ListToks(false, list, bones), ok && forall y | y in list :: Readable(y))
    decreases list, 0
  {
    hide Sits;
    if |list| == 1 {
      Lays(list[0], rest, bones, ok);
    } else if list != [] {
      var tail := list[1..];
      assert forall y :: y in list <==> y == list[0] || y in tail;
      LaysList(tail, rest, bones, ok);
      var ts, bs := ListToks(true, tail, rest), ListToks(false, tail, bones);
      var ok1 := ok && forall y | y in tail :: Readable(y);
      Cons(Sp, ts, bs, ok1);
      Cons(Comma, [Sp] + ts, bs, ok1);
      Lays(list[0], [Comma] + ([Sp] + ts), [Comma] + bs, ok1);
    }
  }

  lemma {:induction false} LaysCase(e: Sql, rest: seq<Tok>, bones: seq<Tok>, ok: bool)
    requires e.Case?
    requires Printable(e) && Grammatical(e) && Sits(rest, bones, ok) && Ends(rest)
    ensures Sits(Toks(true, e, rest), Toks(false, e, bones), ok && Readable(e))
    decreases e, 1
  {
    hide Sits;
    Lead(Kw(KEnd), rest, bones, ok);
    var ts, bs := [Sp] + ([Kw(KEnd)] + rest), [Kw(KEnd)] + bones;
    var ok1 := ok && (e.els.Some? ==> Readable(e.els.value));
    if e.els.Some? {
      Lays(e.els.value, ts, bs, ok);
      Set(Kw(KElse), Toks(true, e.els.value, ts), Toks(false, e.els.value, bs), ok1);
    }
    ts, bs := ElseToks(true, e.els, ts), ElseToks(false, e.els, bs);
    LaysBranches(e.branches, ts, bs, ok1);
    var ok2 := ok1 && forall b | b in e.branches :: ReadableBranch(b);
    ts, bs := BranchToks(true, e.branches, ts), BranchToks(false, e.branches, bs);
    var ok3 := ok2 && (e.basis.Some? ==> Readable(e.basis.value));
    if e.basis.Some? {
      Lays(e.basis.value, ts, bs, ok2);
      Cons(Sp, Toks(true, e.basis.value, ts), Toks(false, e.basis.value, bs), ok3);
    }
    ts, bs := BasisToks(true, e.basis, ts), BasisToks(false, e.basis, bs);
    Cons(Kw(KCase), ts, bs, ok3);
  }

  lemma {:induction false} LaysBranches(branches: seq<Branch>, rest: seq<Tok>, bones: seq<Tok>, ok: bool)
    requires forall b | b in branches :: PrintableBranch(b) && GrammaticalBranch(b)
    requires Sits(rest, bones, ok) && Ends(rest)
    ensures Sits(BranchToks(true, branches, rest), BranchToks(false, branches, bones),
                 ok && forall b | b in branches :: ReadableBranch(b))
    ensures Ends(BranchToks(true, branches, rest))
    decreases branches, 0
  {
    hide Sits;
    if branches != [] {
      var tail := branches[1..];
      assert forall b :: b in branches <==> b == branches[0] || b in tail;
      LaysBranches(tail, rest, bones, ok);
      LaysBranch(branches[0], BranchToks(true, tail, rest), BranchToks(false, tail, bones),
                 ok && forall b | b in tail :: ReadableBranch(b));
    }
  }

  lemma {:induction false} LaysBranch(b: Branch, rest: seq<Tok>, bones: seq<Tok>, ok: bool)
    requires PrintableBranch(b) && GrammaticalBranch(b)
    requires Sits(rest, bones, ok) && Ends(rest)
    ensures Sits(BranchTok(true, b, rest), BranchTok(false, b, bones), ok && ReadableBranch(b))
    decreases b, 0
  {
    hide Sits;
    Lays(b.result, rest, bones, ok);
    var ok1 := ok && Readable(b.result);
    var ts, bs := Toks(true, b.result, rest), Toks(false, b.result, bones);
    Set(Kw(KThen), ts, bs, ok1);
    ts, bs := [Sp] + ([Kw(KThen)] + ([Sp] + ts)), [Kw(KThen)] + bs;
    Lays(b.cond, ts, bs, ok1);
    Set(Kw(KWhen), Toks(true, b.cond, ts), Toks(false, b.cond, bs), ok1 && Readable(b.cond));
  }

  lemma {:induction false} ReadableIsGrammatical(e: Sql)
    requires Readable(e)
    ensures Grammatical(e)
    decreases e
  {
    forall x | x < e && Readable(x) ensures Grammatical(x) {
      ReadableIsGrammatical(x);
    }
    if e.Case? {
      forall b | b in e.branches ensures GrammaticalBranch(b) {
        assert ReadableBranch(b);
        assert b.cond < b < e && b.result < b < e;
      }
    }
  }

  /**
   Unique readability, both ways: the characters of a printable tree read back as that tree
   exactly when it holds no `DATE NULL`, no CASE without a WHEN and no minus right after a minus.
   */
  lemma ReadShow(e: Sql)
    requires Printable(e)
    ensures Read(Show(e)) == Some(e) <==> Readable(e)
  {
    hide Readable, Printable, Grammatical, Toks, Level, Lex, Flatten;
    if Readable(e) {
      ReadableIsGrammatical(e);
    }
    if Grammatical(e) {
      Lays(e, [], [], true);
      LexFlatten(Toks(true, e, []));
      if Readable(e) {
        Reads(1, e, []);
      }
    }
  }
}

/**
 The SQL expressions the renderer writes, as concrete syntax trees: parentheses are nodes of their
 own, so a tree fixes its text. `Toks` prints a tree. `Level` and its companions form a reference
 parser with SQL's operator precedence; it knows nothing of the renderer.
 */
module SqlTree {
  import opened Common
  import opened SqlText

  datatype BinOp = OrOp | AndOp | SymOp(sym: Symbol)

  datatype Branch = Branch(cond: Sql, result: Sql)

  datatype Sql =
    | SqlNull
    | SqlBool(b: bool)
    | SqlNum(n: string)
    | SqlStr(s: string)
    | Typed(kw: string, s: string)
    | Bare(w: string)
    | Col(alias: Option<string>, name: string)
    | Paren(e: Sql)
    | Bin(op: BinOp, l: Sql, r: Sql)
    | Not(e: Sql)
    | Neg(e: Sql)
    | IsNull(e: Sql)
    | IsNotNull(e: Sql)
    | In(e: Sql, list: seq<Sql>)
    | Between(e: Sql, lo: Sql, hi: Sql)
    | Like(e: Sql, pat: Sql, esc: Option<string>)
    | Case(basis: Option<Sql>, branches: seq<Branch>, els: Option<Sql>)
    | Call(name: string, args: seq<Sql>)
    | Cast(e: Sql, ty: seq<Tok>)
    | Extract(field: string, e: Sql)
    | DateNull
    | RawStr(s: string)

  // ----- printing

  function OpTok(op: BinOp): (t: Tok)
  {
    match op
    case OrOp => Kw(KOr)
    case AndOp => Kw(KAnd)
    case SymOp(y) => Sym(y)
  }

  function Gapped(sp: bool, rest: seq<Tok>): (r: seq<Tok>)
  {
    if sp then [Sp] + rest else rest
  }

  /**
   The tokens of a tree and then `rest`, with the renderer's spaces (`sp`) or without any. Taking
   what follows as an argument keeps every step of the parser's proof a single unfolding.
   */
  function Toks(sp: bool, e: Sql, rest: seq<Tok>): (r: seq<Tok>)
    decreases e
  {
    match e
    case SqlNull => [Kw(KNull)] + rest
    case SqlBool(b) => [Kw(if b then KTrue else KFalse)] + rest
    case SqlNum(n) => [Num(n)] + rest
    case SqlStr(s) => [Str(s)] + rest
    case Typed(kw, s) => [Word(kw)] + Gapped(sp, [Str(s)] + rest)
    case Bare(w) => [Word(w)] + rest
    case Col(None, name) => [Ident(name)] + rest
    case Col(Some(alias), name) => [Ident(alias), Dot, Ident(name)] + rest
    case Paren(x) => [LP] + Toks(sp, x, [RP] + rest)
    case Bin(op, l, x) => Toks(sp, l, Gapped(sp, [OpTok(op)] + Gapped(sp, Toks(sp, x, rest))))
    case Not(x) => [Kw(KNot)] + Gapped(sp, Toks(sp, x, rest))
    case Neg(x) => [Sym(MinusSym)] + Toks(sp, x, rest)
    case IsNull(x) => Toks(sp, x, Gapped(sp, [Kw(KIs)] + Gapped(sp, [Kw(KNull)] + rest)))
    case IsNotNull(x) =>
      Toks(sp, x, Gapped(sp, [Kw(KIs)] + Gapped(sp, [Kw(KNot)] + Gapped(sp, [Kw(KNull)] + rest))))
    case In(x, list) =>
      Toks(sp, x, Gapped(sp, [Kw(KIn)] + Gapped(sp, [LP] + ListToks(sp, list, [RP] + rest))))
    case Between(x, lo, hi) =>
      Toks(sp, x, Gapped(sp, [Kw(KBetween)] + Gapped(sp,
           Toks(sp, lo, Gapped(sp, [Kw(KAnd)] + Gapped(sp, Toks(sp, hi, rest)))))))
    case Like(x, pat, esc) =>
      Toks(sp, x, Gapped(sp, [Kw(KLike)] + Gapped(sp, Toks(sp, pat, EscapeToks(sp, esc, rest)))))
    case Case(basis, branches, els) =>
      [Kw(KCase)] + BasisToks(sp, basis, BranchToks(sp, branches,
        ElseToks(sp, els, Gapped(sp, [Kw(KEnd)] + rest))))
    case Call(name, args) => [Word(name), LP] + ListToks(sp, args, [RP] + rest)
    case Cast(x, ty) =>
      [Kw(KCast), LP] + Toks(sp, x, Gapped(sp, [Kw(KAs)] + TypeToks(sp, ty, [RP] + rest)))
    case Extract(field, x) =>
      [Kw(KExtract), LP, Word(field)] + Gapped(sp, [Kw(KFrom)] + Gapped(sp, Toks(sp, x, [RP] + rest)))
    case DateNull => [Word("DATE")] + Gapped(sp, [Kw(KNull)] + rest)
    case RawStr(s) => [Raw(s)] + rest
  }

  /** A type's tokens; a space goes before each word. */
  function TypeToks(sp: bool, ty: seq<Tok>, rest: seq<Tok>): (r: seq<Tok>)
  {
    if ty == [] then rest
    else if ty[0].Word? then Gapped(sp, [ty[0]] + TypeToks(sp, ty[1..], rest))
    else [ty[0]] + TypeToks(sp, ty[1..], rest)
  }

  function EscapeToks(sp: bool, esc: Option<string>, rest: seq<Tok>): (r: seq<Tok>)
  {
    match esc
    case None => rest
    case Some(c) => Gapped(sp, [Kw(KEscape)] + Gapped(sp, [Str(c)] + rest))
  }

  function BasisToks(sp: bool, basis: Option<Sql>, rest: seq<Tok>): (r: seq<Tok>)
    decreases basis
  {
    match basis
    case None => rest
    case Some(x) => Gapped(sp, Toks(sp, x, rest))
  }

  function ElseToks(sp: bool, els: Option<Sql>, rest: seq<Tok>): (r: seq<Tok>)
    decreases els
  {
    match els
    case None => rest
    case Some(x) => Gapped(sp, [Kw(KElse)] + Gapped(sp, Toks(sp, x, rest)))
  }

  function BranchToks(sp: bool, branches: seq<Branch>, rest: seq<Tok>): (r: seq<Tok>)
    decreases branches
  {
    if branches == [] then rest
    else BranchTok(sp, branches[0], BranchToks(sp, branches[1..], rest))
  }

  function BranchTok(sp: bool, b: Branch, rest: seq<Tok>): (r: seq<Tok>)
    decreases b
  {
    Gapped(sp, [Kw(KWhen)] + Gapped(sp,
      Toks(sp, b.cond, Gapped(sp, [Kw(KThen)] + Gapped(sp, Toks(sp, b.result, rest))))))
  }

  function ListToks(sp: bool, list: seq<Sql>, rest: seq<Tok>): (r: seq<Tok>)
    decreases list
  {
    if list == [] then rest
    else if |list| == 1 then Toks(sp, list[0], rest)
    else Toks(sp, list[0], [Comma] + Gapped(sp, ListToks(sp, list[1..], rest)))
  }

  /** The text of a tree. */
  function Show(e: Sql): (r: string)
  {
    Flatten(Toks(true, e, []))
  }

  /** What no reading of a text yields: `DATE NULL`, a CASE without a WHEN, and raw text between quotes. */
  predicate Grammatical(e: Sql)
    decreases e
  {
    match e
    case Paren(x) => Grammatical(x)
    case Bin(_, l, x) => Grammatical(l) && Grammatical(x)
    case Not(x) => Grammatical(x)
    case Neg(x) => Grammatical(x)
    case IsNull(x) => Grammatical(x)
    case IsNotNull(x) => Grammatical(x)
    case In(x, list) => Grammatical(x) && forall y | y in list :: Grammatical(y)
    case Between(x, lo, hi) => Grammatical(x) && Grammatical(lo) && Grammatical(hi)
    case Like(x, pat, _) => Grammatical(x) && Grammatical(pat)
    case Case(basis, branches, els) =>
      && (basis.Some? ==> Grammatical(basis.value))
      && branches != []
      && (forall b | b in branches :: GrammaticalBranch(b))
      && (els.Some? ==> Grammatical(els.value))
    case Call(_, args) => forall y | y in args :: Grammatical(y)
    case Cast(x, _) => Grammatical(x)
    case Extract(_, x) => Grammatical(x)
    case DateNull => false
    case RawStr(_) => false
    case _ => true
  }

  predicate GrammaticalBranch(b: Branch)
    decreases b
  {
    Grammatical(b.cond) && Grammatical(b.result)
  }

  // ----- the reference parser

  datatype Parsed<+T> = Fail | Got(value: T, rest: seq<Tok>)

  predicate IsComparison(y: Symbol)
  {
    y == EqSym || y == NeSym || y == LtSym || y == LeSym || y == GtSym || y == GeSym
  }

  /** Precedence of a binary operator; a higher level binds tighter. Level 3 is NOT's, 7 minus's. */
  function OpLevel(op: BinOp): (k: nat)
    ensures k in {1, 2, 4, 5, 6}
  {
    match op
    case OrOp => 1
    case AndOp => 2
    case SymOp(y) =>
      if IsComparison(y) then 4
      else if y == PlusSym || y == MinusSym || y == BarsSym then 5
      else 6
  }

  function OpOf(t: Tok): (r: Option<BinOp>)
  {
    match t
    case Sym(y) => Some(SymOp(y))
    case Kw(k) => if k == KOr then Some(OrOp) else if k == KAnd then Some(AndOp) else None
    case _ => None
  }

  predicate IsOpAt(k: nat, t: Tok)
  {
    OpOf(t).Some? && OpLevel(OpOf(t).value) == k
  }

  function Level(k: nat, ts: seq<Tok>): (r: Parsed<Sql>)
    requires 1 <= k <= 7
    ensures r.Got? ==> |r.rest| < |ts|
    ensures r.Got? ==> Grammatical(r.value)
    decreases |ts|, 8 - k
  {
    if k == 7 then
      if ts != [] && ts[0] == Sym(MinusSym) then
        match Level(7, ts[1..])
        case Fail => Fail
        case Got(e, rest) => Got(Neg(e), rest)
      else Primary(ts)
    else if k == 3 && ts != [] && ts[0] == Kw(KNot) then
      match Level(3, ts[1..])
      case Fail => Fail
      case Got(e, rest) => Got(Not(e), rest)
    else
      match Level(k + 1, ts)
      case Fail => Fail
      case Got(e, rest) =>
        if k == 3 then Got(e, rest) else if k == 4 then Suffix(e, rest) else Tail(k, e, rest)
  }

  /** The operators of one level associate to the left. */
  function Tail(k: nat, acc: Sql, ts: seq<Tok>): (r: Parsed<Sql>)
    requires k in {1, 2, 5, 6}
    ensures r.Got? ==> |r.rest| <= |ts|
    ensures r.Got? && Grammatical(acc) ==> Grammatical(r.value)
    decreases |ts|, 0
  {
    if ts == [] || !IsOpAt(k, ts[0]) then Got(acc, ts)
    else
      match Level(k + 1, ts[1..])
      case Fail => Fail
      case Got(e, rest) => Tail(k, Bin(OpOf(ts[0]).value, acc, e), rest)
  }

  /** A comparison, IS, IN, BETWEEN or LIKE behind its left operand, or nothing. */
  function Suffix(e: Sql, ts: seq<Tok>): (r: Parsed<Sql>)
    ensures r.Got? ==> |r.rest| <= |ts|
    ensures r.Got? && Grammatical(e) ==> Grammatical(r.value)
    decreases |ts|, 0
  {
    if ts == [] then Got(e, ts)
    else if IsOpAt(4, ts[0]) then
      match Level(5, ts[1..])
      case Fail => Fail
      case Got(x, rest) => Got(Bin(OpOf(ts[0]).value, e, x), rest)
    else if ts[0] == Kw(KIs) then
      if |ts| > 1 && ts[1] == Kw(KNull) then Got(IsNull(e), ts[2..])
      else if |ts| > 2 && ts[1] == Kw(KNot) && ts[2] == Kw(KNull) then Got(IsNotNull(e), ts[3..])
      else Fail
    else if ts[0] == Kw(KIn) then
      if |ts| > 1 && ts[1] == LP then
        match Items(ts[2..])
        case Fail => Fail
        case Got(list, rest) =>
          if rest != [] && rest[0] == RP then Got(In(e, list), rest[1..]) else Fail
      else Fail
    else if ts[0] == Kw(KBetween) then
      match Level(5, ts[1..])
      case Fail => Fail
      case Got(lo, rest) =>
        if rest != [] && rest[0] == Kw(KAnd) then
          match Level(5, rest[1..])
          case Fail => Fail
          case Got(hi, rest2) => Got(Between(e, lo, hi), rest2)
        else Fail
    else if ts[0] == Kw(KLike) then
      match Level(5, ts[1..])
      case Fail => Fail
      case Got(pat, rest) =>
        if rest != [] && rest[0] == Kw(KEscape) then
          if |rest| > 1 && rest[1].Str? then Got(Like(e, pat, Some(rest[1].s)), rest[2..]) else Fail
        else Got(Like(e, pat, None), rest)
    else Got(e, ts)
  }

  /** One or more expressions separated by commas. */
  function Items(ts: seq<Tok>): (r: Parsed<seq<Sql>>)
    ensures r.Got? ==> |r.rest| < |ts|
    ensures r.Got? ==> forall y | y in r.value :: Grammatical(y)
    decreases |ts|, 8
  {
    match Level(1, ts)
    case Fail => Fail
    case Got(e, rest) =>
      if rest != [] && rest[0] == Comma then
        match Items(rest[1..])
        case Fail => Fail
        case Got(more, rest2) => Got([e] + more, rest2)
      else Got([e], rest)
  }

  /** The arguments of a call and its closing parenthesis. */
  function Arguments(ts: seq<Tok>): (r: Parsed<seq<Sql>>)
    ensures r.Got? ==> |r.rest| < |ts|
    ensures r.Got? ==> forall y | y in r.value :: Grammatical(y)
    decreases |ts|, 9
  {
    if ts != [] && ts[0] == RP then Got([], ts[1..])
    else
      match Items(ts)
      case Fail => Fail
      case Got(list, rest) => if rest != [] && rest[0] == RP then Got(list, rest[1..]) else Fail
  }

  /** A type's tokens: words, numerals and commas, with balanced parentheses, a word first. */
  predicate IsType(ty: seq<Tok>)
  {
    ty != [] && ty[0].Word? && TypeSpaced(ty) && Balanced(ty, 0)
  }

  /** Words, numerals and separators; two that are not words touch only if the lexer parts them. */
  predicate TypeSpaced(ty: seq<Tok>)
  {
    ty != [] ==>
      && ValidTok(ty[0]) && ty[0] != Sp && (ty[0].Word? || ty[0].Num? || IsSep(ty[0]))
      && (|ty| > 1 ==> ty[1].Word? || Apart(ty[0], ty[1]))
      && TypeSpaced(ty[1..])
  }

  predicate Balanced(ty: seq<Tok>, depth: nat)
  {
    if ty == [] then depth == 0
    else if ty[0] == RP then depth > 0 && Balanced(ty[1..], depth - 1)
    else Balanced(ty[1..], if ty[0] == LP then depth + 1 else depth)
  }

  /** A type's tokens, up to the parenthesis that closes its CAST. */
  function TypeOf(ts: seq<Tok>, depth: nat): (r: Parsed<seq<Tok>>)
    ensures r.Got? ==> |r.rest| <= |ts|
    decreases |ts|, 0
  {
    if ts == [] then Fail
    else if ts[0] == RP && depth == 0 then Got([], ts)
    else
      match TypeOf(ts[1..], if ts[0] == LP then depth + 1 else if ts[0] == RP then depth - 1 else depth)
      case Fail => Fail
      case Got(ty, rest) => Got([ts[0]] + ty, rest)
  }

  function CaseBody(ts: seq<Tok>): (r: Parsed<Sql>)
    ensures r.Got? ==> |r.rest| < |ts|
    ensures r.Got? ==> Grammatical(r.value)
    decreases |ts|, 9
  {
    if ts != [] && ts[0] == Kw(KWhen) then CaseBranches(None, ts)
    else
      match Level(1, ts)
      case Fail => Fail
      case Got(e, rest) => CaseBranches(Some(e), rest)
  }

  function CaseBranches(basis: Option<Sql>, ts: seq<Tok>): (r: Parsed<Sql>)
    ensures r.Got? ==> |r.rest| < |ts|
    ensures r.Got? && (basis.Some? ==> Grammatical(basis.value)) ==> Grammatical(r.value)
    decreases |ts|, 8
  {
    match Branches(ts)
    case Fail => Fail
    case Got(branches, rest) =>
      if branches == [] || rest == [] then Fail
      else if rest[0] == Kw(KEnd) then Got(Case(basis, branches, None), rest[1..])
      else if rest[0] == Kw(KElse) then
        match Level(1, rest[1..])
        case Fail => Fail
        case Got(e, rest2) =>
          if rest2 != [] && rest2[0] == Kw(KEnd) then Got(Case(basis, branches, Some(e)), rest2[1..])
          else Fail
      else Fail
  }

  function Branches(ts: seq<Tok>): (r: Parsed<seq<Branch>>)
    ensures r.Got? ==> |r.rest| <= |ts|
    ensures r.Got? ==> forall b | b in r.value :: GrammaticalBranch(b)
    decreases |ts|, 0
  {
    if ts == [] || ts[0] != Kw(KWhen) then Got([], ts)
    else
      match Level(1, ts[1..])
      case Fail => Fail
      case Got(cond, rest) =>
        if rest == [] || rest[0] != Kw(KThen) then Fail
        else
          match Level(1, rest[1..])
          case Fail => Fail
          case Got(result, rest2) =>
            match Branches(rest2)
            case Fail => Fail
            case Got(more, rest3) => Got([Branch(cond, result)] + more, rest3)
  }

  function Primary(ts: seq<Tok>): (r: Parsed<Sql>)
    ensures r.Got? ==> |r.rest| < |ts|
    ensures r.Got? ==> Grammatical(r.value)
    decreases |ts|, 0
  {
    if ts == [] then Fail
    else
      match ts[0]
      case Num(n) => Got(SqlNum(n), ts[1..])
      case Str(s) => Got(SqlStr(s), ts[1..])
      case Ident(id) =>
        if |ts| > 2 && ts[1] == Dot && ts[2].Ident? then Got(Col(Some(id), ts[2].id), ts[3..])
        else Got(Col(None, id), ts[1..])
      case LP =>
        (match Level(1, ts[1..])
         case Fail => Fail
         case Got(e, rest) => if rest != [] && rest[0] == RP then Got(Paren(e), rest[1..]) else Fail)
      case Kw(k) => KwPrimary(k, ts[1..])
      case Word(w) => WordPrimary(w, ts[1..])
      case _ => Fail
  }

  function KwPrimary(k: Keyword, ts: seq<Tok>): (r: Parsed<Sql>)
    ensures r.Got? ==> |r.rest| <= |ts|
    ensures r.Got? ==> Grammatical(r.value)
    decreases |ts|, 10
  {
    match k
    case KNull => Got(SqlNull, ts)
    case KTrue => Got(SqlBool(true), ts)
    case KFalse => Got(SqlBool(false), ts)
    case KCase => CaseBody(ts)
    case KCast => if ts == [] || ts[0] != LP then Fail else CastBody(ts[1..])
    case KExtract =>
      if |ts| > 2 && ts[0] == LP && ts[1].Word? && ts[2] == Kw(KFrom) then
        match Level(1, ts[3..])
        case Fail => Fail
        case Got(e, rest) =>
          if rest != [] && rest[0] == RP then Got(Extract(ts[1].w, e), rest[1..]) else Fail
      else Fail
    case _ => Fail
  }

  function WordPrimary(w: string, ts: seq<Tok>): (r: Parsed<Sql>)
    ensures r.Got? ==> |r.rest| <= |ts|
    ensures r.Got? ==> Grammatical(r.value)
    decreases |ts|, 10
  {
    if ts == [] then Got(Bare(w), ts)
    else if ts[0] == LP then
      match Arguments(ts[1..])
      case Fail => Fail
      case Got(args, rest) => Got(Call(w, args), rest)
    else if ts[0].Str? then Got(Typed(w, ts[0].s), ts[1..])
    else Got(Bare(w), ts)
  }

  function CastBody(ts: seq<Tok>): (r: Parsed<Sql>)
    ensures r.Got? ==> |r.rest| <= |ts|
    ensures r.Got? ==> Grammatical(r.value)
    decreases |ts|, 9
  {
    match Level(1, ts)
    case Fail => Fail
    case Got(e, rest) =>
      if rest == [] || rest[0] != Kw(KAs) then Fail
      else
        match TypeOf(rest[1..], 0)
        case Fail => Fail
        case Got(ty, rest2) => if rest2 != [] && IsType(ty) then Got(Cast(e, ty), rest2[1..]) else Fail
  }

  /** Reads a whole text as one expression. */
  function Read(text: string): (r: Option<Sql>)
  {
    match Lex(text)
    case None => None
    case Some(ts) =>
      match Level(1, ts)
      case Fail => None
      case Got(e, rest) => if rest == [] then Some(e) else None
  }
}

/** What rendered SQL means to DataFusion, for one row. */
module Evaluate {
  import opened Common
  import opened SqlText
  import opened SqlTree
  import opened ExasolTypes
  import opened TypeText
  import opened Wire
  import opened DateFormat
  import DecimalText
  import opened Renderer
  import opened ExasolMeaning

  function Or3(a: Val, b: Val): (r: Val)
  {
    if a == B(true) || b == B(true) then B(true) else if a == B(false) && b == B(false) then B(false) else Null
  }

  /** IN by three-valued logic: a NULL entry leaves the answer open unless another one matches. */
  function InThreeValued(I: Interp, v: Val, entries: seq<Val>): (r: Val)
  {
    if v.Null? then Null
    else if exists w | w in entries :: !w.Null? && Same(I, v, w) then B(true)
    else if Null in entries then Null
    else B(false)
  }

  /** DataFusion's own text of a value: booleans in lower case, decimals at full scale. */
  function DfText(I: Interp, v: Val): (r: string)
  {
    match v
    case B(b) => if b then "true" else "false"
    case T(s) => s
    case _ => I.show(v)
  }

  function DfTexts(I: Interp, vs: seq<Val>): (r: string)
  {
    if vs == [] then "" else (if vs[0].Null? then "" else DfText(I, vs[0])) + DfTexts(I, vs[1..])
  }

  function DfCast(I: Interp, v: Val, t: ExasolType): (r: Val)
  {
    if v.Null? then Null
    else if t.IsCharacter() then T(DfText(I, v))
    else if v.T? && t.DoublePrecision? then N(I.double(v.s))
    else I.cast(v, t)
  }

  /** The type a cast target's tokens name in DataFusion. */
  function DfTypeOf(ty: seq<Tok>): (r: Option<ExasolType>)
  {
    if ty == [Word("VARCHAR")] then Some(Varchar(MAX_VARCHAR_SIZE, false))
    else if ty == [Word("DOUBLE")] then Some(DoublePrecision)
    else if |ty| == 4 && ty[0] == Word("TIMESTAMP") && ty[2].Num? && NatValue(ty[2].n) >= 0 then
      Some(Timestamp(NatValue(ty[2].n)))
    else ReadType(ty)
  }

  /** The operation a DataFusion function name stands for; three of Exasol's names stand for none there. */
  function DfDenoted(name: string): (r: string)
  {
    if name == "character_length" then "LENGTH"
    else if name == "signum" then "SIGN"
    else if name == "sign" || name == "unicode" || name == "unicodechr" then ""
    else Upper(name)
  }

  function NonNull(vs: seq<Val>): (r: seq<Val>)
  {
    if vs == [] then [] else if vs[0].Null? then NonNull(vs[1..]) else [vs[0]] + NonNull(vs[1..])
  }

  /** DataFusion's greatest and least skip NULL arguments. */
  function SkippingExtreme(I: Interp, name: string, vs: seq<Val>): (r: Val)
  {
    if NonNull(vs) == [] then Null else I.call(name, NonNull(vs))
  }

  /** A timestamp text cut to the digits a unit keeps. */
  function CutFraction(s: string, digits: nat): (r: string)
  {
    var f := FractionDigits(s);
    DecimalText.TrimZeros(if |f| <= digits then f else f[..digits])
  }

  function ArrowCast(I: Interp, v: Val, ty: Val): (r: Val)
  {
    if v.Null? then Null
    else if !v.T? then I.call("arrow_cast", [v, ty])
    else if ty == T("Timestamp(Microsecond, None)") then Moment(BaseText(v.s), CutFraction(v.s, 6))
    else if ty == T("Timestamp(Nanosecond, None)") then Moment(BaseText(v.s), CutFraction(v.s, 9))
    else if ty == T("Timestamp(Microsecond, Some(\"UTC\"))") && |v.s| >= 6 && v.s[|v.s| - 6..] == "+00:00" then
      Instant(BaseText(v.s[..|v.s| - 6]), CutFraction(v.s[..|v.s| - 6], 6))
    else I.call("arrow_cast", [v, ty])
  }

  function RegexpReplace(I: Interp, v: Val, pattern: Val, with: Val): (r: Val)
  {
    if v.Null? then Null
    else if v.T? && pattern == T("(\\.[0-9]*[1-9])0+$") && with == T("\\1") then T(DecimalText.DropTrailingZeros(v.s))
    else if v.T? && pattern == T("\\.0+$") && with == T("") then T(DecimalText.DropZeroFraction(v.s))
    else I.call("regexp_replace", [v, pattern, with])
  }

  function ParseByPattern(I: Interp, target: FormatTarget, v: Val, pattern: Val): (r: Val)
  {
    if v.Null? then Null
    else if pattern.T? && Decode(pattern.s).Some? then I.parse(target, Join(Decode(pattern.s).value), v)
    else Null
  }

  function EvalCall(I: Interp, name: string, vs: seq<Val>): (r: Val)
  {
    if IsPlain(DfDenoted(name)) then I.call(DfDenoted(name), vs)
    else if name == "nullif" && |vs| == 2 then NullIfSame(I, vs[0], vs[1])
    else if name == "concat" then T(DfTexts(I, vs))
    else if name == "greatest" then SkippingExtreme(I, "GREATEST", vs)
    else if name == "least" then SkippingExtreme(I, "LEAST", vs)
    else if name == "coalesce" && |vs| == 2 then if vs[0].Null? then vs[1] else vs[0]
    else if name == "strpos" && |vs| == 2 then I.call("INSTR", vs)
    else if name == "vs_checked_float_div" && |vs| == 2 then Computed(I, SlashSym, vs[0], vs[1])
    else if name == "date_part" && |vs| == 2 && vs[0].T? then I.part(Upper(vs[0].s), vs[1])
    else if name == "arrow_cast" && |vs| == 2 then ArrowCast(I, vs[0], vs[1])
    else if name == "regexp_replace" && |vs| == 3 then RegexpReplace(I, vs[0], vs[1], vs[2])
    else if name == "to_date" && |vs| == 1 then I.call("TO_DATE", vs)
    else if name == "to_timestamp" && |vs| == 1 then I.call("TO_TIMESTAMP", vs)
    else if name == "to_date" && |vs| == 2 then ParseByPattern(I, DateTarget, vs[0], vs[1])
    else if name == "to_timestamp" && |vs| == 2 then ParseByPattern(I, TimestampTarget, vs[0], vs[1])
    else I.call(name, vs)
  }

  function SymbolMeaning(I: Interp, y: Symbol, a: Val, b: Val): (r: Val)
  {
    match y
    case EqSym => Compared(I, Equal, a, b)
    case NeSym => Compared(I, NotEqual, a, b)
    case LtSym => Compared(I, Less, a, b)
    case LeSym => Compared(I, LessEqual, a, b)
    case GtSym => Compared(I, Greater, a, b)
    case GeSym => Compared(I, GreaterEqual, a, b)
    case _ => Computed(I, y, a, b)
  }

  function BinMeaning(I: Interp, op: BinOp, a: Val, b: Val): (r: Val)
  {
    match op
    case OrOp => Or3(a, b)
    case AndOp => And3(a, b)
    case SymOp(y) => SymbolMeaning(I, y, a, b)
  }

  function Eval(I: Interp, row: Row, e: Sql): (v: Val)
    decreases e
  {
    match e
    case SqlNull => Null
    case SqlBool(b) => B(b)
    case SqlNum(n) => N(I.number(n))
    case SqlStr(s) => T(s)
    case Typed(kw, s) => if kw == "DATE" then DayOf(s) else I.call(kw, [T(s)])
    case Bare(w) => I.call(w, [])
    case Col(alias, name) => row(alias, name)
    case Paren(x) => Eval(I, row, x)
    case Bin(op, l, x) => BinMeaning(I, op, Eval(I, row, l), Eval(I, row, x))
    case Not(x) => Not3(Eval(I, row, x))
    case Neg(x) => Negated(I, Eval(I, row, x))
    case IsNull(x) => B(Eval(I, row, x).Null?)
    case IsNotNull(x) => B(!Eval(I, row, x).Null?)
    case In(x, list) => InThreeValued(I, Eval(I, row, x), EvalAll(I, row, list))
    case Between(x, lo, hi) => Ranged(I, Eval(I, row, x), Eval(I, row, lo), Eval(I, row, hi))
    case Like(x, pat, esc) => Liked(I, Eval(I, row, x), Eval(I, row, pat), esc)
    case Case(basis, branches, els) =>
      var (conds, results) := EvalBranches(I, row, branches);
      Picked(I, if basis.Some? then Some(Eval(I, row, basis.value)) else None, conds,
             results + [if els.Some? then Eval(I, row, els.value) else Null])
    case Call(name, args) => EvalCall(I, name, EvalAll(I, row, args))
    case Cast(x, ty) =>
      if DfTypeOf(ty).None? then Null else DfCast(I, Eval(I, row, x), DfTypeOf(ty).value)
    case Extract(f, x) => I.part(f, Eval(I, row, x))
    case DateNull => Null
    case RawStr(s) => T(s)
  }

  function EvalAll(I: Interp, row: Row, es: seq<Sql>): (vs: seq<Val>)
    ensures |vs| == |es|
    ensures forall i :: 0 <= i < |es| ==> vs[i] == Eval(I, row, es[i])
    decreases es
  {
    if es == [] then [] else [Eval(I, row, es[0])] + EvalAll(I, row, es[1..])
  }

  function EvalBranches(I: Interp, row: Row, bs: seq<Branch>): (r: (seq<Val>, seq<Val>))
    ensures |r.0| == |bs| && |r.1| == |bs|
    ensures forall i :: 0 <= i < |bs| ==> (r.0[i], r.1[i]) == EvalBranch(I, row, bs[i])
    decreases bs
  {
    if bs == [] then ([], [])
    else
      var head := EvalBranch(I, row, bs[0]);
      var tail := EvalBranches(I, row, bs[1..]);
      ([head.0] + tail.0, [head.1] + tail.1)
  }

  function EvalBranch(I: Interp, row: Row, b: Branch): (r: (Val, Val))
    ensures r == (Eval(I, row, b.cond), Eval(I, row, b.result))
    decreases b
  {
    (Eval(I, row, b.cond), Eval(I, row, b.result))
  }
}

/**
 What an expression node means to Exasol, for one row. The parts of the engines that the
 translation does not touch (arithmetic, collation, calendar, plain functions) are an arbitrary
 interpretation, so every statement about meanings holds for all of them.
 */
module ExasolMeaning {
  import opened Common
  import opened SqlText
  import opened ExasolTypes
  import opened Wire
  import opened DateFormat
  import DecimalText
  import opened Renderer

  datatype Val =
    | Null
    | B(b: bool)
    | N(q: real)
    | T(s: string)
    | DayOf(s: string)
    | Moment(base: string, frac: string)
    | Instant(base: string, frac: string)
    | Other(id: int)

  datatype Interp = Interp(
    number: string -> real,
    double: string -> real,
    equal: (Val, Val) -> bool,
    less: (Val, Val) -> bool,
    arith: (Symbol, Val, Val) -> Val,
    call: (string, seq<Val>) -> Val,
    like: (Val, Val, Option<string>) -> bool,
    cast: (Val, ExasolType) -> Val,
    part: (string, Val) -> Val,
    parse: (FormatTarget, string, Val) -> Val,
    show: Val -> string)

  /** Numerals mean what they say, and a number's full text is a decimal numeral. */
  ghost predicate Sane(I: Interp)
  {
    && I.number("0") == 0.0 && I.number("60") == 60.0 && I.number("3600") == 3600.0
    && forall q: real :: IsDecimalText(I.show(N(q)))
  }

  ghost predicate IsDecimalText(s: string)
  {
    exists n :: DecimalText.Valid(n) && DecimalText.Text(n) == s
  }

  type Row = (Option<string>, string) -> Val

  // ----- shared by both engines

  predicate IsBoolean(v: Val) { v.Null? || v.B? }

  predicate Same(I: Interp, a: Val, b: Val)
  {
    if a.T? && b.T? then a.s == b.s
    else if a.B? && b.B? then a.b == b.b
    else if a.N? && b.N? then a.q == b.q
    else I.equal(a, b)
  }

  function Compared(I: Interp, op: CompareOp, a: Val, b: Val): (v: Val)
  {
    if a.Null? || b.Null? then Null
    else
      match op
      case Equal => B(Same(I, a, b))
      case NotEqual => B(!Same(I, a, b))
      case Less => B(I.less(a, b))
      case LessEqual => B(I.less(a, b) || Same(I, a, b))
      case Greater => B(I.less(b, a))
      case GreaterEqual => B(I.less(b, a) || Same(I, a, b))
  }

  function Computed(I: Interp, y: Symbol, a: Val, b: Val): (v: Val)
  {
    if a.Null? || b.Null? then Null else I.arith(y, a, b)
  }

  function Negated(I: Interp, v: Val): (r: Val)
  {
    if v.Null? then Null else if v.N? then N(-v.q) else I.call("NEG", [v])
  }

  function Not3(v: Val): (r: Val) { if v.B? then B(!v.b) else Null }

  function And3(a: Val, b: Val): (r: Val)
  {
    if a == B(false) || b == B(false) then B(false) else if a == B(true) && b == B(true) then B(true) else Null
  }

  function Liked(I: Interp, v: Val, p: Val, esc: Option<string>): (r: Val)
  {
    if v.Null? || p.Null? then Null else B(I.like(v, p, esc))
  }

  function Ranged(I: Interp, v: Val, lo: Val, hi: Val): (r: Val)
  {
    And3(Compared(I, GreaterEqual, v, lo), Compared(I, LessEqual, v, hi))
  }

  /** The first branch that fires: its condition is true, or equals the basis. */
  function Picked(I: Interp, basis: Option<Val>, conds: seq<Val>, results: seq<Val>): (r: Val)
    requires |results| == |conds| || |results| == |conds| + 1
  {
    if conds == [] then if results == [] then Null else results[0]
    else if Fires(I, basis, conds[0]) then results[0]
    else Picked(I, basis, conds[1..], results[1..])
  }

  predicate Fires(I: Interp, basis: Option<Val>, c: Val)
  {
    if basis.None? then c == B(true) else Compared(I, Equal, basis.value, c) == B(true)
  }

  function NullIfSame(I: Interp, a: Val, b: Val): (r: Val)
  {
    if Compared(I, Equal, a, b) == B(true) then Null else a
  }

  // ----- Exasol's own rules

  /** AND over any number of members: false beats NULL, NULL beats true. */
  function AllOf(vs: seq<Val>): (r: Val)
    ensures IsBoolean(r)
  {
    if B(false) in vs then B(false) else if forall v | v in vs :: v == B(true) then B(true) else Null
  }

  /** OR over any number of members: true beats NULL, NULL beats false. */
  function AnyOf(vs: seq<Val>): (r: Val)
    ensures IsBoolean(r)
  {
    if B(true) in vs then B(true) else if forall v | v in vs :: v == B(false) then B(false) else Null
  }

  /** IN ignores NULL entries. */
  function Within(I: Interp, v: Val, entries: seq<Val>): (r: Val)
    ensures IsBoolean(r)
  {
    if forall w | w in entries :: w.Null? then B(false)
    else if v.Null? then Null
    else B(exists w | w in entries :: !w.Null? && Same(I, v, w))
  }

  /** A number converts to its shortest text. */
  ghost function ShortText(s: string): (r: string)
  {
    if n :| DecimalText.Valid(n) && DecimalText.Text(n) == s then DecimalText.Text(DecimalText.Short(n)) else s
  }

  /** A decimal text with a fraction that ends in zero */
  predicate SpareZeros(s: string) { '.' in s && s[|s| - 1] == '0' }

  /** A number's text stays as it is exactly if its fraction does not end in zero. */
  lemma ShortTextKept(s: string)
    requires IsDecimalText(s)
    ensures ShortText(s) == s <==> !SpareZeros(s)
  {
    var n :| DecimalText.Valid(n) && DecimalText.Text(n) == s && ShortText(s) == DecimalText.Text(DecimalText.Short(n));
    DecimalText.ShortKeepsText(n);
  }

  /** The text of a value: TRUE and FALSE in capitals, numbers in shortest form. */
  ghost function ExaText(I: Interp, v: Val): (r: string)
  {
    match v
    case B(b) => if b then "TRUE" else "FALSE"
    case T(s) => s
    case N(_) => ShortText(I.show(v))
    case _ => I.show(v)
  }

  ghost function ExaCast(I: Interp, v: Val, t: ExasolType): (r: Val)
  {
    if v.Null? then Null
    else if t.IsCharacter() then T(ExaText(I, v))
    else if v.T? && t.DoublePrecision? then N(I.double(v.s))
    else I.cast(v, t)
  }

  ghost function ExaTexts(I: Interp, vs: seq<Val>): (r: string)
  {
    if vs == [] then "" else (if vs[0].Null? then "" else ExaText(I, vs[0])) + ExaTexts(I, vs[1..])
  }

  /** `||` takes NULL for the empty text, and its empty result for NULL. */
  ghost function Concatenated(I: Interp, vs: seq<Val>): (r: Val)
  {
    if ExaTexts(I, vs) == "" then Null else T(ExaTexts(I, vs))
  }

  /** GREATEST and LEAST are NULL as soon as one argument is. */
  function Extreme(I: Interp, name: string, vs: seq<Val>): (r: Val)
  {
    if Null in vs then Null else I.call(name, vs)
  }

  /** The operation a plain function name stands for: two pairs of names share one. */
  function Denoted(w: string): (r: string)
  {
    if w == "UNICODE" then "ASCII" else if w == "UNICODECHR" then "CHR" else w
  }

  function ParsedBy(I: Interp, target: FormatTarget, format: string, v: Val): (r: Val)
  {
    var w := NullIfSame(I, v, T(""));
    if w.Null? then Null else I.parse(target, Upper(format), w)
  }

  /** CASE over its arguments in turn: condition, result, condition, result, and perhaps an ELSE. */
  function Chosen(vs: seq<Val>): (r: Val)
  {
    if vs == [] then Null
    else if |vs| == 1 then vs[0]
    else if vs[0] == B(true) then vs[1]
    else Chosen(vs[2..])
  }

  function Gap(I: Interp, a: Val, b: Val): (r: Val)
  {
    Computed(I, MinusSym, I.part("EPOCH", a), I.part("EPOCH", b))
  }

  /** A scalar function over the values of its arguments. */
  ghost function FnMeaning(I: Interp, fn: Fn, vs: seq<Val>): (r: Val)
  {
    match fn
    case Plain(w) => I.call(Denoted(w), vs)
    case Concat => Concatenated(I, vs)
    case CaseFn => Chosen(vs)
    case Greatest => Extreme(I, "GREATEST", vs)
    case Least => Extreme(I, "LEAST", vs)
    case Undeclared(_) => Null
    case NegFn => if |vs| != 1 then Null else Negated(I, vs[0])
    case NullIfZero => if |vs| != 1 then Null else NullIfSame(I, vs[0], N(0.0))
    case ZeroIfNull => if |vs| != 1 then Null else if vs[0].Null? then N(0.0) else vs[0]
    case Part(f) => if |vs| != 1 then Null else I.part(FieldName(f), vs[0])
    case Week => if |vs| != 1 then Null else I.part("WEEK", vs[0])
    case Instr => if |vs| < 2 then Null else I.call("INSTR", vs)
    case Locate => if |vs| < 2 then Null else I.call("INSTR", [vs[1], vs[0]] + vs[2..])
    case ToDate =>
      if |vs| == 2 && vs[1].T? then ParsedBy(I, DateTarget, vs[1].s, vs[0]) else I.call("TO_DATE", vs)
    case ToTimestamp =>
      if |vs| == 2 && vs[1].T? then ParsedBy(I, TimestampTarget, vs[1].s, vs[0]) else I.call("TO_TIMESTAMP", vs)
    case _ => if |vs| != 2 then Null else PairMeaning(I, fn, vs[0], vs[1])
  }

  ghost function PairMeaning(I: Interp, fn: Fn, a: Val, b: Val): (r: Val)
  {
    match fn
    case Add => Computed(I, PlusSym, a, b)
    case Sub => Computed(I, MinusSym, a, b)
    case Mult => Computed(I, StarSym, a, b)
    case FloatDiv => Computed(I, SlashSym, a, b)
    case Mod => Computed(I, PercentSym, a, b)
    case NullIf => NullIfSame(I, a, b)
    case DaysBetween => Computed(I, MinusSym, ExaCast(I, a, Date), ExaCast(I, b, Date))
    case TimeBetween(HourUnit) => Computed(I, SlashSym, Gap(I, a, b), N(3600.0))
    case TimeBetween(MinuteUnit) => Computed(I, SlashSym, Gap(I, a, b), N(60.0))
    case TimeBetween(SecondUnit) => Gap(I, a, b)
    case _ => Null
  }

  // ----- nodes

  function BaseText(s: string): (r: string)
  {
    if s == "" || s[0] == '.' then "" else [s[0]] + BaseText(s[1..])
  }

  function SignedNumber(I: Interp, text: string): (v: Val)
  {
    if text != "" && text[0] == '-' then N(-I.number(text[1..])) else N(I.number(text))
  }

  /** What a literal's value says as a text */
  function ValueText(v: Wire.Scalar): (r: string)
  {
    if v == Flag(true) then "true" else if v == Flag(false) then "false"
    else if v.Text? then v.s else if v.Number? then v.text else ""
  }

  /** What a literal's value says as a truth value */
  predicate SaysTrue(v: Wire.Scalar)
  {
    match v
    case Flag(b) => b
    case Text(s) => s == "true" || s == "TRUE"
    case Number(t) => t == "1"
    case NoValue => false
  }

  lemma TextIsValue(v: Wire.Scalar)
    ensures ScalarText(v) == ValueText(v)
  {
  }

  function LiteralMeaning(I: Interp, n: Node): (v: Val)
    requires IsLiteral(n)
  {
    match n
    case LitNull => Null
    case LitBool(v) => if v.NoValue? then Null else B(SaysTrue(v))
    case LitString(v) => if v.NoValue? then Null else T(ValueText(v))
    case LitExact(v) => if v.NoValue? then Null else SignedNumber(I, ValueText(v))
    case LitDouble(v) => if v.NoValue? then Null else N(I.double(ValueText(v)))
    case LitDate(v) => if v.NoValue? then Null else DayOf(ValueText(v))
    case LitTimestamp(v) =>
      if v.NoValue? then Null else Moment(BaseText(ValueText(v)), DecimalText.TrimZeros(FractionDigits(ValueText(v))))
    case LitTimestampUtc(v) => InstantOf(v)
    case LitTstz(v) => InstantOf(v)
  }

  function InstantOf(v: Wire.Scalar): (r: Val)
  {
    if v.NoValue? then Null else Instant(BaseText(ValueText(v)), DecimalText.TrimZeros(FractionDigits(ValueText(v))))
  }

  ghost function Meaning(I: Interp, row: Row, n: Node): (v: Val)
    decreases n
  {
    match n
    case Absent => Null
    case Malformed => Null
    case Column(name, alias) =>
      if name.None? then Null else row(if alias == Some("") then None else alias, Upper(name.value))
    case Compare(op, l, r) => Compared(I, op, Meaning(I, row, l), Meaning(I, row, r))
    case Junction(isAnd, ms) => if isAnd then AllOf(Meanings(I, row, ms)) else AnyOf(Meanings(I, row, ms))
    case NotNode(e) => Not3(Meaning(I, row, e))
    case IsNullNode(e) => B(Meaning(I, row, e).Null?)
    case IsNotNullNode(e) => B(!Meaning(I, row, e).Null?)
    case InList(e, ms) => Within(I, Meaning(I, row, e), Meanings(I, row, ms))
    case BetweenNode(e, lo, hi) => Ranged(I, Meaning(I, row, e), Meaning(I, row, lo), Meaning(I, row, hi))
    case LikeNode(e, p, esc) =>
      Liked(I, Meaning(I, row, e), Meaning(I, row, p), if esc == Some("") then None else esc)
    case ExtractNode(field, ms) => if ms == [] then Null else I.part(Upper(field), Meaning(I, row, ms[0]))
    case CaseNode(b, ws, rs) =>
      if |rs| != |ws| && |rs| != |ws| + 1 then Null
      else Picked(I, if b.Absent? then None else Some(Meaning(I, row, b)), Meanings(I, row, ws), Meanings(I, row, rs))
    case CastNode(ms, ty) => if ms == [] || ty.None? then Null else ExaCast(I, Meaning(I, row, ms[0]), ty.value)
    case DecimalNode(ms) =>
      if ms == [] then Null else ExaCast(I, Meaning(I, row, ms[0]), Varchar(MAX_VARCHAR_SIZE, false))
    case Scalar(fn, ms) => FnMeaning(I, fn, Meanings(I, row, ms))
    case _ => LiteralMeaning(I, n)
  }

  ghost function Meanings(I: Interp, row: Row, ns: seq<Node>): (vs: seq<Val>)
    ensures |vs| == |ns|
    ensures forall i :: 0 <= i < |ns| ==> vs[i] == Meaning(I, row, ns[i])
    decreases ns
  {
    if ns == [] then [] else [Meaning(I, row, ns[0])] + Meanings(I, row, ns[1..])
  }

  /** A NULL literal means NULL on every row. */
  lemma NullLiteralIsNull(I: Interp, row: Row, n: Node)
    requires IsNullLiteral(n)
    ensures Meaning(I, row, n).Null?
  {
  }

  /** The nodes that are predicates or truth values by their kind */
  predicate IsPredicate(n: Node)
  {
    match n
    case LitBool(_) => true
    case Compare(_, _, _) => true
    case Junction(_, _) => true
    case NotNode(_) => true
    case IsNullNode(_) => true
    case IsNotNullNode(_) => true
    case InList(_, _) => true
    case BetweenNode(_, _, _) => true
    case LikeNode(_, _, _) => true
    case _ => false
  }

  /** The code takes exactly these for boolean-producing, and they are true, false or NULL on every row. */
  lemma BooleanKindIsBoolean(I: Interp, row: Row, n: Node)
    ensures BooleanKind(n) <==> IsPredicate(n)
    ensures IsPredicate(n) ==> IsBoolean(Meaning(I, row, n))
  {
  }
}

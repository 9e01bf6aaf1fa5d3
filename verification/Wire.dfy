/** The expression nodes of a pushdown request, after their JSON is read. */
module Wire {
  import opened Common
  import opened ExasolTypes

  datatype Dialect = DataFusion | Exasol

  /** A literal's `value`: absent or null, a string, a number as it prints, or a boolean. */
  datatype Scalar = NoValue | Text(s: string) | Number(text: string) | Flag(b: bool)

  /** `json_scalar_to_string` */
  function ScalarText(v: Scalar): (r: string)
  {
    match v
    case NoValue => ""
    case Text(s) => s
    case Number(t) => t
    case Flag(b) => if b then "true" else "false"
  }

  predicate Truthy(v: Scalar)
  {
    v == Flag(true) || v == Text("true") || v == Text("TRUE") || v == Number("1")
  }

  datatype CompareOp = Equal | NotEqual | Less | LessEqual | Greater | GreaterEqual

  datatype DateField = YearField | MonthField | DayField | HourField | MinuteField | SecondField

  datatype TimeUnit = HourUnit | MinuteUnit | SecondUnit

  /** A scalar function's name, read. `Plain` names map to one DataFusion call each. */
  datatype Fn =
    | Plain(name: string)
    | Add | Sub | Mult | FloatDiv
    | NegFn | Mod | Concat | CaseFn
    | Greatest | Least | NullIf | NullIfZero | ZeroIfNull
    | Instr | Locate
    | Part(field: DateField) | Week
    | ToDate | ToTimestamp
    | DaysBetween | TimeBetween(unit: TimeUnit)
    | Undeclared(name: string)

  datatype Node =
    | Absent
    | Malformed
    | LitNull
    | LitBool(value: Scalar)
    | LitString(value: Scalar)
    | LitExact(value: Scalar)
    | LitDouble(value: Scalar)
    | LitDate(value: Scalar)
    | LitTimestamp(value: Scalar)
    | LitTimestampUtc(value: Scalar)
    | LitTstz(value: Scalar)
    | Column(name: Option<string>, alias: Option<string>)
    | Compare(op: CompareOp, left: Node, right: Node)
    | Junction(isAnd: bool, members: seq<Node>)
    | NotNode(e: Node)
    | IsNullNode(e: Node)
    | IsNotNullNode(e: Node)
    | InList(e: Node, entries: seq<Node>)
    | BetweenNode(e: Node, lo: Node, hi: Node)
    | LikeNode(e: Node, pat: Node, esc: Option<string>)
    | ExtractNode(field: string, args: seq<Node>)
    | CaseNode(basis: Node, whens: seq<Node>, results: seq<Node>)
    | CastNode(args: seq<Node>, ty: Option<ExasolType>)
    | DecimalNode(args: seq<Node>)
    | Scalar(fn: Fn, args: seq<Node>)

  /** `is_boolean_producing` */
  predicate BooleanKind(n: Node)
  {
    || n.LitBool? || n.Compare? || n.Junction? || n.NotNode? || n.IsNullNode? || n.IsNotNullNode?
    || n.InList? || n.BetweenNode? || n.LikeNode?
  }

  predicate IsLiteral(n: Node)
  {
    || n.LitNull? || n.LitBool? || n.LitString? || n.LitExact? || n.LitDouble? || n.LitDate?
    || n.LitTimestamp? || n.LitTimestampUtc? || n.LitTstz?
  }

  /** `is_null_literal` */
  predicate IsNullLiteral(n: Node)
  {
    n.LitNull? || (IsLiteral(n) && n.value.NoValue?)
  }

  // ----- function names

  predicate IsAlgebra(w: string)
  {
    w in ["ABS", "FLOOR", "CEIL", "SQRT", "EXP", "LN", "SIGN"]
  }

  predicate IsAngle(w: string)
  {
    w in ["DEGREES", "RADIANS", "SIN", "COS", "TAN", "ASIN"]
  }

  predicate IsArc(w: string)
  {
    w in ["ACOS", "ATAN", "SINH", "COSH", "TANH", "COT"]
  }

  predicate IsRounding(w: string)
  {
    w in ["ROUND", "TRUNC", "LOG"]
  }

  predicate IsPair(w: string)
  {
    w in ["POWER", "ATAN2", "DATE_TRUNC"]
  }

  predicate IsTrimming(w: string)
  {
    w in ["LOWER", "UPPER", "SUBSTR", "TRIM", "LTRIM", "RTRIM", "REPLACE"]
  }

  predicate IsPadding(w: string)
  {
    w in ["REPEAT", "REVERSE", "LPAD", "RPAD", "ASCII", "CHR", "INITCAP"]
  }

  predicate IsMeasure(w: string)
  {
    w in ["LEFT", "RIGHT", "TRANSLATE", "LENGTH"]
  }

  predicate IsCoding(w: string)
  {
    w in ["OCTET_LENGTH", "UNICODE", "UNICODECHR"]
  }

  predicate IsOneArgument(w: string) { IsAlgebra(w) || IsAngle(w) || IsArc(w) }

  predicate IsAnyArity(w: string) { IsTrimming(w) || IsPadding(w) || IsMeasure(w) || IsCoding(w) }

  predicate IsPlain(w: string)
  {
    IsOneArgument(w) || IsRounding(w) || IsPair(w) || IsAnyArity(w)
  }

  /** The functions the translator knows */
  predicate Declared(fn: Fn)
  {
    !fn.Undeclared? && (fn.Plain? ==> IsPlain(fn.name))
  }

  /** The number of arguments the DataFusion arm of a plain function takes. */
  predicate PlainArity(w: string, n: nat)
  {
    (IsOneArgument(w) ==> n == 1) && (IsRounding(w) ==> n == 1 || n == 2) && (IsPair(w) ==> n == 2)
  }

  function FieldName(f: DateField): (r: string)
  {
    match f
    case YearField => "YEAR"
    case MonthField => "MONTH"
    case DayField => "DAY"
    case HourField => "HOUR"
    case MinuteField => "MINUTE"
    case SecondField => "SECOND"
  }

  /** A function's Exasol name. */
  function ExaName(f: Fn): (r: string)
  {
    match f
    case Plain(name) => name
    case Add => "ADD"
    case Sub => "SUB"
    case Mult => "MULT"
    case FloatDiv => "FLOAT_DIV"
    case NegFn => "NEG"
    case Mod => "MOD"
    case Concat => "CONCAT"
    case CaseFn => "CASE"
    case Greatest => "GREATEST"
    case Least => "LEAST"
    case NullIf => "NULLIF"
    case NullIfZero => "NULLIFZERO"
    case ZeroIfNull => "ZEROIFNULL"
    case Instr => "INSTR"
    case Locate => "LOCATE"
    case Part(field) => FieldName(field)
    case Week => "WEEK"
    case ToDate => "TO_DATE"
    case ToTimestamp => "TO_TIMESTAMP"
    case DaysBetween => "DAYS_BETWEEN"
    case TimeBetween(HourUnit) => "HOURS_BETWEEN"
    case TimeBetween(MinuteUnit) => "MINUTES_BETWEEN"
    case TimeBetween(SecondUnit) => "SECONDS_BETWEEN"
    case Undeclared(name) => name
  }

  /** The functions with an arm of their own, by name. CAST has its own node. */
  function ShapedFn(w: string): (r: Fn)
    ensures ExaName(r) == w && !r.Plain?
  {
    if w == "ADD" then Add
    else if w == "SUB" then Sub
    else if w == "MULT" then Mult
    else if w == "FLOAT_DIV" then FloatDiv
    else if w == "NEG" then NegFn
    else if w == "MOD" then Mod
    else if w == "CONCAT" then Concat
    else if w == "CASE" then CaseFn
    else if w == "GREATEST" then Greatest
    else if w == "LEAST" then Least
    else if w == "NULLIF" then NullIf
    else if w == "NULLIFZERO" then NullIfZero
    else if w == "ZEROIFNULL" then ZeroIfNull
    else if w == "INSTR" then Instr
    else if w == "LOCATE" then Locate
    else DateFn(w)
  }

  function DateFn(w: string): (r: Fn)
    ensures ExaName(r) == w && !r.Plain?
  {
    if w == "YEAR" then Part(YearField)
    else if w == "MONTH" then Part(MonthField)
    else if w == "DAY" then Part(DayField)
    else if w == "HOUR" then Part(HourField)
    else if w == "MINUTE" then Part(MinuteField)
    else if w == "SECOND" then Part(SecondField)
    else if w == "WEEK" then Week
    else if w == "TO_DATE" then ToDate
    else if w == "TO_TIMESTAMP" then ToTimestamp
    else if w == "DAYS_BETWEEN" then DaysBetween
    else if w == "HOURS_BETWEEN" then TimeBetween(HourUnit)
    else if w == "MINUTES_BETWEEN" then TimeBetween(MinuteUnit)
    else if w == "SECONDS_BETWEEN" then TimeBetween(SecondUnit)
    else Undeclared(w)
  }

  function NamedFn(w: string): (r: Fn)
    ensures ExaName(r) == w
    ensures r.Plain? ==> IsPlain(r.name)
  {
    if IsPlain(w) then Plain(w) else ShapedFn(w)
  }

  /** Reads a function's name in any letter case. */
  function ReadFn(name: string): (r: Fn)
    ensures ExaName(r) == Upper(name)
    ensures r.Plain? ==> IsPlain(r.name)
  {
    NamedFn(Upper(name))
  }
}

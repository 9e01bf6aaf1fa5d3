/**
 The recursive renderer: one expression node becomes SQL for DataFusion or for Exasol. `Ok(None)`
 stands for an absent child; an error makes the caller decline the pushdown.
 */
module Renderer {
  import opened Common
  import opened SqlText
  import opened SqlTree
  import opened ExasolTypes
  import opened TypeText
  import opened Wire
  import opened DateFormat
  import DecimalText

  const MICROS := "Timestamp(Microsecond, None)"
  const NANOS := "Timestamp(Nanosecond, None)"
  const UTC_MICROS := "Timestamp(Microsecond, Some(\"UTC\"))"
  const UTC_SUFFIX := "+00:00"
  const KEEP_NONZERO := "(\\.[0-9]*[1-9])0+$"
  const KEEP_GROUP := "\\1"
  const ZERO_FRACTION := "\\.0+$"

  // ----- literals

  /** `quote_literal` */
  function Quoted(v: Scalar): (e: Sql)
  {
    if v.NoValue? then SqlNull else SqlStr(ScalarText(v))
  }

  /** A numeral's text goes out as it is; a leading sign is an operator to whoever reads it. */
  function NumberSql(text: string): (e: Sql)
  {
    if text != "" && text[0] == '-' then Neg(SqlNum(text[1..])) else SqlNum(text)
  }

  /** The digits behind the first point of a timestamp's text. */
  function FractionDigits(s: string): (r: string)
  {
    if s == "" then "" else if s[0] == '.' then s[1..] else FractionDigits(s[1..])
  }

  /** `timestamp_literal_unit` */
  function TimestampType(v: Scalar): (r: string)
  {
    if v.Text? && |DecimalText.TrimZeros(FractionDigits(v.s))| > 6 then NANOS else MICROS
  }

  function ExasolTimestamp(v: Scalar): (e: Sql)
  {
    if v.NoValue? then SqlNull else Typed("TIMESTAMP", ScalarText(v))
  }

  function ExasolTstz(v: Scalar): (e: Sql)
  {
    if v.NoValue? then SqlNull
    else
      Cast(Call("CONVERT_TZ", [ExasolTimestamp(v), SqlStr("UTC"), Bare("SESSIONTIMEZONE")]),
           TypeTokens(TimestampWithLocalTimeZone(BARE_TIMESTAMP_PRECISION)))
  }

  function RenderLiteral(d: Dialect, n: Node): (r: Option<Sql>)
    requires IsLiteral(n)
  {
    match n
    case LitNull => Some(SqlNull)
    case LitBool(v) => Some(SqlBool(Truthy(v)))
    case LitString(v) => Some(Quoted(v))
    case LitExact(v) => Some(if v.NoValue? then SqlNull else NumberSql(ScalarText(v)))
    case LitDouble(v) =>
      Some(if v.NoValue? then SqlNull
           else if d.DataFusion? then Cast(Quoted(v), [Word("DOUBLE")])
           else NumberSql(ScalarText(v)))
    case LitDate(v) => Some(if v.NoValue? then DateNull else Typed("DATE", ScalarText(v)))
    case LitTimestamp(v) =>
      Some(if d.Exasol? then ExasolTimestamp(v) else Call("arrow_cast", [Quoted(v), SqlStr(TimestampType(v))]))
    case LitTimestampUtc(v) =>
      Some(if d.Exasol? then ExasolTstz(v)
           else if v.NoValue? then SqlNull
           else Call("arrow_cast", [SqlStr(ScalarText(v) + UTC_SUFFIX), SqlStr(UTC_MICROS)]))
    case LitTstz(v) => if d.Exasol? then Some(ExasolTstz(v)) else None
  }

  // ----- building blocks

  function CompareSymbol(op: CompareOp): (y: Symbol)
  {
    match op
    case Equal => EqSym
    case NotEqual => NeSym
    case Less => LtSym
    case LessEqual => LeSym
    case Greater => GtSym
    case GreaterEqual => GeSym
  }

  /** The trees whose text is empty */
  predicate IsBlank(e: Sql) { e == SqlNum("") || e == Bare("") }

  /** Operands joined by one operator, left to right. */
  function Chain(op: BinOp, parts: seq<Sql>): (e: Sql)
    requires parts != []
  {
    if |parts| == 1 then parts[0] else Bin(op, Chain(op, parts[..|parts| - 1]), parts[|parts| - 1])
  }

  /** `render_junction`, behind the rendering of its members */
  function JoinParts(isAnd: bool, parts: seq<Sql>): (e: Sql)
  {
    if parts == [] then SqlBool(isAnd)
    else if |parts| == 1 then parts[0]
    else Paren(Chain(if isAnd then AndOp else OrOp, parts))
  }

  function InSql(target: Sql, entries: seq<Sql>): (e: Sql)
  {
    if entries == [] then SqlBool(false) else Paren(In(target, entries))
  }

  /** `render_bool_to_string_case` */
  function BoolText(e: Sql): (r: Sql)
  {
    var arms := [Branch(SqlBool(true), SqlStr("TRUE")), Branch(SqlBool(false), SqlStr("FALSE"))];
    Paren(Case(Some(e), arms, Some(SqlNull)))
  }

  /** `format_decimal_exasol_style` */
  function DecimalSql(e: Sql): (r: Sql)
  {
    Call("regexp_replace",
         [Call("regexp_replace", [Cast(e, [Word("VARCHAR")]), SqlStr(KEEP_NONZERO), SqlStr(KEEP_GROUP)]),
          SqlStr(ZERO_FRACTION), SqlStr("")])
  }

  /** `datafusion_cast_target` */
  function DfType(t: ExasolType): (r: Result<seq<Tok>>)
  {
    match t
    case Char(_, _) => Ok([Word("VARCHAR")])
    case Varchar(_, _) => Ok([Word("VARCHAR")])
    case Decimal(_, _) => Ok(TypeTokens(t))
    case Boolean => Ok(TypeTokens(t))
    case Date => Ok(TypeTokens(t))
    case DoublePrecision => Ok([Word("DOUBLE")])
    case Timestamp(p) =>
      if p == 0 || p == 3 || p == 6 || p == 9 then Ok([Word("TIMESTAMP")] + Sized(p)) else Err
    case _ => Err
  }

  function CastSql(d: Dialect, operand: Node, e: Sql, ty: Option<ExasolType>): (r: Result<Sql>)
  {
    if ty.None? then Err
    else if d.Exasol? then Ok(Cast(e, TypeTokens(ty.value)))
    else
      match DfType(ty.value)
      case Err => Err
      case Ok(toks) => if ty.value.IsCharacter() && BooleanKind(operand) then Ok(BoolText(e)) else Ok(Cast(e, toks))
  }

  function Pairs(conds: seq<Sql>, results: seq<Sql>): (r: seq<Branch>)
    requires |conds| <= |results|
    ensures |r| == |conds|
    ensures forall i :: 0 <= i < |conds| ==> r[i] == Branch(conds[i], results[i])
  {
    seq(|conds|, i requires 0 <= i < |conds| => Branch(conds[i], results[i]))
  }

  function CaseSql(basis: Option<Sql>, conds: seq<Sql>, results: seq<Sql>): (e: Sql)
    requires |results| == |conds| || |results| == |conds| + 1
  {
    Case(basis, Pairs(conds, results), if |results| > |conds| then Some(results[|conds|]) else None)
  }

  /** The even- and odd-numbered arguments of the interleaved CASE encoding. */
  function Evens<T>(args: seq<T>): (r: seq<T>)
    ensures |r| == (|args| + 1) / 2
    ensures forall i :: 0 <= i < |r| ==> r[i] == args[2 * i]
  {
    seq((|args| + 1) / 2, i requires 0 <= i < (|args| + 1) / 2 => args[2 * i])
  }

  function Odds<T>(args: seq<T>): (r: seq<T>)
    ensures |r| == |args| / 2
    ensures forall i :: 0 <= i < |r| ==> r[i] == args[2 * i + 1]
  {
    seq(|args| / 2, i requires 0 <= i < |args| / 2 => args[2 * i + 1])
  }

  /** The WHEN conditions: with an ELSE the last even-numbered argument is that ELSE. */
  function Conditions<T>(args: seq<T>): (r: seq<T>)
  {
    Evens(args)[..|args| / 2]
  }

  function Outcomes<T>(args: seq<T>): (r: seq<T>)
  {
    Odds(args) + (if |args| % 2 == 1 then [args[|args| - 1]] else [])
  }

  /** `{a} IS NULL` of each argument. */
  function NullTests(args: seq<Sql>): (r: seq<Sql>)
    ensures |r| == |args| && forall i :: 0 <= i < |args| ==> r[i] == IsNull(args[i])
  {
    seq(|args|, i requires 0 <= i < |args| => IsNull(args[i]))
  }

  /** GREATEST and LEAST: any NULL argument makes the whole NULL. */
  function Guarded(name: string, args: seq<Sql>): (e: Sql)
    requires args != []
  {
    Case(None, [Branch(Chain(OrOp, NullTests(args)), SqlNull)], Some(Call(name, args)))
  }

  function ArithSymbol(f: Fn): (y: Symbol)
  {
    match f
    case Add => PlusSym
    case Sub => MinusSym
    case Mult => StarSym
    case FloatDiv => SlashSym
    case _ => PercentSym
  }

  /** A plain function's DataFusion name. */
  function DfName(w: string): (r: string)
  {
    if w == "LENGTH" then "character_length"
    else if w == "UNICODE" then "ascii"
    else if w == "UNICODECHR" then "chr"
    else if w == "SIGN" then "signum"
    else Lower(w)
  }

  /** Text put between quotes as it stands: a string literal, unless it holds a quote of its own. */
  function Unescaped(s: string): (e: Sql) { if '\'' in s then RawStr(s) else SqlStr(s) }

  function EpochGap(a: Sql, b: Sql): (e: Sql)
  {
    Paren(Bin(SymOp(MinusSym), Call("date_part", [SqlStr("epoch"), a]), Call("date_part", [SqlStr("epoch"), b])))
  }

  // ----- the renderer

  function Render(d: Dialect, n: Node): (r: Result<Option<Sql>>)
    decreases n, 2
  {
    match n
    case Absent => Ok(None)
    case Malformed => Err
    case Column(name, alias) =>
      if name.None? then Err
      else Ok(Some(Col(if alias == Some("") then None else alias, Upper(name.value))))
    case Compare(op, left, right) =>
      (match (Need(d, left), Need(d, right))
       case (Ok(l), Ok(x)) => Ok(Some(Paren(Bin(SymOp(CompareSymbol(op)), l, x))))
       case _ => Err)
    case Junction(isAnd, members) =>
      (match Present(d, members)
       case Err => Err
       case Ok(parts) => Ok(Some(JoinParts(isAnd, parts))))
    case NotNode(e) => Wrap(Need(d, e), (x: Sql) => Paren(Not(x)))
    case IsNullNode(e) => Wrap(Need(d, e), (x: Sql) => Paren(IsNull(x)))
    case IsNotNullNode(e) => Wrap(Need(d, e), (x: Sql) => Paren(IsNotNull(x)))
    case InList(e, entries) =>
      (match (Need(d, e), Entries(d, entries))
       case (Ok(x), Ok(list)) => Ok(Some(InSql(x, list)))
       case _ => Err)
    case BetweenNode(e, lo, hi) =>
      (match (Need(d, e), Need(d, lo), Need(d, hi))
       case (Ok(x), Ok(l), Ok(h)) => Ok(Some(Paren(Between(x, l, h))))
       case _ => Err)
    case LikeNode(e, pat, esc) =>
      (match (Need(d, e), Need(d, pat))
       case (Ok(x), Ok(p)) => Ok(Some(Paren(Like(x, p, if esc == Some("") then None else esc))))
       case _ => Err)
    case ExtractNode(field, args) =>
      if args == [] then Err
      else if d.Exasol? then Wrap(Need(d, args[0]), (x: Sql) => Extract(Upper(field), x))
      else Wrap(Need(d, args[0]), (x: Sql) => Call("date_part", [Unescaped(Upper(field)), x]))
    case CaseNode(basis, whens, results) =>
      if |results| != |whens| && |results| != |whens| + 1 then Err
      else
        (match (Basis(d, basis), NeedAll(d, whens), NeedAll(d, results))
         case (Ok(b), Ok(ws), Ok(rs)) => Ok(Some(Paren(CaseSql(b, ws, rs))))
         case _ => Err)
    case CastNode(args, ty) =>
      if args == [] then Err
      else
        (match Need(d, args[0])
         case Err => Err
         case Ok(e) =>
           match CastSql(d, args[0], e, ty)
           case Err => Err
           case Ok(c) => Ok(Some(c)))
    case DecimalNode(args) =>
      if |args| != 1 then Err else Wrap(Need(d, args[0]), (x: Sql) => DecimalSql(x))
    case Scalar(fn, args) =>
      if !Declared(fn) then Err
      else if d.DataFusion? && fn.Concat? then
        (match ConcatArgs(args)
         case Err => Err
         case Ok(es) => if es == [] then Err else Ok(Some(Call("nullif", [Call("concat", es), SqlStr("")]))))
      else if d.DataFusion? && fn == ToDate && |args| == 2 then RenderParse(DateTarget, args)
      else if d.DataFusion? && fn == ToTimestamp && |args| == 2 then RenderParse(TimestampTarget, args)
      else
        (match NeedAll(d, Taken(args, Used(d, fn, |args|)))
         case Err => Err
         case Ok(es) =>
           match Apply(d, fn, es)
           case Err => Err
           case Ok(e) => Ok(Some(e)))
    case _ => Ok(RenderLiteral(d, n))
  }

  /** How many leading arguments an arm looks at: a few ignore the surplus. */
  function Used(d: Dialect, fn: Fn, n: nat): (k: nat)
    ensures k <= n
  {
    if fn.Add? || fn.Sub? || fn.Mult? || fn.FloatDiv? then if n < 2 then n else 2
    else if fn.NegFn? then if n < 1 then n else 1
    else if d.DataFusion? && (fn.Instr? || fn.Locate?) then if n < 2 then n else 2
    else n
  }

  function Taken(args: seq<Node>, k: nat): (r: seq<Node>)
    requires k <= |args|
    ensures r == args[..k]
  {
    if k == |args| then args else args[..k]
  }

  /** A child that has to render: an absent one is an error. */
  function Need(d: Dialect, n: Node): (r: Result<Sql>)
    decreases n, 3
  {
    match Render(d, n)
    case Err => Err
    case Ok(None) => Err
    case Ok(Some(e)) => Ok(e)
  }

  function Wrap(r: Result<Sql>, f: Sql -> Sql): (w: Result<Option<Sql>>)
  {
    match r
    case Err => Err
    case Ok(e) => Ok(Some(f(e)))
  }

  function Basis(d: Dialect, n: Node): (r: Result<Option<Sql>>)
    decreases n, 4
  {
    if n.Absent? then Ok(None)
    else
      match Need(d, n)
      case Err => Err
      case Ok(e) => Ok(Some(e))
  }

  /** `render_args` */
  function NeedAll(d: Dialect, ns: seq<Node>): (r: Result<seq<Sql>>)
    ensures r.Ok? ==> |r.value| == |ns|
    decreases ns, 0
  {
    if ns == [] then Ok([])
    else
      match (Need(d, ns[0]), NeedAll(d, ns[1..]))
      case (Ok(e), Ok(es)) => Ok([e] + es)
      case _ => Err
  }

  /** A junction's members: one that renders to nothing, or to the empty text, is skipped. */
  function Present(d: Dialect, ns: seq<Node>): (r: Result<seq<Sql>>)
    decreases ns, 0
  {
    if ns == [] then Ok([])
    else
      match (Render(d, ns[0]), Present(d, ns[1..]))
      case (Ok(None), Ok(es)) => Ok(es)
      case (Ok(Some(e)), Ok(es)) => if IsBlank(e) then Ok(es) else Ok([e] + es)
      case _ => Err
  }

  /** An IN list's entries: NULL literals and entries that render to nothing are skipped. */
  function Entries(d: Dialect, ns: seq<Node>): (r: Result<seq<Sql>>)
    decreases ns, 0
  {
    if ns == [] then Ok([])
    else if IsNullLiteral(ns[0]) then Entries(d, ns[1..])
    else
      match (Render(d, ns[0]), Entries(d, ns[1..]))
      case (Ok(None), Ok(es)) => Ok(es)
      case (Ok(Some(e)), Ok(es)) => Ok([e] + es)
      case _ => Err
  }

  /** DataFusion's concatenation arguments: a boolean operand gets Exasol's TRUE/FALSE casing. */
  function ConcatArgs(ns: seq<Node>): (r: Result<seq<Sql>>)
    ensures r.Ok? ==> |r.value| == |ns|
    decreases ns, 0
  {
    if ns == [] then Ok([])
    else
      match (Need(DataFusion, ns[0]), ConcatArgs(ns[1..]))
      case (Ok(e), Ok(es)) => Ok([if BooleanKind(ns[0]) then BoolText(e) else e] + es)
      case _ => Err
  }

  /** `render_to_datetime` with a format: only a string literal the translation covers. */
  function RenderParse(target: FormatTarget, args: seq<Node>): (r: Result<Option<Sql>>)
    requires |args| == 2
    decreases args, 0
  {
    if !args[1].LitString? || !args[1].value.Text? then Err
    else
      match Translation(args[1].value.s, target)
      case None => Err
      case Some(pattern) =>
        Wrap(Need(DataFusion, args[0]), (x: Sql) =>
          Call(if target.DateTarget? then "to_date" else "to_timestamp",
               [Call("nullif", [x, SqlStr("")]), SqlStr(pattern)]))
  }

  /** A scalar function over its rendered arguments. */
  function Apply(d: Dialect, fn: Fn, es: seq<Sql>): (r: Result<Sql>)
  {
    match fn
    case Add => Arith(fn, es)
    case Sub => Arith(fn, es)
    case Mult => Arith(fn, es)
    case FloatDiv =>
      if d.Exasol? then Arith(fn, es)
      else if |es| < 2 then Err else Ok(Call("vs_checked_float_div", [es[0], es[1]]))
    case NegFn => if |es| < 1 then Err else Ok(Paren(Neg(es[0])))
    case Mod =>
      if |es| != 2 then Err
      else if d.Exasol? then Ok(Call("MOD", es))
      else Ok(Paren(Bin(SymOp(PercentSym), es[0], es[1])))
    case Concat => if es == [] then Err else Ok(Paren(Chain(SymOp(BarsSym), es)))
    case CaseFn => if |es| < 2 then Err else Ok(CaseSql(None, Conditions(es), Outcomes(es)))
    case Undeclared(_) => Err
    case _ => if d.Exasol? then Ok(Call(ExaName(fn), es)) else ApplyDf(fn, es)
  }

  function Arith(fn: Fn, es: seq<Sql>): (r: Result<Sql>)
  {
    if |es| < 2 then Err else Ok(Paren(Bin(SymOp(ArithSymbol(fn)), es[0], es[1])))
  }

  /** The DataFusion arm of a function that Exasol takes as a verbatim call. */
  function ApplyDf(fn: Fn, es: seq<Sql>): (r: Result<Sql>)
  {
    match fn
    case Plain(w) => if PlainArity(w, |es|) then Ok(Call(DfName(w), es)) else Err
    case Greatest => if es == [] then Err else Ok(Guarded("greatest", es))
    case Least => if es == [] then Err else Ok(Guarded("least", es))
    case NullIf => if |es| != 2 then Err else Ok(Call("nullif", es))
    case NullIfZero => if |es| != 1 then Err else Ok(Call("nullif", [es[0], SqlNum("0")]))
    case ZeroIfNull => if |es| != 1 then Err else Ok(Call("coalesce", [es[0], SqlNum("0")]))
    case Instr => if |es| < 2 then Err else Ok(Call("strpos", [es[0], es[1]]))
    case Locate => if |es| < 2 then Err else Ok(Call("strpos", [es[1], es[0]]))
    case Part(f) => if |es| != 1 then Err else Ok(Call("date_part", [SqlStr(FieldName(f)), es[0]]))
    case Week => if |es| != 1 then Err else Ok(Call("date_part", [SqlStr("week"), es[0]]))
    case ToDate => if |es| != 1 then Err else Ok(Call("to_date", es))
    case ToTimestamp => if |es| != 1 then Err else Ok(Call("to_timestamp", es))
    case DaysBetween =>
      if |es| != 2 then Err
      else Ok(Paren(Bin(SymOp(MinusSym), Cast(es[0], [Word("DATE")]), Cast(es[1], [Word("DATE")]))))
    case TimeBetween(unit) =>
      if |es| != 2 then Err
      else
        (match unit
         case HourUnit => Ok(Paren(Bin(SymOp(SlashSym), EpochGap(es[0], es[1]), SqlNum("3600"))))
         case MinuteUnit => Ok(Paren(Bin(SymOp(SlashSym), EpochGap(es[0], es[1]), SqlNum("60"))))
         case SecondUnit => Ok(EpochGap(es[0], es[1])))
    case _ => Err
  }
}

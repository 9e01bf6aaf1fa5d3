/** Scalar functions by the name a request gives them, in any letter case. */
module FunctionNames {
  import opened Common
  import opened SqlTree
  import opened ExasolTypes
  import opened Wire
  import opened Renderer
  import opened RenderReads
  import opened Recover
  import opened ExasolMeaning
  import opened SqlText
  import Names

  /** Two names are one function exactly if they differ in letter case at most. */
  lemma NamesMeetExactly(a: string, b: string)
    ensures ReadFn(a) == ReadFn(b) <==> Upper(a) == Upper(b)
  {
    hide ExaName, IsPlain, NamedFn;
  }

  /** `TRANSLATED_SCALAR_FNS`, row by row */
  predicate IsTranslated(w: string)
  {
    || w in ["ADD", "SUB", "MULT", "FLOAT_DIV", "NEG", "CAST", "MOD", "CONCAT"]
    || w in ["CASE", "ABS", "FLOOR", "CEIL", "SQRT", "EXP", "LN", "SIGN"]
    || w in ["DEGREES", "RADIANS", "SIN", "COS", "TAN", "ASIN", "ACOS", "ATAN"]
    || w in ["SINH", "COSH", "TANH", "COT", "ROUND", "TRUNC", "LOG", "POWER"]
    || w in ["ATAN2", "LOWER", "UPPER", "SUBSTR", "TRIM", "LTRIM", "RTRIM", "REPLACE"]
    || w in ["REPEAT", "REVERSE", "LPAD", "RPAD", "ASCII", "CHR", "INITCAP", "LEFT"]
    || w in ["RIGHT", "TRANSLATE", "LENGTH", "OCTET_LENGTH", "UNICODE", "UNICODECHR", "INSTR", "LOCATE"]
    || w in ["GREATEST", "LEAST", "NULLIF", "NULLIFZERO", "ZEROIFNULL", "YEAR", "MONTH", "DAY"]
    || w in ["HOUR", "MINUTE", "SECOND", "WEEK", "DATE_TRUNC", "TO_DATE", "TO_TIMESTAMP", "DAYS_BETWEEN"]
    || w in ["HOURS_BETWEEN", "MINUTES_BETWEEN", "SECONDS_BETWEEN"]
  }

  predicate InTable(name: string) { IsTranslated(Upper(name)) }

  /** The node of a call by name: CAST, with the type asked for, has its own. */
  function ReadCall(name: string, args: seq<Node>, ty: Option<ExasolType>): (n: Node)
  {
    if Upper(name) == "CAST" then CastNode(args, ty) else Wire.Scalar(ReadFn(name), args)
  }

  /** The arms and the table name the same functions. */
  lemma GateIsTheTable(name: string)
    ensures Upper(name) == "CAST" || Declared(ReadFn(name)) <==> InTable(name)
  {
    ArmsAreTranslated(Upper(name));
  }

  lemma ArmsAreTranslated(w: string)
    ensures w == "CAST" || IsPlain(w) || !ShapedFn(w).Undeclared? <==> IsTranslated(w)
  {
  }

  /** A name outside the table is refused, in both dialects and whatever the arguments are. */
  lemma UnknownNamesAreRefused(d: Dialect, name: string, args: seq<Node>, ty: Option<ExasolType>)
    requires !InTable(name)
    ensures Render(d, ReadCall(name, args, ty)) == Err
  {
    hide ExaName, IsPlain, ReadFn, Apply, Declared;
    GateIsTheTable(name);
  }

  /** The functions Exasol is called with by name */
  predicate IsVerbatim(fn: Fn)
  {
    Declared(fn) &&
    !(fn.Add? || fn.Sub? || fn.Mult? || fn.FloatDiv? || fn.NegFn? || fn.Mod? || fn.Concat? || fn.CaseFn?)
  }

  /** A verbatim call goes out under its name in upper case, with all its arguments in order. */
  lemma VerbatimCallKeepsName(name: string, args: seq<Node>)
    requires IsVerbatim(ReadFn(name))
    ensures Render(Exasol, Wire.Scalar(ReadFn(name), args)) ==
      if NeedAll(Exasol, args).Err? then Err else Ok(Some(Call(Upper(name), NeedAll(Exasol, args).value)))
  {
    hide ExaName, IsPlain, ReadFn, Need, NeedAll, ApplyDf;
  }

  /** Two verbatim calls with one text have one name, letter case aside, and arguments of one normal form. */
  lemma SameTextSameCall(a: string, args: seq<Node>, b: string, brgs: seq<Node>)
    requires IsVerbatim(ReadFn(a)) && IsVerbatim(ReadFn(b))
    requires var n := Wire.Scalar(ReadFn(a), args); Clean(Exasol, n) && Render(Exasol, n).Ok?
    requires var m := Wire.Scalar(ReadFn(b), brgs); Clean(Exasol, m) && Render(Exasol, m).Ok?
    requires NeedAll(Exasol, args).Ok? && NeedAll(Exasol, brgs).Ok?
    requires Show(Call(Upper(a), NeedAll(Exasol, args).value)) == Show(Call(Upper(b), NeedAll(Exasol, brgs).value))
    ensures ReadFn(a) == ReadFn(b) && NormAll(args) == NormAll(brgs)
  {
    hide ExaName, IsPlain, ReadFn, Need, NeedAll, Render, Clean, Show, Norm;
    VerbatimCallKeepsName(a, args);
    VerbatimCallKeepsName(b, brgs);
    SameTextSameNode(Wire.Scalar(ReadFn(a), args), Wire.Scalar(ReadFn(b), brgs));
    VerbatimNorm(ReadFn(a), args);
    VerbatimNorm(ReadFn(b), brgs);
    NamesMeetExactly(a, b);
  }

  lemma VerbatimNorm(fn: Fn, args: seq<Node>)
    requires IsVerbatim(fn)
    ensures Norm(Wire.Scalar(fn, args)) == Wire.Scalar(fn, NormAll(args))
  {
    hide ExaName, IsPlain;
  }

  // ----- what each name means

  /** What a request means by a function of two arguments, name by name */
  lemma OperatorsMean(I: Interp, a: Val, b: Val)
    ensures FnMeaning(I, NamedFn("ADD"), [a, b]) == Computed(I, PlusSym, a, b)
    ensures FnMeaning(I, NamedFn("SUB"), [a, b]) == Computed(I, MinusSym, a, b)
    ensures FnMeaning(I, NamedFn("MULT"), [a, b]) == Computed(I, StarSym, a, b)
    ensures FnMeaning(I, NamedFn("FLOAT_DIV"), [a, b]) == Computed(I, SlashSym, a, b)
    ensures FnMeaning(I, NamedFn("MOD"), [a, b]) == Computed(I, PercentSym, a, b)
    ensures FnMeaning(I, NamedFn("NEG"), [a]) == Negated(I, a)
    ensures FnMeaning(I, NamedFn("CASE"), [a, b]) == if a == B(true) then b else Null
    ensures FnMeaning(I, NamedFn("CONCAT"), [a, b]) == Concatenated(I, [a, b])
  {
    hide NamedFn, Computed, Negated, Concatenated;
    forall fn | fn in {Add, Sub, Mult, FloatDiv, Mod, NegFn, CaseFn, Concat} ensures NamedFn(ExaName(fn)) == fn {
      Names.OperatorsBack(fn);
    }
    OperatorTexts();
    assert [a, b][2..] == [] && Chosen([]) == Null;
    assert Chosen([a, b]) == if a == B(true) then b else Null;
  }

  lemma OperatorTexts()
    ensures ExaName(Add) == "ADD" && ExaName(Sub) == "SUB" && ExaName(Mult) == "MULT"
    ensures ExaName(FloatDiv) == "FLOAT_DIV" && ExaName(Mod) == "MOD" && ExaName(NegFn) == "NEG"
    ensures ExaName(CaseFn) == "CASE" && ExaName(Concat) == "CONCAT"
  {
  }

  lemma ChoicesMean(I: Interp, a: Val, b: Val)
    ensures FnMeaning(I, NamedFn("GREATEST"), [a, b]) == Extreme(I, "GREATEST", [a, b])
    ensures FnMeaning(I, NamedFn("LEAST"), [a, b]) == Extreme(I, "LEAST", [a, b])
    ensures FnMeaning(I, NamedFn("NULLIF"), [a, b]) == NullIfSame(I, a, b)
    ensures FnMeaning(I, NamedFn("NULLIFZERO"), [a]) == NullIfSame(I, a, N(0.0))
    ensures FnMeaning(I, NamedFn("ZEROIFNULL"), [a]) == if a.Null? then N(0.0) else a
    ensures FnMeaning(I, NamedFn("INSTR"), [a, b]) == I.call("INSTR", [a, b])
    ensures FnMeaning(I, NamedFn("LOCATE"), [a, b]) == I.call("INSTR", [b, a])
  {
    hide NamedFn, Extreme, NullIfSame;
    forall fn | fn in {Greatest, Least, NullIf, NullIfZero, ZeroIfNull, Instr, Locate}
      ensures NamedFn(ExaName(fn)) == fn
    {
      Names.ChoicesBack(fn);
    }
    ChoiceTexts();
    assert [b, a] + [a, b][2..] == [b, a];
  }

  lemma ChoiceTexts()
    ensures ExaName(Greatest) == "GREATEST" && ExaName(Least) == "LEAST" && ExaName(NullIf) == "NULLIF"
    ensures ExaName(NullIfZero) == "NULLIFZERO" && ExaName(ZeroIfNull) == "ZEROIFNULL"
    ensures ExaName(Instr) == "INSTR" && ExaName(Locate) == "LOCATE"
  {
  }

  lemma FieldsMean(I: Interp, w: string, a: Val)
    requires w in ["YEAR", "MONTH", "DAY", "HOUR", "MINUTE", "SECOND", "WEEK"]
    ensures FnMeaning(I, NamedFn(w), [a]) == I.part(w, a)
  {
    hide IsPlain, ShapedFn;
    Names.FieldNames(w);
    Names.FieldShapes(w);
  }

  lemma SpansMean(I: Interp, a: Val, b: Val)
    ensures FnMeaning(I, NamedFn("TO_DATE"), [a]) == I.call("TO_DATE", [a])
    ensures FnMeaning(I, NamedFn("TO_TIMESTAMP"), [a]) == I.call("TO_TIMESTAMP", [a])
    ensures FnMeaning(I, NamedFn("DAYS_BETWEEN"), [a, b])
         == Computed(I, MinusSym, ExaCast(I, a, Date), ExaCast(I, b, Date))
    ensures FnMeaning(I, NamedFn("SECONDS_BETWEEN"), [a, b]) == Gap(I, a, b)
    ensures FnMeaning(I, NamedFn("MINUTES_BETWEEN"), [a, b]) == Computed(I, SlashSym, Gap(I, a, b), N(60.0))
    ensures FnMeaning(I, NamedFn("HOURS_BETWEEN"), [a, b]) == Computed(I, SlashSym, Gap(I, a, b), N(3600.0))
  {
    hide NamedFn, Computed, Gap, ExaCast;
    forall fn: Fn | fn.ToDate? || fn.ToTimestamp? || fn.DaysBetween? || fn.TimeBetween?
      ensures NamedFn(ExaName(fn)) == fn
    {
      Names.SpansBack(fn);
    }
    SpanTexts();
  }

  lemma SpanTexts()
    ensures ExaName(ToDate) == "TO_DATE" && ExaName(ToTimestamp) == "TO_TIMESTAMP"
    ensures ExaName(DaysBetween) == "DAYS_BETWEEN" && ExaName(TimeBetween(SecondUnit)) == "SECONDS_BETWEEN"
    ensures ExaName(TimeBetween(MinuteUnit)) == "MINUTES_BETWEEN" && ExaName(TimeBetween(HourUnit)) == "HOURS_BETWEEN"
  {
  }
}

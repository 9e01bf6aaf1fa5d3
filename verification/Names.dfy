/** Every function name the renderer writes is a word of its own, never a reserved one. */
module Names {
  import opened Common
  import opened SqlText
  import opened Wire
  import opened Renderer

  lemma KeywordsAreUpper(w: string)
    ensures KeywordOf(w).Some? ==> w != "" && IsUpper(w[0])
  {
  }

  lemma LowerName(w: string)
    requires IsWord(w) && IsLower(w[0])
    ensures IsName(w)
  {
    KeywordsAreUpper(w);
  }

  predicate NoLower(w: string) { forall i :: 0 <= i < |w| ==> !IsLower(w[i]) }

  lemma FirstAlgebraName(w: string)
    requires w in ["ABS", "FLOOR", "CEIL"]
    ensures IsName(w) && IsUpper(w[0]) && NoLower(w)
  {
  }

  lemma SecondAlgebraName(w: string)
    requires w in ["SQRT", "EXP", "LN", "SIGN"]
    ensures IsName(w) && IsUpper(w[0]) && NoLower(w)
  {
  }

  lemma AlgebraName(w: string)
    requires IsAlgebra(w)
    ensures IsName(w) && IsUpper(w[0]) && NoLower(w)
  {
    hide IsName, NoLower;
    if w in ["ABS", "FLOOR", "CEIL"] {
      FirstAlgebraName(w);
    } else {
      SecondAlgebraName(w);
    }
  }

  lemma FirstAngleName(w: string)
    requires w in ["DEGREES", "RADIANS", "SIN"]
    ensures IsName(w) && IsUpper(w[0]) && NoLower(w)
  {
  }

  lemma SecondAngleName(w: string)
    requires w in ["COS", "TAN", "ASIN"]
    ensures IsName(w) && IsUpper(w[0]) && NoLower(w)
  {
  }

  lemma AngleName(w: string)
    requires IsAngle(w)
    ensures IsName(w) && IsUpper(w[0]) && NoLower(w)
  {
    hide IsName, NoLower;
    if w in ["DEGREES", "RADIANS", "SIN"] {
      FirstAngleName(w);
    } else {
      SecondAngleName(w);
    }
  }

  lemma FirstArcName(w: string)
    requires w in ["ACOS", "ATAN", "SINH"]
    ensures IsName(w) && IsUpper(w[0]) && NoLower(w)
  {
  }

  lemma SecondArcName(w: string)
    requires w in ["COSH", "TANH", "COT"]
    ensures IsName(w) && IsUpper(w[0]) && NoLower(w)
  {
  }

  lemma ArcName(w: string)
    requires IsArc(w)
    ensures IsName(w) && IsUpper(w[0]) && NoLower(w)
  {
    hide IsName, NoLower;
    if w in ["ACOS", "ATAN", "SINH"] {
      FirstArcName(w);
    } else {
      SecondArcName(w);
    }
  }

  lemma RoundingName(w: string)
    requires IsRounding(w) || IsPair(w)
    ensures IsName(w) && IsUpper(w[0]) && NoLower(w)
  {
  }

  lemma FirstTrimmingName(w: string)
    requires w in ["LOWER", "UPPER", "SUBSTR"]
    ensures IsName(w) && IsUpper(w[0]) && NoLower(w)
  {
  }

  lemma SecondTrimmingName(w: string)
    requires w in ["TRIM", "LTRIM", "RTRIM", "REPLACE"]
    ensures IsName(w) && IsUpper(w[0]) && NoLower(w)
  {
  }

  lemma TrimmingName(w: string)
    requires IsTrimming(w)
    ensures IsName(w) && IsUpper(w[0]) && NoLower(w)
  {
    hide IsName, NoLower;
    if w in ["LOWER", "UPPER", "SUBSTR"] {
      FirstTrimmingName(w);
    } else {
      SecondTrimmingName(w);
    }
  }

  lemma FirstPaddingName(w: string)
    requires w in ["REPEAT", "REVERSE", "LPAD"]
    ensures IsName(w) && IsUpper(w[0]) && NoLower(w)
  {
  }

  lemma SecondPaddingName(w: string)
    requires w in ["RPAD", "ASCII", "CHR", "INITCAP"]
    ensures IsName(w) && IsUpper(w[0]) && NoLower(w)
  {
  }

  lemma PaddingName(w: string)
    requires IsPadding(w)
    ensures IsName(w) && IsUpper(w[0]) && NoLower(w)
  {
    hide IsName, NoLower;
    if w in ["REPEAT", "REVERSE", "LPAD"] {
      FirstPaddingName(w);
    } else {
      SecondPaddingName(w);
    }
  }

  lemma MeasureName(w: string)
    requires IsMeasure(w)
    ensures IsName(w) && IsUpper(w[0]) && NoLower(w)
  {
  }

  lemma CodingName(w: string)
    requires IsCoding(w)
    ensures IsName(w) && IsUpper(w[0]) && NoLower(w)
  {
  }

  lemma PlainName(w: string)
    requires IsPlain(w)
    ensures IsName(w) && IsUpper(w[0]) && NoLower(w)
  {
    if IsAlgebra(w) { AlgebraName(w); }
    else if IsAngle(w) { AngleName(w); }
    else if IsArc(w) { ArcName(w); }
    else if IsRounding(w) || IsPair(w) { RoundingName(w); }
    else if IsTrimming(w) { TrimmingName(w); }
    else if IsPadding(w) { PaddingName(w); }
    else if IsMeasure(w) { MeasureName(w); }
    else { CodingName(w); }
  }

  lemma ShapedName(f: Fn)
    requires f.Greatest? || f.Least? || f.NullIf? || f.NullIfZero? || f.ZeroIfNull? || f.Instr? || f.Locate?
    ensures IsName(ExaName(f))
  {
  }

  lemma CalendarName(f: Fn)
    requires f.Part? || f.Week?
    ensures IsName(ExaName(f))
  {
  }

  lemma ConversionName(f: Fn)
    requires f.ToDate? || f.ToTimestamp? || f.DaysBetween?
    ensures IsName(ExaName(f))
  {
  }

  lemma TimeBetweenName(f: Fn)
    requires f.TimeBetween?
    ensures IsName(ExaName(f))
  {
  }

  predicate IsDfCast(w: string) { w in ["arrow_cast", "regexp_replace", "vs_checked_float_div"] }

  predicate IsDfNull(w: string) { w in ["nullif", "concat", "greatest", "least", "coalesce"] }

  predicate IsDfDate(w: string) { w in ["strpos", "date_part", "to_date", "to_timestamp"] }

  predicate IsDfText(w: string) { w in ["character_length", "ascii", "chr", "signum"] }

  lemma DfCastWord(w: string)
    requires IsDfCast(w)
    ensures IsWord(w) && IsLower(w[0])
  {
  }

  lemma DfNullWord(w: string)
    requires IsDfNull(w)
    ensures IsWord(w) && IsLower(w[0])
  {
  }

  lemma DfDateWord(w: string)
    requires IsDfDate(w)
    ensures IsWord(w) && IsLower(w[0])
  {
  }

  lemma DfTextWord(w: string)
    requires IsDfText(w)
    ensures IsWord(w) && IsLower(w[0])
  {
  }

  lemma DfWord(w: string)
    requires IsDfCast(w) || IsDfNull(w) || IsDfDate(w) || IsDfText(w)
    ensures IsName(w)
  {
    if IsDfCast(w) { DfCastWord(w); }
    else if IsDfNull(w) { DfNullWord(w); }
    else if IsDfDate(w) { DfDateWord(w); }
    else { DfTextWord(w); }
    LowerName(w);
  }

  lemma DfPlainName(w: string)
    requires IsPlain(w)
    ensures IsName(DfName(w))
  {
    PlainName(w);
    if w == "LENGTH" { DfWord("character_length"); }
    else if w == "UNICODE" { DfWord("ascii"); }
    else if w == "UNICODECHR" { DfWord("chr"); }
    else if w == "SIGN" { DfWord("signum"); }
    else { LowerName(Lower(w)); }
  }

  lemma ExaWords()
    ensures IsName("MOD") && IsName("CONVERT_TZ") && IsName("SESSIONTIMEZONE")
  {
  }

  // ----- a name and its function

  lemma OperatorNames(w: string)
    requires w in ["ADD", "SUB", "MULT", "FLOAT_DIV", "NEG", "MOD", "CONCAT", "CASE"]
    ensures !IsPlain(w)
  {
  }

  lemma ChoiceNames(w: string)
    requires w in ["GREATEST", "LEAST", "NULLIF", "NULLIFZERO", "ZEROIFNULL", "INSTR", "LOCATE"]
    ensures !IsPlain(w)
  {
  }

  lemma FieldNames(w: string)
    requires w in ["YEAR", "MONTH", "DAY", "HOUR", "MINUTE", "SECOND", "WEEK"]
    ensures !IsPlain(w)
  {
  }

  lemma FieldShapes(w: string)
    requires w in ["YEAR", "MONTH", "DAY", "HOUR", "MINUTE", "SECOND", "WEEK"]
    ensures ShapedFn(w) == DateFn(w)
  {
    hide DateFn;
  }

  lemma SpanNames(w: string)
    requires w in ["TO_DATE", "TO_TIMESTAMP", "DAYS_BETWEEN", "HOURS_BETWEEN", "MINUTES_BETWEEN", "SECONDS_BETWEEN"]
    ensures !IsPlain(w)
  {
  }

  lemma SpanShapes(w: string)
    requires w in ["TO_DATE", "TO_TIMESTAMP", "DAYS_BETWEEN", "HOURS_BETWEEN", "MINUTES_BETWEEN", "SECONDS_BETWEEN"]
    ensures ShapedFn(w) == DateFn(w)
  {
    hide DateFn;
  }

  lemma OperatorsBack(fn: Fn)
    requires fn.Add? || fn.Sub? || fn.Mult? || fn.FloatDiv? || fn.NegFn? || fn.Mod? || fn.Concat? || fn.CaseFn?
    ensures NamedFn(ExaName(fn)) == fn
  {
    hide IsPlain;
    OperatorNames(ExaName(fn));
  }

  lemma ChoicesBack(fn: Fn)
    requires fn.Greatest? || fn.Least? || fn.NullIf? || fn.NullIfZero? || fn.ZeroIfNull? || fn.Instr? || fn.Locate?
    ensures NamedFn(ExaName(fn)) == fn
  {
    hide IsPlain;
    ChoiceNames(ExaName(fn));
  }

  lemma FieldsBack(fn: Fn)
    requires fn.Part? || fn.Week?
    ensures NamedFn(ExaName(fn)) == fn
  {
    hide IsPlain, ShapedFn;
    FieldNames(ExaName(fn));
    FieldShapes(ExaName(fn));
  }

  lemma SpansBack(fn: Fn)
    requires fn.ToDate? || fn.ToTimestamp? || fn.DaysBetween? || fn.TimeBetween?
    ensures NamedFn(ExaName(fn)) == fn
  {
    hide IsPlain, ShapedFn;
    SpanNames(ExaName(fn));
    SpanShapes(ExaName(fn));
  }

  /** A function's name is read as that function. */
  lemma NamedBack(fn: Fn)
    requires Declared(fn)
    ensures NamedFn(ExaName(fn)) == fn
  {
    hide IsPlain, NamedFn, ExaName;
    if fn.Plain? {
      PlainBack(fn.name);
    } else if fn.Part? || fn.Week? {
      FieldsBack(fn);
    } else if fn.ToDate? || fn.ToTimestamp? || fn.DaysBetween? || fn.TimeBetween? {
      SpansBack(fn);
    } else if fn.Greatest? || fn.Least? || fn.NullIf? || fn.NullIfZero? || fn.ZeroIfNull? || fn.Instr? || fn.Locate? {
      ChoicesBack(fn);
    } else {
      OperatorsBack(fn);
    }
  }

  lemma PlainBack(w: string)
    requires IsPlain(w)
    ensures ExaName(Plain(w)) == w && NamedFn(w) == Plain(w)
  {
  }
}

/** DataFusion's reading of every function name the renderer writes. */
module DfCalls {
  import opened Common
  import opened SqlText
  import opened Wire
  import opened DateFormat
  import opened Renderer
  import opened Names
  import opened ExasolMeaning
  import opened Evaluate

  lemma UpperOfLower(w: string)
    requires NoLower(w)
    ensures Upper(Lower(w)) == w
  {
  }

  lemma UnusualNames(w: string)
    requires IsPlain(w)
    ensures w != "SIGNUM" && w != "CHARACTER_LENGTH"
  {
  }

  lemma SharedNames()
    ensures IsPlain("ASCII") && IsPlain("CHR") && IsPlain("LENGTH") && IsPlain("SIGN")
  {
  }

  predicate IsRenamed(w: string) { w == "LENGTH" || w == "SIGN" || w == "UNICODE" || w == "UNICODECHR" }

  lemma UpperSpecials()
    ensures Upper("signum") == "SIGNUM" && Upper("character_length") == "CHARACTER_LENGTH"
    ensures Upper("sign") == "SIGN" && Upper("unicode") == "UNICODE" && Upper("unicodechr") == "UNICODECHR"
  {
  }

  lemma LowerDenotes(w: string)
    requires IsPlain(w) && NoLower(w) && !IsRenamed(w)
    ensures DfDenoted(Lower(w)) == w
  {
    hide IsPlain, Upper, Lower;
    UpperOfLower(w);
    UnusualNames(w);
    UpperSpecials();
  }

  lemma RenamedDenotes(w: string)
    requires IsRenamed(w)
    ensures DfDenoted(DfName(w)) == Denoted(w)
    ensures Denoted(w) in ["ASCII", "CHR", "LENGTH", "SIGN"]
  {
    assert Upper("ascii") == "ASCII" && Upper("chr") == "CHR";
  }

  lemma NotRenamed(w: string)
    requires !IsRenamed(w)
    ensures DfName(w) == Lower(w) && Denoted(w) == w
  {
  }

  /** A plain function's DataFusion name stands for the operation Exasol's name stands for. */
  lemma DfNameDenotes(w: string)
    requires IsPlain(w)
    ensures DfDenoted(DfName(w)) == Denoted(w) && IsPlain(Denoted(w))
  {
    if IsRenamed(w) {
      RenamedDenotes(w);
      SharedNames();
    } else {
      NotRenamed(w);
      PlainName(w);
      LowerDenotes(w);
    }
  }

  lemma CallPlain(I: Interp, w: string, vs: seq<Val>)
    requires IsPlain(w)
    ensures EvalCall(I, DfName(w), vs) == I.call(Denoted(w), vs)
  {
    DfNameDenotes(w);
  }

  // ----- the calls with an arm of their own

  lemma TextCalls(name: string)
    requires name in ["nullif", "concat"]
    ensures !IsPlain(DfDenoted(name))
  {
    assert Upper("nullif") == "NULLIF";
    assert Upper("concat") == "CONCAT";
  }

  lemma SearchCalls(name: string)
    requires name in ["coalesce", "strpos"]
    ensures !IsPlain(DfDenoted(name))
  {
    assert Upper("coalesce") == "COALESCE";
    assert Upper("strpos") == "STRPOS";
  }

  lemma ExtremeCalls(name: string)
    requires name in ["greatest", "least"]
    ensures !IsPlain(DfDenoted(name))
  {
    assert Upper("greatest") == "GREATEST";
    assert Upper("least") == "LEAST";
  }

  lemma CastCalls(name: string)
    requires name in ["date_part", "arrow_cast"]
    ensures !IsPlain(DfDenoted(name))
  {
    assert Upper("date_part") == "DATE_PART";
    assert Upper("arrow_cast") == "ARROW_CAST";
  }

  lemma PatternCalls(name: string)
    requires name in ["vs_checked_float_div", "regexp_replace"]
    ensures !IsPlain(DfDenoted(name))
  {
    assert Upper("vs_checked_float_div")[0] == 'V';
    assert Upper("regexp_replace") == "REGEXP_REPLACE";
  }

  lemma DateCalls(name: string)
    requires name in ["to_date", "to_timestamp"]
    ensures !IsPlain(DfDenoted(name))
  {
    assert Upper("to_date") == "TO_DATE";
    assert Upper("to_timestamp") == "TO_TIMESTAMP";
  }

  lemma CallNullif(I: Interp, a: Val, b: Val)
    ensures EvalCall(I, "nullif", [a, b]) == NullIfSame(I, a, b)
  {
    hide IsPlain, DfDenoted, ArrowCast, RegexpReplace, ParseByPattern, SkippingExtreme, DfTexts, NullIfSame;
    TextCalls("nullif");
  }

  lemma CallConcat(I: Interp, vs: seq<Val>)
    ensures EvalCall(I, "concat", vs) == T(DfTexts(I, vs))
  {
    hide IsPlain, DfDenoted, ArrowCast, RegexpReplace, ParseByPattern, SkippingExtreme, DfTexts, NullIfSame;
    TextCalls("concat");
  }

  lemma CallGreatest(I: Interp, vs: seq<Val>)
    ensures EvalCall(I, "greatest", vs) == SkippingExtreme(I, "GREATEST", vs)
  {
    hide IsPlain, DfDenoted, ArrowCast, RegexpReplace, ParseByPattern, SkippingExtreme, DfTexts, NullIfSame;
    ExtremeCalls("greatest");
  }

  lemma CallLeast(I: Interp, vs: seq<Val>)
    ensures EvalCall(I, "least", vs) == SkippingExtreme(I, "LEAST", vs)
  {
    hide IsPlain, DfDenoted, ArrowCast, RegexpReplace, ParseByPattern, SkippingExtreme, DfTexts, NullIfSame;
    ExtremeCalls("least");
  }

  lemma CallCoalesce(I: Interp, a: Val, b: Val)
    ensures EvalCall(I, "coalesce", [a, b]) == if a.Null? then b else a
  {
    hide IsPlain, DfDenoted, ArrowCast, RegexpReplace, ParseByPattern, SkippingExtreme, DfTexts, NullIfSame;
    SearchCalls("coalesce");
  }

  lemma CallStrpos(I: Interp, a: Val, b: Val)
    ensures EvalCall(I, "strpos", [a, b]) == I.call("INSTR", [a, b])
  {
    hide IsPlain, DfDenoted, ArrowCast, RegexpReplace, ParseByPattern, SkippingExtreme, DfTexts, NullIfSame;
    SearchCalls("strpos");
  }

  lemma CallDivide(I: Interp, a: Val, b: Val)
    ensures EvalCall(I, "vs_checked_float_div", [a, b]) == Computed(I, SlashSym, a, b)
  {
    hide IsPlain, DfDenoted, ArrowCast, RegexpReplace, ParseByPattern, SkippingExtreme, DfTexts, NullIfSame;
    PatternCalls("vs_checked_float_div");
  }

  lemma CallDatePart(I: Interp, f: string, v: Val)
    ensures EvalCall(I, "date_part", [T(f), v]) == I.part(Upper(f), v)
  {
    hide IsPlain, DfDenoted, ArrowCast, RegexpReplace, ParseByPattern, SkippingExtreme, DfTexts, NullIfSame;
    CastCalls("date_part");
  }

  lemma CallArrowCast(I: Interp, v: Val, t: Val)
    ensures EvalCall(I, "arrow_cast", [v, t]) == ArrowCast(I, v, t)
  {
    hide IsPlain, DfDenoted, ArrowCast, RegexpReplace, ParseByPattern, SkippingExtreme, DfTexts, NullIfSame;
    CastCalls("arrow_cast");
  }

  lemma CallRegexp(I: Interp, v: Val, p: Val, w: Val)
    ensures EvalCall(I, "regexp_replace", [v, p, w]) == RegexpReplace(I, v, p, w)
  {
    hide IsPlain, DfDenoted, ArrowCast, RegexpReplace, ParseByPattern, SkippingExtreme, DfTexts, NullIfSame;
    PatternCalls("regexp_replace");
  }

  lemma CallToDate(I: Interp, v: Val)
    ensures EvalCall(I, "to_date", [v]) == I.call("TO_DATE", [v])
  {
    hide IsPlain, DfDenoted, ArrowCast, RegexpReplace, ParseByPattern, SkippingExtreme, DfTexts, NullIfSame;
    DateCalls("to_date");
  }

  lemma CallToTimestamp(I: Interp, v: Val)
    ensures EvalCall(I, "to_timestamp", [v]) == I.call("TO_TIMESTAMP", [v])
  {
    hide IsPlain, DfDenoted, ArrowCast, RegexpReplace, ParseByPattern, SkippingExtreme, DfTexts, NullIfSame;
    DateCalls("to_timestamp");
  }

  lemma CallDateParse(I: Interp, v: Val, p: Val)
    ensures EvalCall(I, "to_date", [v, p]) == ParseByPattern(I, DateTarget, v, p)
  {
    hide IsPlain, DfDenoted, ArrowCast, RegexpReplace, ParseByPattern, SkippingExtreme, DfTexts, NullIfSame;
    DateCalls("to_date");
  }

  lemma CallTimestampParse(I: Interp, v: Val, p: Val)
    ensures EvalCall(I, "to_timestamp", [v, p]) == ParseByPattern(I, TimestampTarget, v, p)
  {
    hide IsPlain, DfDenoted, ArrowCast, RegexpReplace, ParseByPattern, SkippingExtreme, DfTexts, NullIfSame;
    DateCalls("to_timestamp");
  }
}

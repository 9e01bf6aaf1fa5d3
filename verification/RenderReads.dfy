/**
 The rendered text reads back as the tree that was written, in both dialects, exactly when the
 node writes no null date literal, no CASE without a WHEN, no NEG over text that itself starts
 with a minus sign, and nothing but a numeral or a name where text is spliced as it stands.
 */
module RenderReads {
  import opened Common
  import opened SqlText
  import opened SqlTree
  import opened SqlRead
  import opened SqlRange
  import opened ExasolTypes
  import opened TypeText
  import opened Wire
  import opened DateFormat
  import opened Renderer
  import opened Names

  /** A numeral, signed or not. */
  predicate IsSigned(s: string)
  {
    IsNumeral(s) || (s != "" && s[0] == '-' && IsNumeral(s[1..]))
  }

  /** The node's text is a number's, and empty. */
  predicate EmptyNumber(d: Dialect, n: Node)
  {
    (n.LitExact? || (n.LitDouble? && d.Exasol?)) && !n.value.NoValue? && ScalarText(n.value) == ""
  }

  /** The node is written at all: DataFusion's dialect skips one kind of literal. */
  predicate Shows(d: Dialect, n: Node) { !n.Absent? && !(d.DataFusion? && n.LitTstz?) }

  /** The members of a junction that are written */
  function Joined(d: Dialect, ms: seq<Node>): (r: seq<Node>)
    ensures forall m | m in r :: m in ms
  {
    if ms == [] then []
    else if Shows(d, ms[0]) && !EmptyNumber(d, ms[0]) then [ms[0]] + Joined(d, ms[1..])
    else Joined(d, ms[1..])
  }

  predicate MinusText(v: Wire.Scalar) { !v.NoValue? && ScalarText(v) != "" && ScalarText(v)[0] == '-' }

  /** The node's text starts with a minus sign: a negative numeral, or a junction of nothing else. */
  predicate StartsWithMinus(d: Dialect, n: Node)
    decreases n
  {
    match n
    case LitExact(v) => MinusText(v)
    case LitDouble(v) => d.Exasol? && MinusText(v)
    case Junction(_, ms) =>
      var js := Joined(d, ms);
      |js| == 1 && (assert js[0] in js; StartsWithMinus(d, js[0]))
    case _ => false
  }

  /**
   Nothing that is written out is a null date, a CASE without a WHEN, a doubled minus, or raw text
   in the place of a numeral or of a field's name, or with a quote of its own between quotes.
   */
  predicate Clean(d: Dialect, n: Node)
    decreases n
  {
    match n
    case LitExact(v) => v.NoValue? || IsSigned(ScalarText(v))
    case LitDouble(v) => v.NoValue? || d.DataFusion? || IsSigned(ScalarText(v))
    case LitDate(v) => !v.NoValue?
    case Compare(_, l, r) => Clean(d, l) && Clean(d, r)
    case Junction(_, ms) => forall m | m in ms :: EmptyNumber(d, m) || Clean(d, m)
    case NotNode(e) => Clean(d, e)
    case IsNullNode(e) => Clean(d, e)
    case IsNotNullNode(e) => Clean(d, e)
    case InList(e, ms) =>
      || (forall m | m in ms :: IsNullLiteral(m) || !Shows(d, m))
      || (Clean(d, e) && forall m | m in ms && !IsNullLiteral(m) :: Clean(d, m))
    case BetweenNode(e, lo, hi) => Clean(d, e) && Clean(d, lo) && Clean(d, hi)
    case LikeNode(e, p, _) => Clean(d, e) && Clean(d, p)
    case ExtractNode(field, ms) =>
      (if d.Exasol? then IsName(Upper(field)) else '\'' !in field) && (ms != [] ==> Clean(d, ms[0]))
    case CaseNode(b, ws, rs) =>
      Clean(d, b) && ws != [] && (forall m | m in ws :: Clean(d, m)) && forall m | m in rs :: Clean(d, m)
    case CastNode(ms, _) => ms != [] ==> Clean(d, ms[0])
    case DecimalNode(ms) => forall m | m in ms :: Clean(d, m)
    case Scalar(fn, ms) =>
      if d.DataFusion? && (fn.ToDate? || fn.ToTimestamp?) && |ms| == 2 then Clean(d, ms[0])
      else
        && (forall i :: 0 <= i < Used(d, fn, |ms|) ==> Clean(d, ms[i]))
        && (fn.NegFn? && ms != [] ==> !StartsWithMinus(d, ms[0]))
    case _ => true
  }

  /** The tree can stand as an operand anywhere. */
  predicate Fits(e: Sql) { Rank(e) == 7 }

  predicate AllFit(es: seq<Sql>) { forall y | y in es :: Fits(y) }

  predicate AllReadable(es: seq<Sql>) { forall y | y in es :: Readable(y) }

  // ----- one layer of the tree at a time

  lemma ParenFits(e: Sql)
    ensures Fits(Paren(e)) && (Readable(Paren(e)) <==> Readable(e))
  {
  }

  lemma BinFits(y: Symbol, l: Sql, x: Sql)
    requires Fits(l) && Fits(x)
    ensures Readable(Bin(SymOp(y), l, x)) <==> Readable(l) && Readable(x)
    ensures Fits(Paren(Bin(SymOp(y), l, x)))
    ensures Readable(Paren(Bin(SymOp(y), l, x))) <==> Readable(l) && Readable(x)
  {
    ParenFits(Bin(SymOp(y), l, x));
  }

  lemma NegFits(e: Sql)
    requires Fits(e)
    ensures Fits(Paren(Neg(e))) && (Readable(Paren(Neg(e))) <==> Readable(e) && !e.Neg?)
  {
    assert Readable(Neg(e)) <==> Readable(e) && !e.Neg?;
    ParenFits(Neg(e));
  }

  lemma CastLayerFits(e: Sql, ty: seq<Tok>)
    requires Fits(e) && IsType(ty)
    ensures Fits(Cast(e, ty)) && (Readable(Cast(e, ty)) <==> Readable(e))
  {
  }

  lemma StrFits(s: string)
    ensures Fits(SqlStr(s)) && Readable(SqlStr(s))
  {
  }

  lemma CallFits(name: string, es: seq<Sql>)
    requires IsName(name) && AllFit(es)
    ensures Fits(Call(name, es)) && (Readable(Call(name, es)) <==> AllReadable(es))
  {
  }

  lemma TwoFit(a: Sql, b: Sql)
    requires Fits(a) && Fits(b)
    ensures AllFit([a, b]) && (AllReadable([a, b]) <==> Readable(a) && Readable(b))
  {
    assert [a, b][0] == a && [a, b][1] == b;
  }

  lemma ThreeFit(a: Sql, b: Sql, c: Sql)
    requires Fits(a) && Fits(b) && Fits(c)
    ensures AllFit([a, b, c]) && (AllReadable([a, b, c]) <==> Readable(a) && Readable(b) && Readable(c))
  {
    assert [a, b, c][0] == a && [a, b, c][1] == b && [a, b, c][2] == c;
  }

  lemma Call2Fits(name: string, a: Sql, b: Sql)
    requires IsName(name) && Fits(a) && Fits(b)
    ensures Fits(Call(name, [a, b])) && (Readable(Call(name, [a, b])) <==> Readable(a) && Readable(b))
  {
    TwoFit(a, b);
    CallFits(name, [a, b]);
  }

  lemma Call3Fits(name: string, a: Sql, b: Sql, c: Sql)
    requires IsName(name) && Fits(a) && Fits(b) && Fits(c)
    ensures Fits(Call(name, [a, b, c]))
    ensures Readable(Call(name, [a, b, c])) <==> Readable(a) && Readable(b) && Readable(c)
  {
    ThreeFit(a, b, c);
    CallFits(name, [a, b, c]);
  }

  predicate AllBranchesReadable(bs: seq<Branch>) { forall b | b in bs :: ReadableBranch(b) }

  lemma CaseLayerFits(basis: Option<Sql>, bs: seq<Branch>, els: Option<Sql>)
    ensures Fits(Case(basis, bs, els))
    ensures Readable(Case(basis, bs, els)) <==>
            && (basis.Some? ==> Readable(basis.value)) && bs != [] && AllBranchesReadable(bs)
            && (els.Some? ==> Readable(els.value))
  {
  }

  // ----- building blocks

  lemma {:induction false} ChainFits(op: BinOp, parts: seq<Sql>)
    requires parts != [] && OpLevel(op) != 4
    requires forall p | p in parts :: Rank(p) > OpLevel(op)
    ensures Rank(Chain(op, parts)) >= OpLevel(op)
    ensures Readable(Chain(op, parts)) <==> AllReadable(parts)
  {
    hide Readable, Rank;
    if |parts| == 1 {
      assert parts == [parts[0]];
    } else {
      var front, last := parts[..|parts| - 1], parts[|parts| - 1];
      assert parts == front + [last];
      ChainFits(op, front);
      LinkFits(op, Chain(op, front), last);
    }
  }

  lemma LinkFits(op: BinOp, l: Sql, x: Sql)
    requires OpLevel(op) != 4 && Rank(l) >= OpLevel(op) && Rank(x) > OpLevel(op)
    ensures Rank(Bin(op, l, x)) == OpLevel(op) && (Readable(Bin(op, l, x)) <==> Readable(l) && Readable(x))
  {
    hide IsName, IsNumeral, IsType, OpLevel;
  }

  lemma TypesFit(t: ExasolType)
    ensures IsType(TypeTokens(t))
    ensures DfType(t).Ok? ==> IsType(DfType(t).value)
  {
    hide IsName;
    TokensAreType(t);
    OtherNames();
    DoubleNames();
    WordPiece("VARCHAR");
    WordPiece("DOUBLE");
    if t.Timestamp? {
      SizedPiece(t.precision);
      TimestampNames();
      NamedPiece("TIMESTAMP", Sized(t.precision));
    }
  }

  lemma PlainTypes()
    ensures IsType([Word("VARCHAR")]) && IsType([Word("DOUBLE")]) && IsType([Word("DATE")])
  {
    hide IsName;
    OtherNames();
    PlainNames();
    DoubleNames();
    WordPiece("VARCHAR");
    WordPiece("DOUBLE");
    WordPiece("DATE");
  }

  lemma TimestampNames()
    ensures IsName("TIMESTAMP") && IsName("DATE")
  {
  }

  lemma InterleavedFits(es: seq<Sql>)
    requires AllFit(es) && |es| >= 2
    ensures var c := CaseSql(None, Conditions(es), Outcomes(es)); Fits(c) && (Readable(c) <==> AllReadable(es))
  {
    var conds, results := Conditions(es), Outcomes(es);
    assert forall y | y in conds :: y in es;
    assert forall y | y in results :: y in es;
    CaseFits(None, conds, results);
    if AllReadable(conds) && AllReadable(results) {
      forall i | 0 <= i < |es| ensures Readable(es[i]) {
        if i == |es| - 1 && |es| % 2 == 1 {
          assert results[|es| / 2] == es[i];
        } else if i % 2 == 0 {
          assert conds[i / 2] == es[i];
        } else {
          assert results[i / 2] == es[i];
        }
      }
    }
  }

  lemma NumFits(n: string)
    requires n == "0" || n == "60" || n == "3600"
    ensures Fits(SqlNum(n)) && Readable(SqlNum(n))
  {
    DigitsAreNumeral(n);
  }

  lemma ApplyDfFits(fn: Fn, es: seq<Sql>)
    requires AllFit(es) && ApplyDf(fn, es).Ok? && Declared(fn)
    requires |es| == Used(DataFusion, fn, |es|)
    ensures var e := ApplyDf(fn, es).value; Fits(e) && (Readable(e) <==> AllReadable(es))
  {
    match fn
    case Plain(w) =>
      DfPlainName(w);
      CallFits(DfName(w), es);
    case Greatest =>
      DfWord("greatest");
      GuardedFits("greatest", es);
    case Least =>
      DfWord("least");
      GuardedFits("least", es);
    case NullIf =>
      DfWord("nullif");
      CallFits("nullif", es);
    case ToDate =>
      DfWord("to_date");
      CallFits("to_date", es);
    case ToTimestamp =>
      DfWord("to_timestamp");
      CallFits("to_timestamp", es);
    case DaysBetween => DaysFits(es);
    case TimeBetween(unit) => TimeFits(unit, es);
    case NullIfZero => ZeroFits(fn, es);
    case ZeroIfNull => ZeroFits(fn, es);
    case Instr => StrposFits(fn, es);
    case Locate => StrposFits(fn, es);
    case Part(_) => PartFits(fn, es);
    case Week => PartFits(fn, es);
  }

  lemma VerbatimFits(fn: Fn, es: seq<Sql>)
    requires AllFit(es) && Declared(fn)
    requires !(fn.Add? || fn.Sub? || fn.Mult? || fn.FloatDiv? || fn.NegFn? || fn.Mod? || fn.Concat? || fn.CaseFn?)
    ensures Fits(Call(ExaName(fn), es)) && (Readable(Call(ExaName(fn), es)) <==> AllReadable(es))
  {
    match fn {
      case Plain(w) => PlainName(w);
      case Part(_) => CalendarName(fn);
      case Week => CalendarName(fn);
      case ToDate => ConversionName(fn);
      case ToTimestamp => ConversionName(fn);
      case DaysBetween => ConversionName(fn);
      case TimeBetween(_) => TimeBetweenName(fn);
      case _ => ShapedName(fn);
    }
    CallFits(ExaName(fn), es);
  }

  lemma DoubleFits(v: Wire.Scalar)
    ensures Fits(Cast(Quoted(v), [Word("DOUBLE")])) && Readable(Cast(Quoted(v), [Word("DOUBLE")]))
  {
    PlainTypes();
    assert Fits(Quoted(v)) && Readable(Quoted(v));
    CastLayerFits(Quoted(v), [Word("DOUBLE")]);
  }

  lemma ArrowCastFits(e: Sql, s: string)
    requires Fits(e)
    ensures Fits(Call("arrow_cast", [e, SqlStr(s)])) && (Readable(Call("arrow_cast", [e, SqlStr(s)])) <==> Readable(e))
  {
    DfWord("arrow_cast");
    StrFits(s);
    Call2Fits("arrow_cast", e, SqlStr(s));
  }

  lemma TypedFits(kw: string, s: string)
    requires IsName(kw)
    ensures Fits(Typed(kw, s)) && Readable(Typed(kw, s))
  {
  }

  lemma BareFits(w: string)
    requires IsName(w)
    ensures Fits(Bare(w)) && Readable(Bare(w))
  {
  }

  lemma TstzFits(v: Wire.Scalar)
    ensures Fits(ExasolTstz(v)) && Readable(ExasolTstz(v))
  {
    if !v.NoValue? {
      TimestampNames();
      ExaWords();
      var ty := TypeTokens(TimestampWithLocalTimeZone(BARE_TIMESTAMP_PRECISION));
      TokensAreType(TimestampWithLocalTimeZone(BARE_TIMESTAMP_PRECISION));
      TypedFits("TIMESTAMP", ScalarText(v));
      StrFits("UTC");
      BareFits("SESSIONTIMEZONE");
      Call3Fits("CONVERT_TZ", ExasolTimestamp(v), SqlStr("UTC"), Bare("SESSIONTIMEZONE"));
      CastLayerFits(Call("CONVERT_TZ", [ExasolTimestamp(v), SqlStr("UTC"), Bare("SESSIONTIMEZONE")]), ty);
    }
  }

  lemma NumberFits(text: string)
    ensures Fits(NumberSql(text)) && (Readable(NumberSql(text)) <==> IsSigned(text))
  {
    hide NumLen;
    if text != "" && text[0] == '-' {
      assert !IsNumeral(text);
    }
  }

  lemma LiteralFits(d: Dialect, n: Node)
    requires IsLiteral(n) && RenderLiteral(d, n).Some?
    ensures Fits(RenderLiteral(d, n).value)
    ensures Readable(RenderLiteral(d, n).value) <==> Clean(d, n)
  {
    hide IsName, IsNumeral, NumberSql;
    match n
    case LitNull =>
    case LitBool(_) =>
    case LitString(v) =>
    case LitExact(v) => if !v.NoValue? { NumberFits(ScalarText(v)); }
    case LitDouble(v) =>
      DoubleFits(v);
      if !v.NoValue? { NumberFits(ScalarText(v)); }
    case LitDate(_) => TimeLiteralFits(d, n);
    case LitTimestamp(_) => TimeLiteralFits(d, n);
    case LitTimestampUtc(_) => TimeLiteralFits(d, n);
    case LitTstz(_) => TimeLiteralFits(d, n);
  }

  lemma TimeLiteralFits(d: Dialect, n: Node)
    requires n.LitDate? || n.LitTimestamp? || n.LitTimestampUtc? || n.LitTstz?
    requires RenderLiteral(d, n).Some?
    ensures Fits(RenderLiteral(d, n).value)
    ensures Readable(RenderLiteral(d, n).value) <==> Clean(d, n)
  {
    hide IsName, Quoted, TimestampType;
    match n
    case LitDate(v) =>
      TimestampNames();
      TypedFits("DATE", ScalarText(v));
    case LitTimestamp(v) =>
      TimestampNames();
      TypedFits("TIMESTAMP", ScalarText(v));
      QuotedFits(v);
      ArrowCastFits(Quoted(v), TimestampType(v));
    case LitTimestampUtc(v) =>
      StrFits(ScalarText(v) + UTC_SUFFIX);
      ArrowCastFits(SqlStr(ScalarText(v) + UTC_SUFFIX), UTC_MICROS);
      TstzFits(v);
    case LitTstz(v) => TstzFits(v);
  }

  lemma QuotedFits(v: Scalar)
    ensures Fits(Quoted(v)) && Readable(Quoted(v))
  {
  }

  lemma BoolTextFits(e: Sql)
    requires Fits(e)
    ensures Fits(BoolText(e)) && (Readable(BoolText(e)) <==> Readable(e))
  {
    var t, f := Branch(SqlBool(true), SqlStr("TRUE")), Branch(SqlBool(false), SqlStr("FALSE"));
    assert ReadableBranch(t) && ReadableBranch(f);
    CaseLayerFits(Some(e), [t, f], Some(SqlNull));
    ParenFits(Case(Some(e), [t, f], Some(SqlNull)));
  }

  lemma DecimalFits(e: Sql)
    requires Fits(e)
    ensures Fits(DecimalSql(e)) && (Readable(DecimalSql(e)) <==> Readable(e))
  {
    PlainTypes();
    DfWord("regexp_replace");
    StrFits(KEEP_NONZERO);
    StrFits(KEEP_GROUP);
    StrFits(ZERO_FRACTION);
    StrFits("");
    CastLayerFits(e, [Word("VARCHAR")]);
    var c := Cast(e, [Word("VARCHAR")]);
    Call3Fits("regexp_replace", c, SqlStr(KEEP_NONZERO), SqlStr(KEEP_GROUP));
    Call3Fits("regexp_replace", Call("regexp_replace", [c, SqlStr(KEEP_NONZERO), SqlStr(KEEP_GROUP)]),
              SqlStr(ZERO_FRACTION), SqlStr(""));
  }

  lemma CastFits(d: Dialect, operand: Node, e: Sql, ty: Option<ExasolType>)
    requires Fits(e) && CastSql(d, operand, e, ty).Ok?
    ensures var c := CastSql(d, operand, e, ty).value; Fits(c) && (Readable(c) <==> Readable(e))
  {
    TypesFit(ty.value);
    BoolTextFits(e);
    CastLayerFits(e, TypeTokens(ty.value));
    if DfType(ty.value).Ok? {
      CastLayerFits(e, DfType(ty.value).value);
    }
  }

  lemma BranchesFit(conds: seq<Sql>, results: seq<Sql>)
    requires |conds| <= |results|
    ensures AllBranchesReadable(Pairs(conds, results)) <==> AllReadable(conds) && AllReadable(results[..|conds|])
  {
    var bs := Pairs(conds, results);
    if AllBranchesReadable(bs) {
      forall i | 0 <= i < |conds| ensures Readable(conds[i]) && Readable(results[i]) {
        assert bs[i] in bs;
      }
    }
    if AllReadable(conds) && AllReadable(results[..|conds|]) {
      forall b | b in bs ensures ReadableBranch(b) {
        var i :| 0 <= i < |conds| && bs[i] == b;
        assert conds[i] in conds && results[..|conds|][i] in results[..|conds|];
      }
    }
  }

  lemma CaseFits(basis: Option<Sql>, conds: seq<Sql>, results: seq<Sql>)
    requires |results| == |conds| || |results| == |conds| + 1
    requires AllFit(conds) && AllFit(results) && (basis.Some? ==> Fits(basis.value))
    ensures Fits(CaseSql(basis, conds, results))
    ensures Readable(CaseSql(basis, conds, results)) <==>
            && conds != [] && AllReadable(conds) && AllReadable(results)
            && (basis.Some? ==> Readable(basis.value))
  {
    BranchesFit(conds, results);
    var els := if |results| > |conds| then Some(results[|conds|]) else None;
    assert els.Some? ==> els.value in results;
    CaseLayerFits(basis, Pairs(conds, results), els);
    assert results == results[..|conds|] + results[|conds|..];
    if |results| > |conds| {
      assert results[|conds|..] == [results[|conds|]];
    }
  }

  lemma NullTestsFit(es: seq<Sql>)
    requires AllFit(es)
    ensures var tests := NullTests(es);
      && (forall i :: 0 <= i < |es| ==> Rank(tests[i]) > 1)
      && (AllReadable(tests) <==> AllReadable(es))
  {
    var tests := NullTests(es);
    forall i | 0 <= i < |es|
      ensures Rank(tests[i]) > 1 && (Readable(tests[i]) <==> Readable(es[i]))
    {
      assert es[i] in es;
    }
    if AllReadable(tests) {
      forall i | 0 <= i < |es| ensures Readable(es[i]) { assert tests[i] in tests; }
    }
  }

  lemma NullBranchFits(cond: Sql)
    ensures ReadableBranch(Branch(cond, SqlNull)) <==> Readable(cond)
  {
  }

  lemma GuardedFits(name: string, es: seq<Sql>)
    requires IsName(name) && AllFit(es) && es != []
    ensures Fits(Guarded(name, es)) && (Readable(Guarded(name, es)) <==> AllReadable(es))
  {
    hide Readable, Rank, NullTests, IsName, ReadableBranch;
    var tests := NullTests(es);
    NullTestsFit(es);
    ChainFits(OrOp, tests);
    CallFits(name, es);
    NullBranchFits(Chain(OrOp, tests));
    CaseLayerFits(None, [Branch(Chain(OrOp, tests), SqlNull)], Some(Call(name, es)));
  }

  lemma DatePartFits(f: string, e: Sql)
    requires Fits(e)
    ensures Fits(Call("date_part", [SqlStr(f), e])) && (Readable(Call("date_part", [SqlStr(f), e])) <==> Readable(e))
  {
    DfWord("date_part");
    StrFits(f);
    Call2Fits("date_part", SqlStr(f), e);
  }

  /** A field between quotes as it stands reads back exactly if it holds no quote. */
  lemma RawPartFits(f: string, e: Sql)
    requires Fits(e)
    ensures var c := Call("date_part", [Unescaped(f), e]); Fits(c) && (Readable(c) <==> '\'' !in f && Readable(e))
  {
    if '\'' in f {
      DfWord("date_part");
      Call2Fits("date_part", RawStr(f), e);
    } else {
      DatePartFits(f, e);
    }
  }

  lemma QuotesInUpper(s: string)
    ensures '\'' in Upper(s) <==> '\'' in s
  {
    assert forall i :: 0 <= i < |s| ==> (Upper(s)[i] == '\'' <==> s[i] == '\'');
  }

  lemma EpochGapFits(a: Sql, b: Sql)
    requires Fits(a) && Fits(b)
    ensures Fits(EpochGap(a, b)) && (Readable(EpochGap(a, b)) <==> Readable(a) && Readable(b))
  {
    DatePartFits("epoch", a);
    DatePartFits("epoch", b);
    BinFits(MinusSym, Call("date_part", [SqlStr("epoch"), a]), Call("date_part", [SqlStr("epoch"), b]));
  }

  lemma OneArgument(es: seq<Sql>)
    requires |es| == 1 && AllFit(es)
    ensures Fits(es[0]) && (AllReadable(es) <==> Readable(es[0]))
  {
    assert es == [es[0]];
  }

  lemma TwoArguments(es: seq<Sql>)
    requires |es| == 2 && AllFit(es)
    ensures Fits(es[0]) && Fits(es[1]) && (AllReadable(es) <==> Readable(es[0]) && Readable(es[1]))
  {
    assert es == [es[0], es[1]];
    assert es[0] in es && es[1] in es;
    TwoFit(es[0], es[1]);
  }

  lemma ZeroFits(fn: Fn, es: seq<Sql>)
    requires AllFit(es) && ApplyDf(fn, es).Ok? && (fn.NullIfZero? || fn.ZeroIfNull?)
    ensures var e := ApplyDf(fn, es).value; Fits(e) && (Readable(e) <==> AllReadable(es))
  {
    NumFits("0");
    OneArgument(es);
    DfWord("nullif");
    DfWord("coalesce");
    Call2Fits(if fn.NullIfZero? then "nullif" else "coalesce", es[0], SqlNum("0"));
  }

  lemma StrposFits(fn: Fn, es: seq<Sql>)
    requires AllFit(es) && |es| == 2 && (fn.Instr? || fn.Locate?)
    ensures var e := ApplyDf(fn, es).value; Fits(e) && (Readable(e) <==> AllReadable(es))
  {
    TwoArguments(es);
    DfWord("strpos");
    Call2Fits("strpos", es[0], es[1]);
    Call2Fits("strpos", es[1], es[0]);
  }

  lemma PartFits(fn: Fn, es: seq<Sql>)
    requires AllFit(es) && ApplyDf(fn, es).Ok? && (fn.Part? || fn.Week?)
    ensures var e := ApplyDf(fn, es).value; Fits(e) && (Readable(e) <==> AllReadable(es))
  {
    OneArgument(es);
    DatePartFits(if fn.Part? then FieldName(fn.field) else "week", es[0]);
  }

  lemma CastGapFits(a: Sql, b: Sql, ty: seq<Tok>)
    requires Fits(a) && Fits(b) && IsType(ty)
    ensures var e := Paren(Bin(SymOp(MinusSym), Cast(a, ty), Cast(b, ty)));
            Fits(e) && (Readable(e) <==> Readable(a) && Readable(b))
  {
    CastLayerFits(a, ty);
    CastLayerFits(b, ty);
    BinFits(MinusSym, Cast(a, ty), Cast(b, ty));
  }

  lemma DaysFits(es: seq<Sql>)
    requires AllFit(es) && |es| == 2
    ensures var e := ApplyDf(DaysBetween, es).value; Fits(e) && (Readable(e) <==> AllReadable(es))
  {
    hide Readable, Rank, IsName, IsType;
    TwoArguments(es);
    PlainTypes();
    CastGapFits(es[0], es[1], [Word("DATE")]);
  }

  lemma TimeFits(unit: TimeUnit, es: seq<Sql>)
    requires AllFit(es) && |es| == 2
    ensures var e := ApplyDf(TimeBetween(unit), es).value; Fits(e) && (Readable(e) <==> AllReadable(es))
  {
    hide Readable, Rank, IsName, EpochGap;
    TwoArguments(es);
    EpochGapFits(es[0], es[1]);
    NumFits("60");
    NumFits("3600");
    BinFits(SlashSym, EpochGap(es[0], es[1]), SqlNum("60"));
    BinFits(SlashSym, EpochGap(es[0], es[1]), SqlNum("3600"));
  }

  lemma ShapedFits(d: Dialect, fn: Fn, es: seq<Sql>)
    requires AllFit(es) && Apply(d, fn, es).Ok? && |es| == Used(d, fn, |es|)
    requires fn.Add? || fn.Sub? || fn.Mult? || fn.FloatDiv? || fn.Mod?
    ensures var e := Apply(d, fn, es).value; Fits(e) && (Readable(e) <==> AllReadable(es))
  {
    TwoArguments(es);
    BinFits(ArithSymbol(fn), es[0], es[1]);
    DfWord("vs_checked_float_div");
    ExaWords();
    Call2Fits("vs_checked_float_div", es[0], es[1]);
    CallFits("MOD", es);
  }

  lemma ConcatFits(es: seq<Sql>)
    requires AllFit(es) && es != []
    ensures var e := Paren(Chain(SymOp(BarsSym), es)); Fits(e) && (Readable(e) <==> AllReadable(es))
  {
    ChainFits(SymOp(BarsSym), es);
    ParenFits(Chain(SymOp(BarsSym), es));
  }

  lemma ApplyFits(d: Dialect, fn: Fn, es: seq<Sql>)
    requires AllFit(es) && Apply(d, fn, es).Ok? && Declared(fn)
    requires |es| == Used(d, fn, |es|)
    ensures var e := Apply(d, fn, es).value;
            Fits(e) && (Readable(e) <==> AllReadable(es) && (fn.NegFn? ==> !es[0].Neg?))
  {
    match fn
    case Add => ShapedFits(d, fn, es);
    case Sub => ShapedFits(d, fn, es);
    case Mult => ShapedFits(d, fn, es);
    case FloatDiv => ShapedFits(d, fn, es);
    case Mod => ShapedFits(d, fn, es);
    case NegFn =>
      OneArgument(es);
      NegFits(es[0]);
    case Concat => ConcatFits(es);
    case CaseFn => InterleavedFits(es);
    case _ => if d.Exasol? { VerbatimFits(fn, es); } else { ApplyDfFits(fn, es); }
  }

  // ----- the renderer

  /** A node that renders shows up in the text unless it is absent or the one skipped literal. */
  lemma ShowsExactly(d: Dialect, n: Node)
    requires Render(d, n).Ok?
    ensures Render(d, n).value.Some? <==> Shows(d, n)
    ensures !Shows(d, n) ==> Clean(d, n)
  {
    hide Apply, IsPlain, Translation, IsName, IsSigned;
  }

  /** Neither a numeral, nor a sign, nor a bare word */
  predicate IsBig(e: Sql) { !e.SqlNum? && !e.Neg? && !e.Bare? }

  lemma ApplyIsBig(d: Dialect, fn: Fn, es: seq<Sql>)
    requires Apply(d, fn, es).Ok?
    ensures IsBig(Apply(d, fn, es).value)
  {
    hide DfName, ExaName, PlainArity, NullTests, Chain, Conditions, Outcomes;
  }

  /** What is neither a literal nor a junction is written as a call, a CASE, a cast, a column or in parentheses. */
  lemma CompoundIsBig(d: Dialect, n: Node)
    requires !IsLiteral(n) && !n.Junction? && Render(d, n).Ok? && Render(d, n).value.Some?
    ensures IsBig(Render(d, n).value.value)
  {
    hide IsPlain, Translation, Apply, Declared, DfType, Need, NeedAll, Present, Entries, ConcatArgs;
    if n.Scalar? {
      var used := Taken(n.args, Used(d, n.fn, |n.args|));
      if NeedAll(d, used).Ok? && Apply(d, n.fn, NeedAll(d, used).value).Ok? {
        ApplyIsBig(d, n.fn, NeedAll(d, used).value);
      }
    }
  }

  lemma LiteralHead(d: Dialect, n: Node)
    requires IsLiteral(n) && RenderLiteral(d, n).Some?
    ensures IsBlank(RenderLiteral(d, n).value) <==> EmptyNumber(d, n)
    ensures RenderLiteral(d, n).value.Neg? <==> StartsWithMinus(d, n)
  {
    hide TimestampType, TypeTokens;
  }

  /** Its text is empty exactly if it is an empty number. */
  lemma BlankExactly(d: Dialect, n: Node)
    requires Render(d, n).Ok? && Render(d, n).value.Some?
    ensures IsBlank(Render(d, n).value.value) <==> EmptyNumber(d, n)
  {
    hide Apply, RenderLiteral, Declared, Present;
    if n.Junction? {
      PresentNotBlank(d, n.members);
      JoinNotBlank(n.isAnd, Present(d, n.members).value);
    } else if IsLiteral(n) {
      LiteralHead(d, n);
    } else {
      CompoundIsBig(d, n);
    }
  }

  lemma JoinNotBlank(isAnd: bool, parts: seq<Sql>)
    requires forall e | e in parts :: !IsBlank(e)
    ensures !IsBlank(JoinParts(isAnd, parts))
    ensures JoinParts(isAnd, parts).Neg? <==> |parts| == 1 && parts[0].Neg?
  {
    hide Chain;
  }

  lemma {:induction false} PresentNotBlank(d: Dialect, ns: seq<Node>)
    requires Present(d, ns).Ok?
    ensures forall e | e in Present(d, ns).value :: !IsBlank(e)
  {
    hide Render, IsBlank;
    if ns != [] {
      PresentNotBlank(d, ns[1..]);
    }
  }

  /** What a junction writes are its written members, in order. */
  lemma {:induction false} PresentIsJoined(d: Dialect, ns: seq<Node>)
    requires Present(d, ns).Ok?
    ensures |Present(d, ns).value| == |Joined(d, ns)|
    ensures forall i :: 0 <= i < |Joined(d, ns)| ==> Need(d, Joined(d, ns)[i]) == Ok(Present(d, ns).value[i])
  {
    hide Render, IsBlank, EmptyNumber, Shows, Clean;
    if ns != [] {
      PresentIsJoined(d, ns[1..]);
      ShowsExactly(d, ns[0]);
      if Shows(d, ns[0]) {
        BlankExactly(d, ns[0]);
      }
    }
  }

  /** The text starts with a minus sign exactly if the node says so. */
  lemma {:induction false} MinusExactly(d: Dialect, n: Node)
    requires Need(d, n).Ok?
    ensures Need(d, n).value.Neg? <==> StartsWithMinus(d, n)
    decreases n
  {
    hide Apply, RenderLiteral, Declared, Present, Joined;
    if n.Junction? {
      PresentIsJoined(d, n.members);
      PresentNotBlank(d, n.members);
      JoinNotBlank(n.isAnd, Present(d, n.members).value);
      if |Joined(d, n.members)| == 1 {
        var m := Joined(d, n.members)[0];
        assert m in Joined(d, n.members);
        MinusExactly(d, m);
      }
    } else if IsLiteral(n) {
      LiteralHead(d, n);
    } else {
      CompoundIsBig(d, n);
    }
  }

  /** An IN list is written empty exactly if each entry is a NULL literal or not shown. */
  lemma {:induction false} EmptyListExactly(d: Dialect, ns: seq<Node>)
    requires Entries(d, ns).Ok?
    ensures Entries(d, ns).value == [] <==> forall m | m in ns :: IsNullLiteral(m) || !Shows(d, m)
  {
    hide Render, Shows, IsNullLiteral, Clean;
    if ns != [] {
      EmptyListExactly(d, ns[1..]);
      assert ns == [ns[0]] + ns[1..];
      if !IsNullLiteral(ns[0]) {
        ShowsExactly(d, ns[0]);
      }
    }
  }

  lemma {:induction false} NeedFits(d: Dialect, n: Node)
    requires Need(d, n).Ok?
    ensures Fits(Need(d, n).value) && (Readable(Need(d, n).value) <==> Clean(d, n))
    decreases n, 3
  {
    hide Readable, Rank, IsName, Apply;
    RenderFits(d, n);
  }

  lemma {:induction false} NeedAllFits(d: Dialect, ns: seq<Node>)
    requires NeedAll(d, ns).Ok?
    ensures var es := NeedAll(d, ns).value;
            AllFit(es) && (AllReadable(es) <==> forall m | m in ns :: Clean(d, m))
    decreases ns, 0
  {
    hide Readable, Rank, IsName, Apply;
    if ns != [] {
      NeedFits(d, ns[0]);
      NeedAllFits(d, ns[1..]);
      assert ns == [ns[0]] + ns[1..];
    }
  }

  lemma {:induction false} PresentFits(d: Dialect, ns: seq<Node>)
    requires Present(d, ns).Ok?
    ensures var es := Present(d, ns).value;
            AllFit(es) && (AllReadable(es) <==> forall m | m in ns :: EmptyNumber(d, m) || Clean(d, m))
    decreases ns, 0
  {
    hide Readable, Rank, IsName, Apply, Clean, Render, IsBlank, EmptyNumber;
    if ns != [] {
      ShowsExactly(d, ns[0]);
      if Render(d, ns[0]).value.Some? {
        RenderFits(d, ns[0]);
        BlankExactly(d, ns[0]);
      }
      PresentFits(d, ns[1..]);
      assert ns == [ns[0]] + ns[1..];
    }
  }

  lemma {:induction false} EntriesFit(d: Dialect, ns: seq<Node>)
    requires Entries(d, ns).Ok?
    ensures var es := Entries(d, ns).value;
            AllFit(es) && (AllReadable(es) <==> forall m | m in ns && !IsNullLiteral(m) :: Clean(d, m))
    decreases ns, 0
  {
    hide Readable, Rank, IsName, Apply, Clean, Render;
    if ns != [] {
      if !IsNullLiteral(ns[0]) {
        ShowsExactly(d, ns[0]);
        if Render(d, ns[0]).value.Some? {
          RenderFits(d, ns[0]);
        }
      }
      EntriesFit(d, ns[1..]);
      assert ns == [ns[0]] + ns[1..];
    }
  }

  lemma {:induction false} ConcatArgsFit(ns: seq<Node>)
    requires ConcatArgs(ns).Ok?
    ensures var es := ConcatArgs(ns).value;
            AllFit(es) && (AllReadable(es) <==> forall m | m in ns :: Clean(DataFusion, m))
    decreases ns, 0
  {
    hide Readable, Rank, IsName, Apply;
    if ns != [] {
      NeedFits(DataFusion, ns[0]);
      BoolTextFits(Need(DataFusion, ns[0]).value);
      ConcatArgsFit(ns[1..]);
      assert ns == [ns[0]] + ns[1..];
    }
  }

  lemma JoinFits(isAnd: bool, parts: seq<Sql>)
    requires AllFit(parts)
    ensures Fits(JoinParts(isAnd, parts)) && (Readable(JoinParts(isAnd, parts)) <==> AllReadable(parts))
  {
    if |parts| == 1 {
      OneArgument(parts);
    } else if |parts| > 1 {
      var op := if isAnd then AndOp else OrOp;
      ChainFits(op, parts);
      ParenFits(Chain(op, parts));
    }
  }

  lemma InFits(x: Sql, list: seq<Sql>)
    requires Fits(x) && AllFit(list)
    ensures Fits(InSql(x, list))
    ensures Readable(InSql(x, list)) <==> (list == [] || (Readable(x) && AllReadable(list)))
  {
    if list != [] {
      assert Readable(In(x, list)) <==> Readable(x) && AllReadable(list);
      ParenFits(In(x, list));
    }
  }

  lemma TestFits(e: Sql, f: Sql)
    requires Fits(e) && (f == Not(e) || f == IsNull(e) || f == IsNotNull(e))
    ensures Fits(Paren(f)) && (Readable(Paren(f)) <==> Readable(e))
  {
    hide IsName, IsNumeral, IsType;
    assert Readable(f) <==> Readable(e);
    ParenFits(f);
  }

  lemma BetweenLayerFits(x: Sql, l: Sql, h: Sql)
    requires Fits(x) && Fits(l) && Fits(h)
    ensures Fits(Paren(Between(x, l, h)))
    ensures Readable(Paren(Between(x, l, h))) <==> Readable(x) && Readable(l) && Readable(h)
  {
    hide IsName, IsNumeral, IsType;
    assert Readable(Between(x, l, h)) <==> Readable(x) && Readable(l) && Readable(h);
    ParenFits(Between(x, l, h));
  }

  lemma LikeLayerFits(x: Sql, p: Sql, esc: Option<string>)
    requires Fits(x) && Fits(p)
    ensures Fits(Paren(Like(x, p, esc))) && (Readable(Paren(Like(x, p, esc))) <==> Readable(x) && Readable(p))
  {
    assert Readable(Like(x, p, esc)) <==> Readable(x) && Readable(p);
    ParenFits(Like(x, p, esc));
  }

  lemma NullifFits(e: Sql)
    requires Fits(e)
    ensures Fits(Call("nullif", [e, SqlStr("")])) && (Readable(Call("nullif", [e, SqlStr("")])) <==> Readable(e))
  {
    DfWord("nullif");
    StrFits("");
    Call2Fits("nullif", e, SqlStr(""));
  }

  lemma {:induction false} ParseFits(target: FormatTarget, args: seq<Node>)
    requires |args| == 2 && RenderParse(target, args).Ok?
    ensures RenderParse(target, args).value.Some?
    ensures var e := RenderParse(target, args).value.value; Fits(e) && (Readable(e) <==> Clean(DataFusion, args[0]))
    decreases args, 0
  {
    hide Readable, Rank, IsName, Apply;
    NeedFits(DataFusion, args[0]);
    var x := Need(DataFusion, args[0]).value;
    NullifFits(x);
    var pattern := Translation(args[1].value.s, target).value;
    StrFits(pattern);
    var name := if target.DateTarget? then "to_date" else "to_timestamp";
    DfWord(name);
    Call2Fits(name, Call("nullif", [x, SqlStr("")]), SqlStr(pattern));
  }

  lemma {:induction false} ConcatNodeFits(args: seq<Node>)
    requires ConcatArgs(args).Ok?
    ensures var e := Call("nullif", [Call("concat", ConcatArgs(args).value), SqlStr("")]);
            Fits(e) && (Readable(e) <==> forall m | m in args :: Clean(DataFusion, m))
    decreases args, 1
  {
    hide Readable, Rank, IsName, Apply;
    ConcatArgsFit(args);
    var es := ConcatArgs(args).value;
    DfWord("concat");
    CallFits("concat", es);
    NullifFits(Call("concat", es));
  }

  lemma {:induction false} AppliedFits(d: Dialect, fn: Fn, args: seq<Node>, used: seq<Node>)
    requires Declared(fn)
    requires used == Taken(args, Used(d, fn, |args|)) && NeedAll(d, used).Ok?
    requires Apply(d, fn, NeedAll(d, used).value).Ok?
    ensures var e := Apply(d, fn, NeedAll(d, used).value).value;
            Fits(e) && (Readable(e) <==> (forall i :: 0 <= i < |used| ==> Clean(d, args[i]))
                                         && (fn.NegFn? ==> !StartsWithMinus(d, args[0])))
    decreases args, 1
  {
    hide Readable, Rank, IsName, ApplyDf, StartsWithMinus, Clean, IsPlain;
    NeedAllFits(d, used);
    UsedClean(d, args, used);
    var es := NeedAll(d, used).value;
    assert |es| == Used(d, fn, |es|);
    ApplyFits(d, fn, es);
    if fn.NegFn? {
      NeedAllFirst(d, used);
      assert used[0] == args[0];
      MinusExactly(d, args[0]);
    }
  }

  lemma UsedClean(d: Dialect, args: seq<Node>, used: seq<Node>)
    requires used <= args
    ensures (forall m | m in used :: Clean(d, m)) <==> forall i :: 0 <= i < |used| ==> Clean(d, args[i])
  {
    assert forall i :: 0 <= i < |used| ==> used[i] == args[i];
  }

  lemma {:induction false} ScalarFits(d: Dialect, n: Node)
    requires n.Scalar? && Render(d, n).Ok?
    ensures Render(d, n).value.Some?
    ensures var e := Render(d, n).value.value; Fits(e) && (Readable(e) <==> Clean(d, n))
    decreases n, 1
  {
    hide Readable, Rank, IsName, Apply, IsPlain, StartsWithMinus, Clean;
    CleanArguments(d, n.fn, n.args);
    if d.DataFusion? && n.fn.Concat? {
      ConcatNodeFits(n.args);
      assert (forall m | m in n.args :: Clean(d, m)) <==> forall i :: 0 <= i < |n.args| ==> Clean(d, n.args[i]);
    } else if d.DataFusion? && n.fn == ToDate && |n.args| == 2 {
      ParseFits(DateTarget, n.args);
    } else if d.DataFusion? && n.fn == ToTimestamp && |n.args| == 2 {
      ParseFits(TimestampTarget, n.args);
    } else {
      var used := Taken(n.args, Used(d, n.fn, |n.args|));
      AppliedFits(d, n.fn, n.args, used);
      if n.fn.NegFn? {
        NegHasArgument(d, NeedAll(d, used).value);
      }
    }
  }

  lemma CleanArguments(d: Dialect, fn: Fn, ms: seq<Node>)
    ensures Clean(d, Scalar(fn, ms)) <==>
      if d.DataFusion? && (fn.ToDate? || fn.ToTimestamp?) && |ms| == 2 then Clean(d, ms[0])
      else (forall i :: 0 <= i < Used(d, fn, |ms|) ==> Clean(d, ms[i]))
           && (fn.NegFn? && ms != [] ==> !StartsWithMinus(d, ms[0]))
  {
    hide StartsWithMinus;
  }

  lemma NegHasArgument(d: Dialect, es: seq<Sql>)
    requires Apply(d, NegFn, es).Ok?
    ensures es != []
  {
    hide ApplyDf;
  }

  lemma NeedAllFirst(d: Dialect, ns: seq<Node>)
    requires ns != [] && NeedAll(d, ns).Ok?
    ensures Need(d, ns[0]) == Ok(NeedAll(d, ns).value[0])
  {
  }

  lemma {:induction false} CaseNodeFits(d: Dialect, n: Node)
    requires n.CaseNode? && Render(d, n).Ok?
    ensures Render(d, n).value.Some?
    ensures var e := Render(d, n).value.value; Fits(e) && (Readable(e) <==> Clean(d, n))
    decreases n, 1
  {
    hide Readable, Rank, IsName, Apply;
    NeedAllFits(d, n.whens);
    NeedAllFits(d, n.results);
    var ws, rs := NeedAll(d, n.whens).value, NeedAll(d, n.results).value;
    var b := Basis(d, n.basis).value;
    if !n.basis.Absent? {
      NeedFits(d, n.basis);
    }
    CaseFits(b, ws, rs);
    ParenFits(CaseSql(b, ws, rs));
  }

  lemma {:induction false} PredicateFits(d: Dialect, n: Node)
    requires n.Compare? || n.BetweenNode? || n.LikeNode? || n.InList?
    requires Render(d, n).Ok?
    ensures Render(d, n).value.Some?
    ensures var e := Render(d, n).value.value; Fits(e) && (Readable(e) <==> Clean(d, n))
    decreases n, 1
  {
    hide Readable, Rank, IsName, Apply;
    match n
    case Compare(op, l, r) =>
      NeedFits(d, l);
      NeedFits(d, r);
      BinFits(CompareSymbol(op), Need(d, l).value, Need(d, r).value);
    case InList(x, ms) =>
      NeedFits(d, x);
      EntriesFit(d, ms);
      EmptyListExactly(d, ms);
      InFits(Need(d, x).value, Entries(d, ms).value);
    case BetweenNode(x, lo, hi) =>
      NeedFits(d, x);
      NeedFits(d, lo);
      NeedFits(d, hi);
      BetweenLayerFits(Need(d, x).value, Need(d, lo).value, Need(d, hi).value);
    case LikeNode(x, p, esc) =>
      NeedFits(d, x);
      NeedFits(d, p);
      LikeLayerFits(Need(d, x).value, Need(d, p).value, if esc == Some("") then None else esc);
  }

  lemma {:induction false} TestNodeFits(d: Dialect, n: Node)
    requires n.NotNode? || n.IsNullNode? || n.IsNotNullNode?
    requires Render(d, n).Ok?
    ensures Render(d, n).value.Some?
    ensures var e := Render(d, n).value.value; Fits(e) && (Readable(e) <==> Clean(d, n))
    decreases n, 1
  {
    hide Readable, Rank, IsName, Apply;
    NeedFits(d, n.e);
    var e := Need(d, n.e).value;
    TestFits(e, if n.NotNode? then Not(e) else if n.IsNullNode? then IsNull(e) else IsNotNull(e));
  }

  lemma {:induction false} ExtractFits(d: Dialect, n: Node)
    requires n.ExtractNode? && Render(d, n).Ok?
    ensures Render(d, n).value.Some?
    ensures var e := Render(d, n).value.value; Fits(e) && (Readable(e) <==> Clean(d, n))
    decreases n, 1
  {
    hide Readable, Rank, IsName, Apply;
    assert n.args[0] in n.args;
    NeedFits(d, n.args[0]);
    RawPartFits(Upper(n.field), Need(d, n.args[0]).value);
    QuotesInUpper(n.field);
    ExtractLayerFits(Upper(n.field), Need(d, n.args[0]).value);
  }

  lemma {:induction false} CastNodeFits(d: Dialect, n: Node)
    requires n.CastNode? && Render(d, n).Ok?
    ensures Render(d, n).value.Some?
    ensures var e := Render(d, n).value.value; Fits(e) && (Readable(e) <==> Clean(d, n))
    decreases n, 1
  {
    hide Readable, Rank, IsName, Apply;
    assert n.args[0] in n.args;
    NeedFits(d, n.args[0]);
    CastFits(d, n.args[0], Need(d, n.args[0]).value, n.ty);
  }

  lemma {:induction false} DecimalNodeFits(d: Dialect, n: Node)
    requires n.DecimalNode? && Render(d, n).Ok?
    ensures Render(d, n).value.Some?
    ensures var e := Render(d, n).value.value; Fits(e) && (Readable(e) <==> Clean(d, n))
    decreases n, 1
  {
    hide Readable, Rank, IsName, Apply;
    assert n.args[0] in n.args;
    NeedFits(d, n.args[0]);
    assert n.args == [n.args[0]];
    DecimalFits(Need(d, n.args[0]).value);
  }

  lemma ExtractLayerFits(field: string, e: Sql)
    ensures Fits(Extract(field, e)) && (Readable(Extract(field, e)) <==> IsName(field) && Readable(e))
  {
    hide IsName;
  }

  lemma ColumnFits(alias: Option<string>, name: string)
    ensures Fits(Col(alias, name)) && Readable(Col(alias, name))
  {
    hide IsName;
  }

  /** Every rendering is printable, and readable exactly when its node is clean. */
  lemma {:induction false} RenderFits(d: Dialect, n: Node)
    requires Render(d, n).Ok? && Render(d, n).value.Some?
    ensures var e := Render(d, n).value.value; Fits(e) && (Readable(e) <==> Clean(d, n))
    decreases n, 2
  {
    hide Readable, Rank, IsName, Apply;
    match n
    case Column(_, _) =>
      var c := Render(d, n).value.value;
      ColumnFits(c.alias, c.name);
    case Junction(isAnd, ms) =>
      PresentFits(d, ms);
      JoinFits(isAnd, Present(d, ms).value);
    case Compare(_, _, _) => PredicateFits(d, n);
    case InList(_, _) => PredicateFits(d, n);
    case BetweenNode(_, _, _) => PredicateFits(d, n);
    case LikeNode(_, _, _) => PredicateFits(d, n);
    case NotNode(_) => TestNodeFits(d, n);
    case IsNullNode(_) => TestNodeFits(d, n);
    case IsNotNullNode(_) => TestNodeFits(d, n);
    case ExtractNode(_, _) => ExtractFits(d, n);
    case CastNode(_, _) => CastNodeFits(d, n);
    case DecimalNode(_) => DecimalNodeFits(d, n);
    case CaseNode(_, _, _) => CaseNodeFits(d, n);
    case Scalar(_, _) => ScalarFits(d, n);
    case _ => LiteralFits(d, n);
  }

  /**
   Unique readability of every rendering, in both dialects: the text reads back as the written
   tree exactly when the node is clean.
   */
  lemma RenderingReadsBack(d: Dialect, n: Node)
    requires Render(d, n).Ok? && Render(d, n).value.Some?
    ensures var e := Render(d, n).value.value; Read(Show(e)) == Some(e) <==> Clean(d, n)
  {
    hide Readable, Rank, Read, Show, Clean;
    RenderFits(d, n);
    ReadsBackExactly(Render(d, n).value.value);
  }
}

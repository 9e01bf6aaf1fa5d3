/**
 Meaning preservation: on every row, DataFusion's value of the rendered SQL is Exasol's value of
 the node. `Faithful` collects what the renderer leaves to its caller.
 */
module Preserve {
  import opened Common
  import opened SqlText
  import opened SqlTree
  import opened ExasolTypes
  import opened TypeText
  import opened Wire
  import opened DateFormat
  import DecimalText
  import opened Renderer
  import opened ExasolMeaning
  import opened Evaluate
  import opened DfCalls

  // ----- literals

  lemma {:induction false} TrimmedPrefix(f: string, d: nat)
    requires |DecimalText.TrimZeros(f)| <= d <= |f|
    ensures DecimalText.TrimZeros(f[..d]) == DecimalText.TrimZeros(f)
  {
    if d < |f| {
      assert f[|f| - 1] == '0';
      assert f[..|f| - 1][..d] == f[..d];
      TrimmedPrefix(f[..|f| - 1], d);
    } else {
      assert f[..d] == f;
    }
  }

  /** Cutting a fraction keeps its value exactly if no digit but zeros is cut off. */
  lemma CutKeepsFraction(s: string, d: nat)
    ensures CutFraction(s, d) == DecimalText.TrimZeros(FractionDigits(s))
         <==> |DecimalText.TrimZeros(FractionDigits(s))| <= d
  {
    var f := FractionDigits(s);
    if |f| > d && |DecimalText.TrimZeros(f)| <= d {
      TrimmedPrefix(f, d);
    }
  }

  lemma UnitNames()
    ensures MICROS != NANOS && MICROS != UTC_MICROS && NANOS != UTC_MICROS
  {
    assert MICROS[10] != NANOS[10] && NANOS[10] != UTC_MICROS[10];
    assert |MICROS| != |UTC_MICROS|;
  }

  lemma UtcText(s: string)
    ensures |s + UTC_SUFFIX| >= 6
    ensures (s + UTC_SUFFIX)[|s + UTC_SUFFIX| - 6..] == UTC_SUFFIX && (s + UTC_SUFFIX)[..|s + UTC_SUFFIX| - 6] == s
  {
  }

  lemma UtcCast(I: Interp, s: string)
    ensures ArrowCast(I, T(s + UTC_SUFFIX), T(UTC_MICROS)) == Instant(BaseText(s), CutFraction(s, 6))
  {
    hide BaseText, CutFraction;
    UnitNames();
    UtcText(s);
  }

  lemma EvalPair(I: Interp, row: Row, a: Sql, b: Sql)
    ensures EvalAll(I, row, [a, b]) == [Eval(I, row, a), Eval(I, row, b)]
  {
    hide EvalCall, DfTypeOf;
  }

  lemma EvalCalls(I: Interp, row: Row, name: string, args: seq<Sql>)
    ensures Eval(I, row, Call(name, args)) == EvalCall(I, name, EvalAll(I, row, args))
  {
    hide EvalCall, DfTypeOf;
  }

  /** A UTC timestamp literal keeps its instant exactly if it has at most six fraction digits. */
  lemma UtcLiteralKept(I: Interp, row: Row, v: Wire.Scalar)
    requires !v.NoValue?
    ensures Eval(I, row, RenderLiteral(DataFusion, LitTimestampUtc(v)).value) == LiteralMeaning(I, LitTimestampUtc(v))
            <==> |DecimalText.TrimZeros(FractionDigits(ScalarText(v)))| <= 6
  {
    hide EvalCall, Eval, EvalAll, ArrowCast, BaseText, CutFraction, DecimalText.TrimZeros, FractionDigits;
    TextIsValue(v);
    var s := ScalarText(v);
    UtcCast(I, s);
    CutKeepsFraction(s, 6);
    var a, b := SqlStr(s + UTC_SUFFIX), SqlStr(UTC_MICROS);
    CallArrowCast(I, T(s + UTC_SUFFIX), T(UTC_MICROS));
    EvalCalls(I, row, "arrow_cast", [a, b]);
    EvalPair(I, row, a, b);
    EvalText(I, row, s + UTC_SUFFIX);
    EvalText(I, row, UTC_MICROS);
  }

  lemma EvalText(I: Interp, row: Row, s: string)
    ensures Eval(I, row, SqlStr(s)) == T(s)
  {
    hide EvalCall, DfTypeOf, ReadType, Picked, EvalAll, EvalBranches, BinMeaning, InThreeValued, Ranged, Liked, DfCast;
  }

  /** A timestamp literal keeps its moment exactly if it has at most nine fraction digits, six if it is no string. */
  lemma TimestampLiteralKept(I: Interp, row: Row, v: Wire.Scalar)
    requires !v.NoValue?
    ensures Eval(I, row, RenderLiteral(DataFusion, LitTimestamp(v)).value) == LiteralMeaning(I, LitTimestamp(v))
            <==> |DecimalText.TrimZeros(FractionDigits(ScalarText(v)))| <= (if v.Text? then 9 else 6)
  {
    hide EvalCall, Eval, EvalAll, ArrowCast, BaseText, CutFraction, DecimalText.TrimZeros, FractionDigits, ScalarText;
    TextIsValue(v);
    var s, ty := ScalarText(v), TimestampType(v);
    MomentCast(I, s);
    CutKeepsFraction(s, 6);
    CutKeepsFraction(s, 9);
    TextOfText(v);
    CallArrowCast(I, T(s), T(ty));
    EvalCalls(I, row, "arrow_cast", [SqlStr(s), SqlStr(ty)]);
    EvalPair(I, row, SqlStr(s), SqlStr(ty));
    EvalText(I, row, s);
    EvalText(I, row, ty);
  }

  lemma TextOfText(v: Wire.Scalar)
    ensures v.Text? ==> ScalarText(v) == v.s
  {
  }

  lemma MomentCast(I: Interp, s: string)
    ensures ArrowCast(I, T(s), T(MICROS)) == Moment(BaseText(s), CutFraction(s, 6))
    ensures ArrowCast(I, T(s), T(NANOS)) == Moment(BaseText(s), CutFraction(s, 9))
  {
    hide BaseText, CutFraction;
    UnitNames();
  }

  /** A boolean literal keeps its value exactly if it has one: without a value it goes out as FALSE. */
  lemma BoolLiteralKept(I: Interp, row: Row, v: Wire.Scalar)
    ensures Eval(I, row, RenderLiteral(DataFusion, LitBool(v)).value) == LiteralMeaning(I, LitBool(v)) <==> !v.NoValue?
  {
    hide EvalCall, DfTypeOf, ReadType;
  }

  lemma NullTimestampKept(I: Interp, row: Row)
    ensures Eval(I, row, RenderLiteral(DataFusion, LitTimestamp(NoValue)).value) == Null
  {
    hide EvalCall, DfTypeOf, ReadType;
    var e := Call("arrow_cast", [SqlNull, SqlStr(MICROS)]);
    CallArrowCast(I, Null, T(MICROS));
    assert EvalAll(I, row, e.args) == [Null, T(MICROS)];
  }

  lemma DoubleKept(I: Interp, row: Row, e: Sql)
    ensures Eval(I, row, Cast(e, [Word("DOUBLE")])) == DfCast(I, Eval(I, row, e), DoublePrecision)
  {
    assert [Word("DOUBLE")][0] != Word("VARCHAR");
  }

  /** The digits and values a literal must have for its DataFusion form to keep its value. */
  predicate LiteralFaithful(n: Node)
    requires IsLiteral(n)
  {
    match n
    case LitBool(v) => !v.NoValue?
    case LitTimestamp(v) =>
      v.NoValue? || |DecimalText.TrimZeros(FractionDigits(ScalarText(v)))| <= (if v.Text? then 9 else 6)
    case LitTimestampUtc(v) => v.NoValue? || |DecimalText.TrimZeros(FractionDigits(ScalarText(v)))| <= 6
    case _ => true
  }

  lemma LiteralKept(I: Interp, row: Row, n: Node)
    requires IsLiteral(n) && LiteralFaithful(n) && RenderLiteral(DataFusion, n).Some?
    ensures Eval(I, row, RenderLiteral(DataFusion, n).value) == LiteralMeaning(I, n)
  {
    hide EvalCall, DfTypeOf, ReadType, ScalarText, ValueText;
    if !n.LitNull? {
      TextIsValue(n.value);
    }
    match n
    case LitBool(v) => BoolLiteralKept(I, row, v);
    case LitTimestamp(v) => if v.NoValue? { NullTimestampKept(I, row); } else { TimestampLiteralKept(I, row, v); }
    case LitTimestampUtc(v) => if !v.NoValue? { UtcLiteralKept(I, row, v); }
    case LitDouble(v) => DoubleKept(I, row, Quoted(v));
    case _ =>
  }

  // ----- CAST and text

  lemma PlainTokens(t: ExasolType)
    requires t.Boolean? || t.Date? || t.Decimal?
    ensures DfTypeOf(TypeTokens(t)) == ReadType(TypeTokens(t))
  {
  }

  lemma SizedTimestamp(p: nat)
    ensures DfTypeOf([Word("TIMESTAMP")] + Sized(p)) == Some(Timestamp(p))
  {
    NatTextReadsBack(p);
    var ty := [Word("TIMESTAMP")] + Sized(p);
    assert |ty| == 4 && ty[0] == Word("TIMESTAMP") && ty[2] == Num(NatText(p));
  }

  /** The rendered target names the asked-for type; all character types become one. */
  lemma DfTypeKept(t: ExasolType)
    requires DfType(t).Ok?
    ensures DfTypeOf(DfType(t).value) == Some(if t.IsCharacter() then Varchar(MAX_VARCHAR_SIZE, false) else t)
  {
    match t
    case Boolean =>
      PlainTokens(t);
      TokensReadBack(t);
    case Date =>
      PlainTokens(t);
      TokensReadBack(t);
    case Decimal(_, _) =>
      PlainTokens(t);
      TokensReadBack(t);
    case Timestamp(p) => SizedTimestamp(p);
    case DoublePrecision => assert [Word("DOUBLE")][0] != Word("VARCHAR");
    case _ =>
  }

  lemma EvalConstants(I: Interp, row: Row, b: bool, s: string)
    ensures Eval(I, row, SqlBool(b)) == B(b) && Eval(I, row, SqlStr(s)) == T(s) && Eval(I, row, SqlNull) == Null
  {
    hide EvalCall, DfTypeOf, ReadType, Picked, EvalAll, EvalBranches, BinMeaning, InThreeValued, Ranged, Liked, DfCast;
  }

  lemma TwoBranches(I: Interp, row: Row, s: string, t: string)
    ensures EvalBranches(I, row, [Branch(SqlBool(true), SqlStr(s)), Branch(SqlBool(false), SqlStr(t))])
         == ([B(true), B(false)], [T(s), T(t)])
  {
    hide Eval;
    EvalConstants(I, row, true, s);
    EvalConstants(I, row, false, t);
    var bs := [Branch(SqlBool(true), SqlStr(s)), Branch(SqlBool(false), SqlStr(t))];
    var (conds, results) := EvalBranches(I, row, bs);
    assert conds == [B(true), B(false)] && results == [T(s), T(t)];
  }

  lemma PickOfTwo(I: Interp, v: Val, s: string, t: string)
    requires IsBoolean(v)
    ensures Picked(I, Some(v), [B(true), B(false)], [T(s), T(t)] + [Null])
         == match v case B(b) => T(if b then s else t) case _ => Null
  {
    var conds, all := [B(true), B(false)], [T(s), T(t)] + [Null];
    assert conds[1..] == [B(false)] && all[1..] == [T(t), Null];
    assert conds[1..][1..] == [] && all[1..][1..] == [Null];
    assert Picked(I, Some(v), [], [Null]) == Null;
    assert Picked(I, Some(v), conds[1..], all[1..]) == if v == B(false) then T(t) else Null;
  }

  lemma BoolTextKept(I: Interp, row: Row, e: Sql)
    requires IsBoolean(Eval(I, row, e))
    ensures Eval(I, row, BoolText(e)) ==
            match Eval(I, row, e) case B(b) => T(if b then "TRUE" else "FALSE") case _ => Null
  {
    hide Eval, Picked, EvalBranches;
    var bs := [Branch(SqlBool(true), SqlStr("TRUE")), Branch(SqlBool(false), SqlStr("FALSE"))];
    EvalParen(I, row, Case(Some(e), bs, Some(SqlNull)));
    EvalCase(I, row, Some(e), bs, Some(SqlNull));
    EvalConstants(I, row, true, "");
    TwoBranches(I, row, "TRUE", "FALSE");
    PickOfTwo(I, Eval(I, row, e), "TRUE", "FALSE");
  }

  /**
   A cast to text keeps its value exactly if the operand is of a boolean kind, or is neither a
   boolean nor a number whose decimal text has a fraction that ends in zero.
   */
  lemma TextCastKept(I: Interp, row: Row, operand: Node, e: Sql, t: ExasolType)
    requires Sane(I) && t.IsCharacter() && Eval(I, row, e) == Meaning(I, row, operand)
    ensures CastSql(DataFusion, operand, e, Some(t)).Ok?
    ensures Eval(I, row, CastSql(DataFusion, operand, e, Some(t)).value) == ExaCast(I, Meaning(I, row, operand), t)
            <==> TextAgrees(I, row, operand)
  {
    hide EvalCall, DfTypeOf, ReadType, ShortText, Eval, Meaning, BoolText, DfType, DfText;
    var v := Meaning(I, row, operand);
    TextsAgree(I, v);
    EvalTextCast(I, row, e, t);
    DfTypeKept(t);
    if BooleanKind(operand) {
      BooleanKindIsBoolean(I, row, operand);
      BoolTextKept(I, row, e);
    }
  }

  lemma EvalTextCast(I: Interp, row: Row, e: Sql, t: ExasolType)
    requires t.IsCharacter()
    ensures DfType(t).Ok?
    ensures var v := Eval(I, row, e);
            Eval(I, row, Cast(e, DfType(t).value)) == if v.Null? then Null else T(DfText(I, v))
  {
    hide EvalCall, DfTypeOf, ReadType, DfText, EvalAll, EvalBranches, Picked;
    DfTypeKept(t);
  }

  /** Of a boolean kind, or neither a boolean nor a number that is printed with zeros to spare. */
  ghost predicate TextAgrees(I: Interp, row: Row, n: Node)
  {
    var v := Meaning(I, row, n);
    IsPredicate(n) || (!v.B? && (v.N? ==> !SpareZeros(I.show(v))))
  }

  lemma TextsAgree(I: Interp, v: Val)
    requires Sane(I)
    ensures ExaText(I, v) == DfText(I, v) <==> !v.B? && (v.N? ==> !SpareZeros(I.show(v)))
  {
    hide ShortText, IsDecimalText, SpareZeros;
    if v.N? {
      assert v == N(v.q);
      ShortTextKept(I.show(v));
    }
    if v.B? {
      assert ExaText(I, v)[0] != DfText(I, v)[0];
    }
  }

  lemma VarcharCast(I: Interp, row: Row, e: Sql)
    ensures Eval(I, row, Cast(e, [Word("VARCHAR")])) == DfCast(I, Eval(I, row, e), Varchar(MAX_VARCHAR_SIZE, false))
  {
    hide EvalCall, ReadType;
  }

  lemma EvalTriple(I: Interp, row: Row, a: Sql, s: string, t: string)
    ensures EvalAll(I, row, [a, SqlStr(s), SqlStr(t)]) == [Eval(I, row, a), T(s), T(t)]
  {
    hide EvalCall, DfTypeOf;
  }

  lemma RegexpKept(I: Interp, s: string)
    requires IsDecimalText(s)
    ensures RegexpReplace(I, RegexpReplace(I, T(s), T(KEEP_NONZERO), T(KEEP_GROUP)), T(ZERO_FRACTION), T(""))
            == T(ShortText(s))
  {
    hide DecimalText.DropTrailingZeros, DecimalText.DropZeroFraction, ShortText;
    assert KEEP_NONZERO[0] != ZERO_FRACTION[0];
    ShortTextIsStyle(s);
  }

  /** The nested replacements give a number Exasol's own text. */
  lemma DecimalKept(I: Interp, row: Row, e: Sql)
    requires Sane(I) && (Eval(I, row, e).N? || Eval(I, row, e).Null?)
    ensures Eval(I, row, DecimalSql(e)) == ExaCast(I, Eval(I, row, e), Varchar(MAX_VARCHAR_SIZE, false))
  {
    hide EvalCall, DfTypeOf, Eval, ShortText, RegexpReplace;
    var v := Eval(I, row, e);
    var c := Cast(e, [Word("VARCHAR")]);
    var inner := Call("regexp_replace", [c, SqlStr(KEEP_NONZERO), SqlStr(KEEP_GROUP)]);
    VarcharCast(I, row, e);
    var w := Eval(I, row, c);
    EvalCalls(I, row, "regexp_replace", inner.args);
    EvalTriple(I, row, c, KEEP_NONZERO, KEEP_GROUP);
    CallRegexp(I, w, T(KEEP_NONZERO), T(KEEP_GROUP));
    EvalCalls(I, row, "regexp_replace", DecimalSql(e).args);
    EvalTriple(I, row, inner, ZERO_FRACTION, "");
    CallRegexp(I, Eval(I, row, inner), T(ZERO_FRACTION), T(""));
    if v.N? {
      RegexpKept(I, I.show(v));
    } else {
      RegexpNull(I, T(KEEP_NONZERO), T(KEEP_GROUP));
      RegexpNull(I, T(ZERO_FRACTION), T(""));
    }
  }

  lemma RegexpNull(I: Interp, p: Val, w: Val)
    ensures RegexpReplace(I, Null, p, w) == Null
  {
  }

  lemma ShortTextIsStyle(s: string)
    requires IsDecimalText(s)
    ensures ShortText(s) == DecimalText.DropZeroFraction(DecimalText.DropTrailingZeros(s))
  {
    var n :| DecimalText.Valid(n) && DecimalText.Text(n) == s && ShortText(s) == DecimalText.Text(DecimalText.Short(n));
    DecimalText.ExasolStyleOf(n);
  }

  // ----- junctions, CASE, guards

  lemma AllOfStep(vs: seq<Val>, v: Val)
    requires IsBoolean(v)
    ensures AllOf(vs + [v]) == And3(AllOf(vs), v)
    ensures AnyOf(vs + [v]) == Or3(AnyOf(vs), v)
  {
    var ws := vs + [v];
    assert forall w :: w in ws <==> w in vs || w == v;
    if w :| w in vs && w != B(true) {
      assert w in ws;
    }
    if w :| w in vs && w != B(false) {
      assert w in ws;
    }
    assert v in ws;
  }

  lemma EvalBin(I: Interp, row: Row, op: BinOp, l: Sql, x: Sql)
    ensures Eval(I, row, Bin(op, l, x)) == BinMeaning(I, op, Eval(I, row, l), Eval(I, row, x))
  {
    hide EvalCall, DfTypeOf, ReadType, Picked, EvalAll, EvalBranches, BinMeaning;
  }

  lemma SingleOf(v: Val)
    requires IsBoolean(v)
    ensures AllOf([v]) == v && AnyOf([v]) == v
  {
    assert v in [v];
  }

  lemma {:induction false} ChainKept(I: Interp, row: Row, parts: seq<Sql>)
    requires parts != [] && forall v | v in EvalAll(I, row, parts) :: IsBoolean(v)
    ensures Eval(I, row, Chain(AndOp, parts)) == AllOf(EvalAll(I, row, parts))
    ensures Eval(I, row, Chain(OrOp, parts)) == AnyOf(EvalAll(I, row, parts))
  {
    hide EvalCall, DfTypeOf, Eval, AllOf, AnyOf;
    var vs := EvalAll(I, row, parts);
    if |parts| == 1 {
      SingleOf(Eval(I, row, parts[0]));
      assert vs == [Eval(I, row, parts[0])];
    } else {
      var front, last := parts[..|parts| - 1], parts[|parts| - 1];
      var ws := EvalAll(I, row, front);
      assert vs == ws + [Eval(I, row, last)];
      ChainKept(I, row, front);
      assert Eval(I, row, last) in vs;
      AllOfStep(ws, Eval(I, row, last));
      EvalBin(I, row, AndOp, Chain(AndOp, front), last);
      EvalBin(I, row, OrOp, Chain(OrOp, front), last);
    }
  }

  lemma JoinKept(I: Interp, row: Row, isAnd: bool, parts: seq<Sql>)
    requires forall v | v in EvalAll(I, row, parts) :: IsBoolean(v)
    ensures Eval(I, row, JoinParts(isAnd, parts)) ==
            if isAnd then AllOf(EvalAll(I, row, parts)) else AnyOf(EvalAll(I, row, parts))
  {
    hide EvalCall, DfTypeOf, ReadType, Eval, Chain;
    if parts == [] {
      EvalConstants(I, row, isAnd, "");
    } else {
      ChainKept(I, row, parts);
      if |parts| == 1 {
        assert EvalAll(I, row, parts) == [Eval(I, row, parts[0])];
        SingleOf(Eval(I, row, parts[0]));
      } else {
        EvalParen(I, row, Chain(if isAnd then AndOp else OrOp, parts));
      }
    }
  }

  lemma {:induction false} PickedPadded(I: Interp, basis: Option<Val>, conds: seq<Val>, results: seq<Val>)
    requires |results| == |conds|
    ensures Picked(I, basis, conds, results + [Null]) == Picked(I, basis, conds, results)
  {
    if conds != [] {
      assert (results + [Null])[1..] == results[1..] + [Null];
      PickedPadded(I, basis, conds[1..], results[1..]);
    }
  }

  lemma PairsKept(I: Interp, row: Row, conds: seq<Sql>, results: seq<Sql>)
    requires |conds| <= |results|
    ensures EvalBranches(I, row, Pairs(conds, results))
            == (EvalAll(I, row, conds), EvalAll(I, row, results)[..|conds|])
  {
    hide EvalCall, DfTypeOf, Eval;
    var (cs, rs) := EvalBranches(I, row, Pairs(conds, results));
    assert cs == EvalAll(I, row, conds);
    assert rs == EvalAll(I, row, results)[..|conds|];
  }

  function BasisValue(I: Interp, row: Row, basis: Option<Sql>): (r: Option<Val>)
  {
    if basis.Some? then Some(Eval(I, row, basis.value)) else None
  }

  lemma EvalCase(I: Interp, row: Row, basis: Option<Sql>, bs: seq<Branch>, els: Option<Sql>)
    ensures Eval(I, row, Case(basis, bs, els)) ==
            Picked(I, BasisValue(I, row, basis), EvalBranches(I, row, bs).0,
                   EvalBranches(I, row, bs).1 + [if els.Some? then Eval(I, row, els.value) else Null])
  {
    hide EvalCall, DfTypeOf, Picked, ReadType, EvalAll;
  }

  lemma CaseKept(I: Interp, row: Row, basis: Option<Sql>, conds: seq<Sql>, results: seq<Sql>)
    requires |results| == |conds| || |results| == |conds| + 1
    ensures Eval(I, row, CaseSql(basis, conds, results)) ==
            Picked(I, BasisValue(I, row, basis), EvalAll(I, row, conds), EvalAll(I, row, results))
  {
    hide EvalCall, DfTypeOf, Eval, Picked, EvalBranches, Pairs;
    var vs := EvalAll(I, row, results);
    PairsKept(I, row, conds, results);
    var c := CaseSql(basis, conds, results);
    EvalCase(I, row, basis, Pairs(conds, results), c.els);
    if |results| > |conds| {
      assert vs[..|conds|] + [vs[|conds|]] == vs;
    } else {
      assert vs[..|conds|] == vs;
      PickedPadded(I, BasisValue(I, row, basis), EvalAll(I, row, conds), vs);
    }
  }

  lemma {:induction false} NonNullAll(vs: seq<Val>)
    requires Null !in vs
    ensures NonNull(vs) == vs
  {
    if vs != [] {
      NonNullAll(vs[1..]);
      assert [vs[0]] + vs[1..] == vs;
    }
  }

  lemma EvalNullTest(I: Interp, row: Row, e: Sql)
    ensures Eval(I, row, IsNull(e)) == B(Eval(I, row, e).Null?)
  {
    hide EvalCall, DfTypeOf, ReadType, Picked, EvalAll, EvalBranches, BinMeaning, InThreeValued, Ranged, Liked, DfCast;
  }

  lemma NullTestsKept(I: Interp, row: Row, es: seq<Sql>)
    requires es != []
    ensures Eval(I, row, Chain(OrOp, NullTests(es))) == B(Null in EvalAll(I, row, es))
  {
    hide EvalCall, DfTypeOf, Chain, Eval, AnyOf, AllOf;
    var vs := EvalAll(I, row, es);
    var ts := EvalAll(I, row, NullTests(es));
    forall i | 0 <= i < |es| ensures ts[i] == B(vs[i].Null?) {
      EvalNullTest(I, row, es[i]);
    }
    ChainKept(I, row, NullTests(es));
    AnyNull(vs, ts);
  }

  lemma AnyNull(vs: seq<Val>, ts: seq<Val>)
    requires |ts| == |vs| && forall i :: 0 <= i < |vs| ==> ts[i] == B(vs[i].Null?)
    ensures AnyOf(ts) == B(Null in vs)
  {
    if Null in vs {
      var i :| 0 <= i < |vs| && vs[i] == Null;
      assert ts[i] == B(true);
    }
  }

  /** The guarding CASE makes DataFusion's NULL-skipping extreme NULL as soon as one argument is. */
  lemma GuardedKept(I: Interp, row: Row, name: string, op: string, es: seq<Sql>)
    requires es != [] && EvalCall(I, name, EvalAll(I, row, es)) == SkippingExtreme(I, op, EvalAll(I, row, es))
    ensures Eval(I, row, Guarded(name, es)) == Extreme(I, op, EvalAll(I, row, es))
  {
    hide EvalCall, DfTypeOf, Eval, Chain;
    var vs := EvalAll(I, row, es);
    var c := Branch(Chain(OrOp, NullTests(es)), SqlNull);
    NullTestsKept(I, row, es);
    EvalCalls(I, row, name, es);
    EvalCase(I, row, None, [c], Some(Call(name, es)));
    assert Eval(I, row, SqlNull) == Null by { EvalNull(I, row); }
    var (conds, results) := EvalBranches(I, row, [c]);
    assert conds == [B(Null in vs)] && results == [Null];
    var all := results + [SkippingExtreme(I, op, vs)];
    assert conds[1..] == [] && all[1..] == [SkippingExtreme(I, op, vs)];
    if Null !in vs {
      NonNullAll(vs);
    }
  }

  lemma EvalNull(I: Interp, row: Row)
    ensures Eval(I, row, SqlNull) == Null
  {
    hide EvalCall, DfTypeOf, ReadType, Picked, EvalAll, EvalBranches, BinMeaning, InThreeValued, Ranged, Liked, DfCast;
  }

  // ----- scalar functions

  lemma PlainKept(I: Interp, row: Row, w: string, es: seq<Sql>)
    requires IsPlain(w)
    ensures Eval(I, row, Call(DfName(w), es)) == FnMeaning(I, Plain(w), EvalAll(I, row, es))
  {
    hide EvalCall, DfTypeOf, Eval, DfName, IsPlain, Denoted;
    EvalCalls(I, row, DfName(w), es);
    CallPlain(I, w, EvalAll(I, row, es));
  }

  lemma ExtremeKept(I: Interp, row: Row, fn: Fn, es: seq<Sql>)
    requires es != [] && (fn.Greatest? || fn.Least?)
    ensures Eval(I, row, ApplyDf(fn, es).value) == FnMeaning(I, fn, EvalAll(I, row, es))
  {
    hide EvalCall, DfTypeOf, Eval, SkippingExtreme;
    var vs := EvalAll(I, row, es);
    if fn.Greatest? {
      CallGreatest(I, vs);
      GuardedKept(I, row, "greatest", "GREATEST", es);
    } else {
      CallLeast(I, vs);
      GuardedKept(I, row, "least", "LEAST", es);
    }
  }

  lemma EvalNumber(I: Interp, row: Row, n: string)
    ensures Eval(I, row, SqlNum(n)) == N(I.number(n))
  {
    hide EvalCall, DfTypeOf, ReadType, Picked, EvalAll, EvalBranches, BinMeaning, InThreeValued, Ranged, Liked, DfCast;
  }

  /** One call of two arguments. */
  lemma EvalCall2(I: Interp, row: Row, name: string, a: Sql, b: Sql)
    ensures Eval(I, row, Call(name, [a, b])) == EvalCall(I, name, [Eval(I, row, a), Eval(I, row, b)])
  {
    hide EvalCall, DfTypeOf, Eval;
    EvalCalls(I, row, name, [a, b]);
    EvalPair(I, row, a, b);
  }

  lemma ZeroKept(I: Interp, row: Row, fn: Fn, es: seq<Sql>)
    requires Sane(I) && |es| == 1 && (fn.NullIfZero? || fn.ZeroIfNull?)
    ensures Eval(I, row, ApplyDf(fn, es).value) == FnMeaning(I, fn, EvalAll(I, row, es))
  {
    hide EvalCall, DfTypeOf, Eval;
    var v := Eval(I, row, es[0]);
    EvalNumber(I, row, "0");
    EvalCall2(I, row, if fn.NullIfZero? then "nullif" else "coalesce", es[0], SqlNum("0"));
    CallNullif(I, v, N(0.0));
    CallCoalesce(I, v, N(0.0));
  }

  lemma DatePartKept(I: Interp, row: Row, f: string, e: Sql)
    ensures Eval(I, row, Call("date_part", [SqlStr(f), e])) == I.part(Upper(f), Eval(I, row, e))
  {
    hide EvalCall, DfTypeOf, Eval;
    EvalCall2(I, row, "date_part", SqlStr(f), e);
    EvalText(I, row, f);
    CallDatePart(I, f, Eval(I, row, e));
  }

  lemma RawPartKept(I: Interp, row: Row, f: string, e: Sql)
    ensures Eval(I, row, Call("date_part", [Unescaped(f), e])) == I.part(Upper(f), Eval(I, row, e))
  {
    hide EvalCall, DfTypeOf, Eval;
    EvalCall2(I, row, "date_part", Unescaped(f), e);
    EvalRaw(I, row, f);
    CallDatePart(I, f, Eval(I, row, e));
  }

  lemma EvalRaw(I: Interp, row: Row, s: string)
    ensures Eval(I, row, Unescaped(s)) == T(s)
  {
    hide EvalCall, DfTypeOf, ReadType, Picked, EvalAll, EvalBranches, BinMeaning, InThreeValued, Ranged, Liked, DfCast;
  }

  lemma FieldNames(f: DateField)
    ensures Upper(FieldName(f)) == FieldName(f) && Upper("week") == "WEEK" && Upper("epoch") == "EPOCH"
  {
  }

  lemma PartKept(I: Interp, row: Row, fn: Fn, es: seq<Sql>)
    requires |es| == 1 && (fn.Part? || fn.Week?)
    ensures Eval(I, row, ApplyDf(fn, es).value) == FnMeaning(I, fn, EvalAll(I, row, es))
  {
    hide EvalCall, DfTypeOf, Eval, FieldName;
    FieldNames(if fn.Part? then fn.field else YearField);
    DatePartKept(I, row, if fn.Part? then FieldName(fn.field) else "week", es[0]);
  }

  lemma EvalParen(I: Interp, row: Row, e: Sql)
    ensures Eval(I, row, Paren(e)) == Eval(I, row, e)
  {
    hide EvalCall, DfTypeOf, ReadType, Picked, EvalAll, EvalBranches, BinMeaning, InThreeValued, Ranged, Liked, DfCast;
  }

  lemma EvalRange(I: Interp, row: Row, x: Sql, lo: Sql, hi: Sql, esc: Option<string>)
    ensures Eval(I, row, Between(x, lo, hi)) == Ranged(I, Eval(I, row, x), Eval(I, row, lo), Eval(I, row, hi))
    ensures Eval(I, row, Like(x, lo, esc)) == Liked(I, Eval(I, row, x), Eval(I, row, lo), esc)
  {
    hide EvalCall, DfTypeOf, ReadType, Picked, EvalAll, EvalBranches, Ranged, Liked;
  }

  lemma EvalNot(I: Interp, row: Row, x: Sql)
    ensures Eval(I, row, Not(x)) == Not3(Eval(I, row, x))
  {
    hide EvalCall, DfTypeOf, ReadType, Picked, EvalAll, EvalBranches, Not3, BinMeaning, InThreeValued, Ranged;
    hide Liked, Negated, DfCast;
  }

  lemma EvalIsNull(I: Interp, row: Row, x: Sql)
    ensures Eval(I, row, IsNull(x)) == B(Eval(I, row, x).Null?)
  {
    hide EvalCall, DfTypeOf, ReadType, Picked, EvalAll, EvalBranches, Not3, BinMeaning, InThreeValued, Ranged;
    hide Liked, Negated, DfCast;
  }

  lemma EvalIsNotNull(I: Interp, row: Row, x: Sql)
    ensures Eval(I, row, IsNotNull(x)) == B(!Eval(I, row, x).Null?)
  {
    hide EvalCall, DfTypeOf, ReadType, Picked, EvalAll, EvalBranches, Not3, BinMeaning, InThreeValued, Ranged;
    hide Liked, Negated, DfCast;
  }

  lemma EvalColumn(I: Interp, row: Row, alias: Option<string>, name: string)
    ensures Eval(I, row, Col(alias, name)) == row(alias, name)
  {
    hide EvalCall, DfTypeOf, ReadType, Picked, EvalAll, EvalBranches, BinMeaning, InThreeValued, Ranged, Liked, DfCast;
  }

  lemma BinKept(I: Interp, row: Row, y: Symbol, a: Sql, b: Sql)
    ensures Eval(I, row, Paren(Bin(SymOp(y), a, b))) == SymbolMeaning(I, y, Eval(I, row, a), Eval(I, row, b))
  {
    hide EvalCall, DfTypeOf, Eval;
    EvalParen(I, row, Bin(SymOp(y), a, b));
    EvalBin(I, row, SymOp(y), a, b);
  }

  lemma EpochGapKept(I: Interp, row: Row, a: Sql, b: Sql)
    ensures Eval(I, row, EpochGap(a, b)) == Gap(I, Eval(I, row, a), Eval(I, row, b))
  {
    hide EvalCall, DfTypeOf, Eval;
    FieldNames(YearField);
    DatePartKept(I, row, "epoch", a);
    DatePartKept(I, row, "epoch", b);
    BinKept(I, row, MinusSym, Call("date_part", [SqlStr("epoch"), a]), Call("date_part", [SqlStr("epoch"), b]));
  }

  lemma TimeKept(I: Interp, row: Row, fn: Fn, es: seq<Sql>)
    requires Sane(I) && |es| == 2 && fn.TimeBetween?
    ensures Eval(I, row, ApplyDf(fn, es).value) == FnMeaning(I, fn, EvalAll(I, row, es))
  {
    hide EvalCall, DfTypeOf, Eval, Gap;
    EpochGapKept(I, row, es[0], es[1]);
    EvalNumber(I, row, "60");
    EvalNumber(I, row, "3600");
    BinKept(I, row, SlashSym, EpochGap(es[0], es[1]), SqlNum("60"));
    BinKept(I, row, SlashSym, EpochGap(es[0], es[1]), SqlNum("3600"));
  }

  lemma DateCast(I: Interp, row: Row, e: Sql)
    ensures Eval(I, row, Cast(e, [Word("DATE")])) == ExaCast(I, Eval(I, row, e), Date)
  {
    hide EvalCall, ReadType;
    PlainTokens(Date);
    TokensReadBack(Date);
  }

  lemma DaysKept(I: Interp, row: Row, es: seq<Sql>)
    requires |es| == 2
    ensures Eval(I, row, ApplyDf(DaysBetween, es).value) == FnMeaning(I, DaysBetween, EvalAll(I, row, es))
  {
    hide EvalCall, DfTypeOf, Eval, ExaCast;
    DateCast(I, row, es[0]);
    DateCast(I, row, es[1]);
    BinKept(I, row, MinusSym, Cast(es[0], [Word("DATE")]), Cast(es[1], [Word("DATE")]));
  }

  lemma PairKept(I: Interp, row: Row, fn: Fn, es: seq<Sql>)
    requires |es| == 2 && (fn.NullIf? || fn.Instr? || fn.Locate?)
    ensures Eval(I, row, ApplyDf(fn, es).value) == FnMeaning(I, fn, EvalAll(I, row, es))
  {
    hide EvalCall, DfTypeOf, Eval;
    var a, b := Eval(I, row, es[0]), Eval(I, row, es[1]);
    assert es == [es[0], es[1]] && EvalAll(I, row, es) == [a, b];
    assert [b, a] + [a, b][2..] == [b, a];
    EvalCall2(I, row, "nullif", es[0], es[1]);
    EvalCall2(I, row, "strpos", es[0], es[1]);
    EvalCall2(I, row, "strpos", es[1], es[0]);
    CallNullif(I, a, b);
    CallStrpos(I, a, b);
    CallStrpos(I, b, a);
  }

  lemma ConvertKept(I: Interp, row: Row, fn: Fn, es: seq<Sql>)
    requires |es| == 1 && (fn.ToDate? || fn.ToTimestamp?)
    ensures Eval(I, row, ApplyDf(fn, es).value) == FnMeaning(I, fn, EvalAll(I, row, es))
  {
    hide EvalCall, DfTypeOf, Eval;
    var vs := EvalAll(I, row, es);
    assert vs == [vs[0]];
    EvalCalls(I, row, if fn.ToDate? then "to_date" else "to_timestamp", es);
    CallToDate(I, vs[0]);
    CallToTimestamp(I, vs[0]);
  }

  /** Every DataFusion arm computes what Exasol's function computes. */
  lemma ApplyDfKept(I: Interp, row: Row, fn: Fn, es: seq<Sql>)
    requires Sane(I) && ApplyDf(fn, es).Ok? && Declared(fn)
    requires |es| == Used(DataFusion, fn, |es|)
    ensures Eval(I, row, ApplyDf(fn, es).value) == FnMeaning(I, fn, EvalAll(I, row, es))
  {
    hide Eval, FnMeaning, DfName, IsPlain, PlainArity;
    match fn
    case Plain(w) => PlainKept(I, row, w, es);
    case Greatest => ExtremeKept(I, row, fn, es);
    case Least => ExtremeKept(I, row, fn, es);
    case NullIf => PairKept(I, row, fn, es);
    case Instr => PairKept(I, row, fn, es);
    case Locate => PairKept(I, row, fn, es);
    case NullIfZero => ZeroKept(I, row, fn, es);
    case ZeroIfNull => ZeroKept(I, row, fn, es);
    case Part(_) => PartKept(I, row, fn, es);
    case Week => PartKept(I, row, fn, es);
    case ToDate => ConvertKept(I, row, fn, es);
    case ToTimestamp => ConvertKept(I, row, fn, es);
    case DaysBetween => DaysKept(I, row, es);
    case TimeBetween(_) => TimeKept(I, row, fn, es);
  }

  lemma ArithKept(I: Interp, row: Row, fn: Fn, es: seq<Sql>)
    requires |es| == 2 && (fn.Add? || fn.Sub? || fn.Mult? || fn.FloatDiv? || fn.Mod?)
    ensures Eval(I, row, Apply(DataFusion, fn, es).value) == FnMeaning(I, fn, EvalAll(I, row, es))
  {
    hide EvalCall, DfTypeOf, Eval;
    BinKept(I, row, ArithSymbol(fn), es[0], es[1]);
    EvalCall2(I, row, "vs_checked_float_div", es[0], es[1]);
    CallDivide(I, Eval(I, row, es[0]), Eval(I, row, es[1]));
  }

  lemma NegKept(I: Interp, row: Row, es: seq<Sql>)
    requires |es| == 1
    ensures Eval(I, row, Paren(Neg(es[0]))) == FnMeaning(I, NegFn, EvalAll(I, row, es))
  {
    hide EvalCall, DfTypeOf;
  }

  lemma CaseLengths<X>(xs: seq<X>)
    ensures |Conditions(xs)| == |xs| / 2 && |Outcomes(xs)| == |xs| / 2 + |xs| % 2
  {
  }

  lemma InterleavedKept(I: Interp, row: Row, es: seq<Sql>)
    requires |es| >= 2
    ensures Eval(I, row, CaseSql(None, Conditions(es), Outcomes(es))) == FnMeaning(I, CaseFn, EvalAll(I, row, es))
  {
    hide EvalCall, DfTypeOf, Eval, Picked, Conditions, Outcomes;
    CaseLengths(es);
    CaseLengths(EvalAll(I, row, es));
    CaseKept(I, row, None, Conditions(es), Outcomes(es));
    ConditionsKept(I, row, es);
    OutcomesKept(I, row, es);
    PickedInTurn(I, EvalAll(I, row, es));
  }

  /** Sorting the arguments into conditions and results picks what taking them in turn picks. */
  lemma {:induction false} PickedInTurn(I: Interp, vs: seq<Val>)
    ensures |Conditions(vs)| == |vs| / 2 && |Outcomes(vs)| == |vs| / 2 + |vs| % 2
    ensures Picked(I, None, Conditions(vs), Outcomes(vs)) == Chosen(vs)
  {
    if |vs| >= 2 {
      PickedInTurn(I, vs[2..]);
      assert Conditions(vs)[1..] == Conditions(vs[2..]);
      assert Outcomes(vs)[1..] == Outcomes(vs[2..]) by { OutcomesDrop(vs); }
    }
  }

  lemma OutcomesDrop(vs: seq<Val>)
    requires |vs| >= 2
    ensures Outcomes(vs)[1..] == Outcomes(vs[2..])
  {
    var a, b := Outcomes(vs)[1..], Outcomes(vs[2..]);
    assert |a| == |b|;
    forall i | 0 <= i < |a| ensures a[i] == b[i] {
      if i < |vs[2..]| / 2 {
        assert b[i] == vs[2..][2 * i + 1];
      }
    }
  }

  lemma ConditionsKept(I: Interp, row: Row, es: seq<Sql>)
    ensures EvalAll(I, row, Conditions(es)) == Conditions(EvalAll(I, row, es))
  {
    hide Eval;
  }

  lemma OutcomesKept(I: Interp, row: Row, es: seq<Sql>)
    ensures EvalAll(I, row, Outcomes(es)) == Outcomes(EvalAll(I, row, es))
  {
    hide Eval;
    var vs := EvalAll(I, row, es);
    assert |Outcomes(es)| == |Outcomes(vs)|;
    forall i | 0 <= i < |Outcomes(es)| ensures EvalAll(I, row, Outcomes(es))[i] == Outcomes(vs)[i] {
      if i < |es| / 2 {
        assert Outcomes(es)[i] == es[2 * i + 1] && Outcomes(vs)[i] == vs[2 * i + 1];
      }
    }
  }

  lemma ApplyKept(I: Interp, row: Row, fn: Fn, es: seq<Sql>)
    requires Sane(I) && Apply(DataFusion, fn, es).Ok? && Declared(fn)
    requires |es| == Used(DataFusion, fn, |es|) && !fn.Concat?
    ensures Eval(I, row, Apply(DataFusion, fn, es).value) == FnMeaning(I, fn, EvalAll(I, row, es))
  {
    hide Eval, FnMeaning, ApplyDf, IsPlain;
    match fn
    case Add => ArithKept(I, row, fn, es);
    case Sub => ArithKept(I, row, fn, es);
    case Mult => ArithKept(I, row, fn, es);
    case FloatDiv => ArithKept(I, row, fn, es);
    case Mod => ArithKept(I, row, fn, es);
    case NegFn => NegKept(I, row, es);
    case CaseFn => InterleavedKept(I, row, es);
    case _ => ApplyDfKept(I, row, fn, es);
  }
}

/**
 Where the DataFusion rendering changes a value: a concrete case of each kind, and beside it the
 exact condition under which the value stays.
 */
module Discrepancies {
  import opened Common
  import opened SqlText
  import opened SqlTree
  import opened ExasolTypes
  import opened Wire
  import opened Renderer
  import opened ExasolMeaning
  import opened Evaluate
  import opened Preserve
  import opened MeaningPreserved
  import opened Checked
  import DecimalText
  import DfCalls

  /** Some interpretation meets `Sane`, so statements about all sane ones are not empty. */
  function Plainest(): (I: Interp)
  {
    Interp((s: string) => NatValue(s) as real, (s: string) => 0.0, (a: Val, b: Val) => a == b,
           (a: Val, b: Val) => false, (y: Symbol, a: Val, b: Val) => a, (w: string, vs: seq<Val>) => Null,
           (a: Val, b: Val, e: Option<string>) => false,
           (v: Val, t: ExasolType) => v, (f: string, v: Val) => v, (t: DateFormat.FormatTarget, f: string, v: Val) => v,
           (v: Val) => "0")
  }

  lemma PlainestIsSane()
    ensures Sane(Plainest())
  {
    assert "0"[..0] == "" && "60"[..1] == "6" && "6"[..0] == "";
    assert "3600"[..3] == "360" && "360"[..2] == "36" && "36"[..1] == "3" && "3"[..0] == "";
    assert NatValue("3") == 3 && NatValue("36") == 36 && NatValue("360") == 360 && NatValue("6") == 6;
    var n := DecimalText.Numeral(false, "0", None);
    assert DecimalText.Valid(n) && DecimalText.Text(n) == "0";
    assert IsDecimalText("0");
  }

  // ----- IN lists and the literal that DataFusion's dialect skips

  predicate Kept(m: Node) { !m.LitTstz? && !IsNullLiteral(m) }

  predicate Skipped(m: Node) { m.LitTstz? && !m.value.NoValue? }

  /** A literal entry as a request sends it. */
  predicate ConstantEntry(m: Node)
  {
    IsLiteral(m) && (IsNullLiteral(m) || LiteralFaithful(m))
  }

  ghost predicate EqualityLaws(I: Interp)
  {
    && (forall a: Val :: !a.Null? ==> Same(I, a, a))
    && (forall a: Val, b: Val, c: Val :: Same(I, a, b) && Same(I, b, c) ==> Same(I, a, c))
  }

  lemma SameTransitive(I: Interp, a: Val, b: Val, c: Val)
    requires EqualityLaws(I) && Same(I, a, b) && Same(I, b, c)
    ensures Same(I, a, c)
  {
    hide Same;
  }

  lemma SameReflexive(I: Interp, a: Val)
    requires EqualityLaws(I) && !a.Null?
    ensures Same(I, a, a)
  {
    hide Same;
  }

  /** The value of a constant, the same on every row. */
  function Constant(I: Interp, m: Node): (v: Val)
  {
    if IsLiteral(m) then LiteralMeaning(I, m) else Null
  }

  /** The values of the entries that are rendered. */
  function KeptValues(I: Interp, ms: seq<Node>): (vs: seq<Val>)
  {
    if ms == [] then []
    else if Kept(ms[0]) then [Constant(I, ms[0])] + KeptValues(I, ms[1..])
    else KeptValues(I, ms[1..])
  }

  predicate Constants(ms: seq<Node>) { forall m | m in ms :: ConstantEntry(m) }

  lemma ConstantRenders(I: Interp, row: Row, m: Node)
    requires ConstantEntry(m)
    ensures Render(DataFusion, m) == Ok(RenderLiteral(DataFusion, m))
    ensures RenderLiteral(DataFusion, m).Some? <==> !m.LitTstz?
    ensures Kept(m) ==> Eval(I, row, RenderLiteral(DataFusion, m).value) == Constant(I, m)
    ensures Meaning(I, row, m) == Constant(I, m)
    ensures Kept(m) || Skipped(m) <==> !Constant(I, m).Null?
  {
    hide Eval;
    if Kept(m) {
      LiteralKept(I, row, m);
    }
  }

  lemma {:induction false} KeptEntries(I: Interp, row: Row, ms: seq<Node>)
    requires Constants(ms)
    ensures Entries(DataFusion, ms).Ok? && EvalAll(I, row, Entries(DataFusion, ms).value) == KeptValues(I, ms)
    ensures Null !in KeptValues(I, ms)
    ensures forall k | k in ms && Kept(k) :: Constant(I, k) in KeptValues(I, ms)
    ensures forall v | v in KeptValues(I, ms) :: v in Meanings(I, row, ms)
  {
    hide Eval, Constant, LiteralFaithful, RenderLiteral, Meaning;
    if ms != [] {
      var m, rest := ms[0], ms[1..];
      KeptEntries(I, row, rest);
      assert ms == [m] + rest;
      ConstantRenders(I, row, m);
      var es := Entries(DataFusion, rest).value;
      if Kept(m) {
        var e := RenderLiteral(DataFusion, m).value;
        assert ([e] + es)[1..] == es;
      }
    }
  }

  /** Each skipped value equals a kept one. */
  ghost predicate SkippedCovered(I: Interp, ms: seq<Node>)
  {
    forall m | m in ms && Skipped(m) :: Covered(I, Constant(I, m), KeptValues(I, ms))
  }

  /** IN over the kept values. */
  function AmongKept(I: Interp, x: Val, ks: seq<Val>): (r: Val)
  {
    if ks == [] then B(false) else if x.Null? then Null else B(exists k | k in ks :: Same(I, x, k))
  }

  lemma InEvaluates(I: Interp, row: Row, target: Sql, es: seq<Sql>)
    requires Null !in EvalAll(I, row, es)
    ensures Eval(I, row, InSql(target, es)) == AmongKept(I, Eval(I, row, target), EvalAll(I, row, es))
  {
    hide EvalCall, DfTypeOf, Same;
  }

  ghost predicate Covered(I: Interp, w: Val, ks: seq<Val>) { exists k | k in ks :: Same(I, w, k) }

  lemma AmongAgrees(I: Interp, x: Val, ks: seq<Val>, vs: seq<Val>)
    requires EqualityLaws(I) && Null !in ks
    requires forall k | k in ks :: k in vs
    requires forall w | w in vs && !w.Null? :: Covered(I, w, ks)
    ensures AmongKept(I, x, ks) == Within(I, x, vs)
  {
    hide Same, EqualityLaws, Covered;
    if w :| w in vs && !w.Null? && Same(I, x, w) {
      CoveredStep(I, x, w, ks);
    }
    if w :| w in vs && !w.Null? {
      assert Covered(I, w, ks);
      CoveredNonEmpty(I, w, ks);
    }
    if ks != [] {
      assert ks[0] in ks;
    }
  }

  lemma CoveredStep(I: Interp, x: Val, w: Val, ks: seq<Val>)
    requires EqualityLaws(I) && Same(I, x, w) && Covered(I, w, ks)
    ensures exists k | k in ks :: Same(I, x, k)
  {
    hide Same, EqualityLaws;
    var k :| k in ks && Same(I, w, k);
    SameTransitive(I, x, w, k);
  }

  lemma CoveredNonEmpty(I: Interp, w: Val, ks: seq<Val>)
    requires Covered(I, w, ks)
    ensures ks != []
  {
  }

  lemma NotAmong(I: Interp, x: Val, ks: seq<Val>)
    requires !x.Null? && !Covered(I, x, ks)
    ensures AmongKept(I, x, ks) == B(false)
  {
    hide Same;
  }

  lemma IsWithin(I: Interp, x: Val, vs: seq<Val>)
    requires EqualityLaws(I) && !x.Null? && x in vs
    ensures Within(I, x, vs) == B(true)
  {
    hide Same, EqualityLaws;
    SameReflexive(I, x);
  }

  lemma InMeans(I: Interp, row: Row, c: string, ms: seq<Node>)
    ensures Meaning(I, row, InList(Column(Some(c), None), ms)) == Within(I, row(None, Upper(c)), Meanings(I, row, ms))
  {
    hide Within;
  }

  lemma CoveredValues(I: Interp, row: Row, ms: seq<Node>, w: Val)
    requires EqualityLaws(I) && Constants(ms) && SkippedCovered(I, ms) && w in Meanings(I, row, ms) && !w.Null?
    ensures Covered(I, w, KeptValues(I, ms))
  {
    hide Eval, Constant, Same, ConstantEntry, Meaning, EqualityLaws;
    var i :| 0 <= i < |ms| && Meanings(I, row, ms)[i] == w;
    assert ms[i] in ms;
    ConstantRenders(I, row, ms[i]);
    if Kept(ms[i]) {
      KeptEntries(I, row, ms);
      SameReflexive(I, w);
    }
  }

  lemma InAgreesOnRow(I: Interp, row: Row, c: string, ms: seq<Node>)
    requires EqualityLaws(I) && Constants(ms) && SkippedCovered(I, ms) && Entries(DataFusion, ms).Ok?
    ensures Eval(I, row, InSql(Col(None, Upper(c)), Entries(DataFusion, ms).value))
            == Meaning(I, row, InList(Column(Some(c), None), ms))
  {
    hide Eval, Meaning, Meanings, Entries, KeptValues, Constants, InSql, AmongKept, Within;
    hide EqualityLaws, SkippedCovered, Covered;
    KeptEntries(I, row, ms);
    var es := Entries(DataFusion, ms).value;
    InEvaluates(I, row, Col(None, Upper(c)), es);
    EvalColumn(I, row, None, Upper(c));
    InMeans(I, row, c, ms);
    var ks, vs := KeptValues(I, ms), Meanings(I, row, ms);
    forall w | w in vs && !w.Null? ensures Covered(I, w, ks) {
      CoveredValues(I, row, ms, w);
    }
    AmongAgrees(I, row(None, Upper(c)), ks, vs);
  }

  lemma InDiffersSomewhere(I: Interp, c: string, ms: seq<Node>) returns (row: Row)
    requires EqualityLaws(I) && Constants(ms) && !SkippedCovered(I, ms) && Entries(DataFusion, ms).Ok?
    ensures Eval(I, row, InSql(Col(None, Upper(c)), Entries(DataFusion, ms).value))
            != Meaning(I, row, InList(Column(Some(c), None), ms))
  {
    hide Eval, Meaning, Entries, KeptValues, LiteralFaithful, InSql, AmongKept, Within, EqualityLaws, Covered, Constant;
    var m :| m in ms && Skipped(m) && !Covered(I, Constant(I, m), KeptValues(I, ms));
    var x := Constant(I, m);
    row := (a: Option<string>, name: string) => x;
    ConstantRenders(I, row, m);
    KeptEntries(I, row, ms);
    InEvaluates(I, row, Col(None, Upper(c)), Entries(DataFusion, ms).value);
    EvalColumn(I, row, None, Upper(c));
    InMeans(I, row, c, ms);
    var i :| 0 <= i < |ms| && ms[i] == m;
    assert Meanings(I, row, ms)[i] == x;
    NotAmong(I, x, KeptValues(I, ms));
    IsWithin(I, x, Meanings(I, row, ms));
  }

  lemma InRenders(c: string, ms: seq<Node>)
    requires Entries(DataFusion, ms).Ok?
    ensures Render(DataFusion, InList(Column(Some(c), None), ms))
            == Ok(Some(InSql(Col(None, Upper(c)), Entries(DataFusion, ms).value)))
  {
    hide InSql;
    assert Need(DataFusion, Column(Some(c), None)) == Ok(Col(None, Upper(c)));
  }

  /**
   A constant IN list over a column keeps its value on every row exactly if every
   `literal_timestamputc` entry, which is skipped without an error, equals an entry that is kept.
   */
  lemma InListKeptExactly(I: Interp, c: string, ms: seq<Node>)
    requires EqualityLaws(I) && Constants(ms)
    ensures var n := InList(Column(Some(c), None), ms);
            && Render(DataFusion, n).Ok? && Render(DataFusion, n).value.Some?
            && ((forall row: Row :: Eval(I, row, Render(DataFusion, n).value.value) == Meaning(I, row, n))
                <==> SkippedCovered(I, ms))
  {
    hide Eval, Meaning, EqualityLaws, Constants, InSql, SkippedCovered;
    var n := InList(Column(Some(c), None), ms);
    KeptEntries(I, (a: Option<string>, name: string) => Null, ms);
    InRenders(c, ms);
    if SkippedCovered(I, ms) {
      forall row: Row ensures Eval(I, row, Render(DataFusion, n).value.value) == Meaning(I, row, n) {
        InAgreesOnRow(I, row, c, ms);
      }
    } else {
      var row := InDiffersSomewhere(I, c, ms);
    }
  }

  // ----- concrete cases

  const STAMP := "2024-01-01 00:00:00"

  /** `x IN (<timestamputc literal>)` renders to FALSE, though a row can match. */
  lemma InListCanLoseItsEntry(I: Interp)
    requires EqualityLaws(I)
    ensures var n := InList(Column(Some("x"), None), [LitTstz(Text(STAMP))]);
            && Render(DataFusion, n) == Ok(Some(SqlBool(false)))
            && exists row: Row :: Meaning(I, row, n) != B(false)
  {
    hide Same, Eval, Constant, Meaning, EqualityLaws;
    var m := LitTstz(Text(STAMP));
    var ms := [m];
    assert ms[1..] == [];
    assert Entries(DataFusion, ms) == Ok([]);
    InRenders("x", ms);
    assert Constants(ms) && m in ms && Skipped(m);
    assert KeptValues(I, ms) == [];
    assert !SkippedCovered(I, ms);
    var row := InDiffersSomewhere(I, "x", ms);
    assert Eval(I, row, SqlBool(false)) == B(false) by { EvalFalse(I, row); }
  }

  lemma EvalFalse(I: Interp, row: Row)
    ensures Eval(I, row, SqlBool(false)) == B(false)
  {
    hide EvalCall, DfTypeOf;
  }

  /** A boolean column cast to text comes out in lower case. */
  lemma BooleanColumnLosesItsCasing(I: Interp)
    requires Sane(I)
    ensures var n := CastNode([Column(Some("x"), None)], Some(Varchar(5, false)));
            && Render(DataFusion, n).Ok? && Render(DataFusion, n).value.Some?
            && exists row: Row :: Eval(I, row, Render(DataFusion, n).value.value) != Meaning(I, row, n)
  {
    hide Render, Eval, Meaning, Sane, HasKind;
    ColumnTextKeptExactly(I, "x", Varchar(5, false), BoolKind);
  }

  /** Both engines write every value of the kind alike. */
  ghost predicate KeepsText(I: Interp, k: Kind)
  {
    match k
    case BoolKind => false
    case AnyKind => false
    case NumKind => forall q: real :: !SpareZeros(I.show(N(q)))
    case _ => true
  }

  lemma ColumnTextOnRow(I: Interp, row: Row, x: string, t: ExasolType)
    requires Sane(I) && t.IsCharacter()
    ensures var n := CastNode([Column(Some(x), None)], Some(t));
      && Render(DataFusion, n).Ok? && Render(DataFusion, n).value.Some?
      && (Eval(I, row, Render(DataFusion, n).value.value) == Meaning(I, row, n)
          <==> var v := row(None, Upper(x)); !v.B? && (v.N? ==> !SpareZeros(I.show(v))))
  {
    hide EvalCall, Eval, CastSql, ExaCast, Sane, SpareZeros;
    var c, e := Column(Some(x), None), Col(None, Upper(x));
    EvalColumn(I, row, None, Upper(x));
    TextCastKept(I, row, c, e, t);
    CastRenders(c, e, t);
  }

  /** Some value of a kind whose text is not kept */
  ghost function Witness(I: Interp, k: Kind): (v: Val)
    requires !KeepsText(I, k)
  {
    if k.NumKind? then var q: real :| SpareZeros(I.show(N(q))); N(q) else B(true)
  }

  /**
   A column cast to text keeps its value on every row exactly if the column holds no booleans, and
   no numbers unless every number is written without a fraction that ends in zero.
   */
  lemma ColumnTextKeptExactly(I: Interp, x: string, t: ExasolType, k: Kind)
    requires Sane(I) && t.IsCharacter()
    ensures var n := CastNode([Column(Some(x), None)], Some(t));
      && Render(DataFusion, n).Ok? && Render(DataFusion, n).value.Some?
      && ((forall row: Row :: HasKind(I, row(None, Upper(x)), k) ==>
             Eval(I, row, Render(DataFusion, n).value.value) == Meaning(I, row, n))
          <==> KeepsText(I, k))
  {
    hide Render, Eval, Meaning, Sane, SpareZeros;
    var n := CastNode([Column(Some(x), None)], Some(t));
    ColumnTextOnRow(I, (a: Option<string>, name: string) => Null, x, t);
    if KeepsText(I, k) {
      forall row: Row | HasKind(I, row(None, Upper(x)), k)
        ensures Eval(I, row, Render(DataFusion, n).value.value) == Meaning(I, row, n)
      {
        ColumnTextOnRow(I, row, x, t);
        var v := row(None, Upper(x));
        assert v.N? ==> v == N(v.q);
      }
    } else {
      var w := Witness(I, k);
      var row: Row := (a: Option<string>, name: string) => w;
      assert row(None, Upper(x)) == w;
      ColumnTextOnRow(I, row, x, t);
    }
  }

  lemma CastRenders(c: Node, e: Sql, t: ExasolType)
    requires c.Column? && c.name.Some? && c.alias.None? && e == Col(None, Upper(c.name.value))
    requires CastSql(DataFusion, c, e, Some(t)).Ok?
    ensures Render(DataFusion, CastNode([c], Some(t))) == Ok(Some(CastSql(DataFusion, c, e, Some(t)).value))
  {
    hide CastSql;
    assert Need(DataFusion, c) == Ok(e);
  }

  lemma {:induction false} FractionOf(a: string, f: string)
    requires '.' !in a
    ensures FractionDigits(a + "." + f) == f
  {
    var s := a + "." + f;
    if a == "" {
      assert s[1..] == f;
    } else {
      FractionOf(a[1..], f);
      assert s[1..] == a[1..] + "." + f;
    }
  }

  /** Any UTC timestamp literal that ends in seven fraction digits, the last not zero, loses its last digit. */
  lemma SeventhDigitIsLost(I: Interp, row: Row, time: string, f: string)
    requires '.' !in time && |f| == 7 && f[6] != '0'
    ensures var n := LitTimestampUtc(Text(time + "." + f));
      Eval(I, row, RenderLiteral(DataFusion, n).value) != LiteralMeaning(I, n)
  {
    hide Eval, LiteralMeaning, RenderLiteral;
    FractionOf(time, f);
    UtcLiteralKept(I, row, Text(time + "." + f));
  }

  /**
   Any timestamp literal that ends in ten fraction digits, the last not zero, loses its last digit.
   Exasol sends no such literal: its timestamps hold at most nine.
   */
  lemma TenthDigitIsLost(I: Interp, row: Row, time: string, f: string)
    requires '.' !in time && |f| == 10 && f[9] != '0'
    ensures var n := LitTimestamp(Text(time + "." + f));
      Eval(I, row, RenderLiteral(DataFusion, n).value) != LiteralMeaning(I, n)
  {
    hide Eval, LiteralMeaning, RenderLiteral;
    FractionOf(time, f);
    TimestampLiteralKept(I, row, Text(time + "." + f));
  }

  // ----- other NULLs and surplus arguments

  /** A boolean literal without a value means NULL and goes out as FALSE. */
  lemma NullBooleanGoesOutFalse(I: Interp, row: Row)
    ensures Render(DataFusion, LitBool(NoValue)) == Ok(Some(SqlBool(false)))
    ensures Eval(I, row, SqlBool(false)) == B(false) && Meaning(I, row, LitBool(NoValue)) == Null
  {
    EvalFalse(I, row);
  }

  const ONE := LitExact(Number("1"))

  /** `x IN (1, NULLIF(1, 1))`: the second entry is NULL but no literal, so it is kept. */
  const NULL_ENTRY := InList(Column(Some("x"), None), [ONE, Wire.Scalar(NullIf, [ONE, ONE])])

  /** Where x is neither NULL nor 1, that list is false in Exasol and open in DataFusion. */
  lemma NullEntryIsKept(I: Interp, row: Row)
    requires Sane(I) && row(None, Upper("x")) == N(I.number("1") + 1.0)
    ensures Render(DataFusion, NULL_ENTRY).Ok? && Render(DataFusion, NULL_ENTRY).value.Some?
    ensures Eval(I, row, Render(DataFusion, NULL_ENTRY).value.value) != Meaning(I, row, NULL_ENTRY)
  {
    hide Render, Eval, Sane, InAgrees, Same, Meaning, Faithful, Entries;
    var second := Wire.Scalar(NullIf, [ONE, ONE]);
    var e, v := Column(Some("x"), None), N(I.number("1") + 1.0);
    OneMeans(I, row);
    NullIfRenders();
    EntriesRender(second);
    TwoKept(I, row, ONE, second);
    ColumnMeans(I, row);
    NoAgreement(I, v, N(I.number("1")));
    InNodeKeptExactly(I, row, e, [ONE, second]);
  }

  lemma ColumnMeans(I: Interp, row: Row)
    ensures Meaning(I, row, Column(Some("x"), None)) == row(None, Upper("x"))
  {
  }

  lemma TwoKept(I: Interp, row: Row, a: Node, b: Node)
    requires !IsNullLiteral(a) && !IsNullLiteral(b)
    ensures KeptMeanings(I, row, [a, b]) == [Meaning(I, row, a), Meaning(I, row, b)]
  {
    hide Meaning, IsNullLiteral;
    assert [a, b][1..] == [b] && [b][1..] == [];
    assert KeptMeanings(I, row, [b]) == [Meaning(I, row, b)];
  }

  lemma NoAgreement(I: Interp, v: Val, k: Val)
    requires v.N? && k.N? && v.q != k.q
    ensures !InAgrees(I, v, [k, Null])
  {
    var ks := [k, Null];
    assert ks[1] == Null;
  }

  lemma OneMeans(I: Interp, row: Row)
    ensures Meaning(I, row, ONE) == N(I.number("1")) && !IsNullLiteral(ONE) && Faithful(I, row, ONE) && Shown(ONE)
    ensures var second := Wire.Scalar(NullIf, [ONE, ONE]);
      Meaning(I, row, second) == Null && Faithful(I, row, second) && Shown(second) && !IsNullLiteral(second)
    ensures Faithful(I, row, Column(Some("x"), None))
  {
    var second := Wire.Scalar(NullIf, [ONE, ONE]);
    assert Meanings(I, row, [ONE, ONE]) == [N(I.number("1")), N(I.number("1"))];
    assert Meaning(I, row, second) == FnMeaning(I, NullIf, Meanings(I, row, [ONE, ONE]));
  }

  lemma NeedCons(d: Dialect, ns: seq<Node>)
    requires ns != [] && Need(d, ns[0]).Ok? && NeedAll(d, ns[1..]).Ok?
    ensures NeedAll(d, ns) == Ok([Need(d, ns[0]).value] + NeedAll(d, ns[1..]).value)
  {
    hide Need;
  }

  lemma NeedTwo(d: Dialect, a: Node, b: Node)
    requires Need(d, a).Ok? && Need(d, b).Ok?
    ensures NeedAll(d, [a, b]) == Ok([Need(d, a).value, Need(d, b).value])
  {
    hide Need;
    assert [a, b][1..] == [b] && [b][1..] == [];
    assert NeedAll(d, []) == Ok([]);
    NeedCons(d, [b]);
    assert NeedAll(d, [b]).value == [Need(d, b).value];
    NeedCons(d, [a, b]);
    assert NeedAll(d, [a, b]).value == [Need(d, a).value, Need(d, b).value];
  }

  lemma NullIfRenders()
    ensures Render(DataFusion, Wire.Scalar(NullIf, [ONE, ONE])) == Ok(Some(Call("nullif", [SqlNum("1"), SqlNum("1")])))
  {
    hide NeedAll;
    var args := [ONE, ONE];
    assert Need(DataFusion, ONE) == Ok(SqlNum("1"));
    NeedTwo(DataFusion, ONE, ONE);
    assert Taken(args, Used(DataFusion, NullIf, 2)) == args;
  }

  lemma EntriesRender(second: Node)
    requires Render(DataFusion, second).Ok? && !IsNullLiteral(second)
    ensures Entries(DataFusion, [ONE, second]).Ok?
    ensures Render(DataFusion, InList(Column(Some("x"), None), [ONE, second])).Ok?
  {
    assert [ONE, second][1..] == [second] && [second][1..] == [];
    assert Entries(DataFusion, []).Ok?;
    assert Entries(DataFusion, [second]).Ok?;
    InRenders("x", [ONE, second]);
  }

  /** An interpretation in which every shared function counts its arguments */
  function Counting(): (I: Interp)
  {
    Plainest().(call := (w: string, vs: seq<Val>) => N(|vs| as real))
  }

  predicate AreColumns(ms: seq<Node>) { forall m | m in ms :: m.Column? && m.name.Some? }

  /**
   INSTR and LOCATE over columns keep their values, whatever the shared functions compute, exactly
   if they have two arguments: a start position, which Exasol takes, is dropped.
   */
  lemma InstrKeptExactly(fn: Fn, args: seq<Node>)
    requires (fn.Instr? || fn.Locate?) && |args| >= 2 && AreColumns(args)
    ensures var n := Wire.Scalar(fn, args);
      && Render(DataFusion, n).Ok? && Render(DataFusion, n).value.Some?
      && ((forall I: Interp, row: Row :: Sane(I) ==>
             Eval(I, row, Render(DataFusion, n).value.value) == Meaning(I, row, n))
          <==> |args| == 2)
  {
    hide Eval, Meaning, Sane, Counting;
    var n := Wire.Scalar(fn, args);
    InstrRenders(fn, args);
    if |args| == 2 {
      forall I: Interp, row: Row | Sane(I)
        ensures Eval(I, row, Render(DataFusion, n).value.value) == Meaning(I, row, n)
      {
        ColumnsAreFaithful(I, row, fn, args);
        RenderKept(I, row, n);
      }
    } else {
      var row: Row := (a: Option<string>, name: string) => Null;
      CountingDiffers(row, fn, args);
    }
  }

  lemma {:induction false} ColumnsRender(d: Dialect, ms: seq<Node>)
    requires AreColumns(ms)
    ensures NeedAll(d, ms).Ok?
  {
    if ms != [] {
      assert ms[0] in ms && Need(d, ms[0]).Ok?;
      ColumnsRender(d, ms[1..]);
    }
  }

  lemma InstrRenders(fn: Fn, args: seq<Node>)
    requires (fn.Instr? || fn.Locate?) && |args| >= 2 && AreColumns(args)
    ensures var n := Wire.Scalar(fn, args);
      && NeedAll(DataFusion, args[..2]).Ok?
      && Render(DataFusion, n) == Ok(Some(ApplyDf(fn, NeedAll(DataFusion, args[..2]).value).value))
      && ApplyDf(fn, NeedAll(DataFusion, args[..2]).value).value.Call?
      && ApplyDf(fn, NeedAll(DataFusion, args[..2]).value).value.name == "strpos"
      && |ApplyDf(fn, NeedAll(DataFusion, args[..2]).value).value.args| == 2
  {
    hide Need;
    ColumnsRender(DataFusion, args[..2]);
    assert Taken(args, Used(DataFusion, fn, |args|)) == args[..2];
  }

  lemma ColumnsAreFaithful(I: Interp, row: Row, fn: Fn, args: seq<Node>)
    requires (fn.Instr? || fn.Locate?) && |args| == 2 && AreColumns(args)
    ensures Faithful(I, row, Wire.Scalar(fn, args))
  {
  }

  lemma CountingDiffers(row: Row, fn: Fn, args: seq<Node>)
    requires (fn.Instr? || fn.Locate?) && |args| > 2 && AreColumns(args)
    ensures Sane(Counting())
    ensures var n := Wire.Scalar(fn, args);
      && Render(DataFusion, n).Ok? && Render(DataFusion, n).value.Some?
      && Eval(Counting(), row, Render(DataFusion, n).value.value) != Meaning(Counting(), row, n)
  {
    hide Eval, Render, ApplyDf, EvalAll;
    PlainestIsSane();
    var I := Counting();
    InstrRenders(fn, args);
    var e := Render(DataFusion, Wire.Scalar(fn, args)).value.value;
    EvalCalls(I, row, "strpos", e.args);
    StrposCounts(EvalAll(I, row, e.args));
    CountsArguments(row, fn, args);
  }

  lemma StrposCounts(vs: seq<Val>)
    requires |vs| == 2
    ensures EvalCall(Counting(), "strpos", vs) == N(2.0)
  {
    assert vs == [vs[0], vs[1]];
    DfCalls.CallStrpos(Counting(), vs[0], vs[1]);
  }

  lemma CountsArguments(row: Row, fn: Fn, args: seq<Node>)
    requires (fn.Instr? || fn.Locate?) && |args| >= 2
    ensures Meaning(Counting(), row, Wire.Scalar(fn, args)) == N(|args| as real)
  {
    var I := Counting();
    var vs := Meanings(I, row, args);
    assert |[vs[1], vs[0]] + vs[2..]| == |args|;
    assert Meaning(I, row, Wire.Scalar(fn, args)) == FnMeaning(I, fn, vs);
  }
}

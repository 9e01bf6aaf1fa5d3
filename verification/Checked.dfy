/**
 What a caller can check on the node alone: with the kinds of the columns and of the shared
 functions' results known, a checked node is faithful on every row.
 */
module Checked {
  import opened Common
  import opened SqlText
  import opened SqlTree
  import opened ExasolTypes
  import opened Wire
  import opened DateFormat
  import opened Renderer
  import opened ExasolMeaning
  import opened Evaluate
  import opened Preserve
  import opened MeaningPreserved
  import RenderReads

  /**
   What values a node can have besides NULL: none, booleans, numbers, numbers written without a
   fraction that ends in zero (integers, say), texts, times and the like, or any.
   */
  datatype Kind = NullKind | BoolKind | NumKind | WholeKind | TextKind | TimeKind | AnyKind

  predicate HasKind(I: Interp, v: Val, k: Kind)
  {
    v.Null? || match k
               case NullKind => false
               case BoolKind => v.B?
               case NumKind => v.N?
               case WholeKind => v.N? && !SpareZeros(I.show(v))
               case TextKind => v.T?
               case TimeKind => !v.B? && !v.N? && !v.T?
               case AnyKind => true
  }

  predicate IsNumeric(k: Kind) { k.NumKind? || k.WholeKind? }

  function JoinKinds(a: Kind, b: Kind): (r: Kind)
  {
    if a == b || b.NullKind? then a else if a.NullKind? then b
    else if IsNumeric(a) && IsNumeric(b) then NumKind else AnyKind
  }

  lemma JoinHolds(I: Interp, v: Val, a: Kind, b: Kind)
    requires HasKind(I, v, a) || HasKind(I, v, b)
    ensures HasKind(I, v, JoinKinds(a, b))
  {
  }

  /** The kinds a caller declares, and the columns that are never NULL */
  datatype Schema = Schema(
    column: (Option<string>, string) -> Kind,
    required: (Option<string>, string) -> bool,
    number: string -> Kind,
    double: string -> Kind,
    result: string -> Kind,
    arith: Symbol -> Kind,
    cast: ExasolType -> Kind,
    part: Kind,
    parse: FormatTarget -> Kind)

  ghost predicate Conforms(S: Schema, I: Interp, row: Row)
  {
    && (forall a, c :: HasKind(I, row(a, c), S.column(a, c)) && (S.required(a, c) ==> !row(a, c).Null?))
    && (forall s :: HasKind(I, SignedNumber(I, s), S.number(s)))
    && (forall s :: HasKind(I, N(I.double(s)), S.double(s)))
    && (forall w, vs :: HasKind(I, I.call(w, vs), S.result(w)))
    && (forall y, a, b :: HasKind(I, I.arith(y, a, b), S.arith(y)))
    && (forall v, t :: HasKind(I, I.cast(v, t), S.cast(t)))
    && (forall f, v :: HasKind(I, I.part(f, v), S.part))
    && (forall t, f, v :: HasKind(I, I.parse(t, f, v), S.parse(t)))
  }

  // ----- the kind of a node

  function LiteralKind(S: Schema, n: Node): (k: Kind)
    requires IsLiteral(n)
  {
    match n
    case LitNull => NullKind
    case LitBool(_) => BoolKind
    case LitString(_) => TextKind
    case LitExact(v) => if v.NoValue? then NullKind else S.number(ValueText(v))
    case LitDouble(v) => if v.NoValue? then NullKind else S.double(ValueText(v))
    case _ => TimeKind
  }

  function KindOf(S: Schema, n: Node): (k: Kind)
    decreases n
  {
    match n
    case Absent => NullKind
    case Malformed => NullKind
    case Column(name, alias) =>
      if name.None? then NullKind else S.column(if alias == Some("") then None else alias, Upper(name.value))
    case Compare(_, _, _) => BoolKind
    case Junction(_, _) => BoolKind
    case NotNode(_) => BoolKind
    case IsNullNode(_) => BoolKind
    case IsNotNullNode(_) => BoolKind
    case InList(_, _) => BoolKind
    case BetweenNode(_, _, _) => BoolKind
    case LikeNode(_, _, _) => BoolKind
    case ExtractNode(_, _) => S.part
    case CaseNode(_, _, rs) => JoinAll(KindsOf(S, rs))
    case CastNode(_, ty) =>
      if ty.None? then NullKind
      else if ty.value.IsCharacter() then TextKind
      else JoinKinds(S.cast(ty.value), if ty.value.DoublePrecision? then NumKind else NullKind)
    case DecimalNode(_) => TextKind
    case Scalar(fn, ms) => FnKind(S, fn, KindsOf(S, ms))
    case _ => LiteralKind(S, n)
  }

  function KindsOf(S: Schema, ns: seq<Node>): (ks: seq<Kind>)
    ensures |ks| == |ns| && forall i :: 0 <= i < |ns| ==> ks[i] == KindOf(S, ns[i])
    decreases ns
  {
    if ns == [] then [] else [KindOf(S, ns[0])] + KindsOf(S, ns[1..])
  }

  function JoinAll(ks: seq<Kind>): (k: Kind)
  {
    if ks == [] then NullKind else JoinKinds(ks[0], JoinAll(ks[1..]))
  }

  function FnKind(S: Schema, fn: Fn, ks: seq<Kind>): (k: Kind)
  {
    match fn
    case Plain(w) => S.result(Denoted(w))
    case Concat => TextKind
    case CaseFn => JoinAll(ks)
    case Greatest => S.result("GREATEST")
    case Least => S.result("LEAST")
    case Undeclared(_) => NullKind
    case NegFn => JoinKinds(NumKind, if ks == [] || IsNumeric(ks[0]) then NullKind else S.result("NEG"))
    case NullIfZero => JoinAll(ks)
    case ZeroIfNull => JoinKinds(NumKind, JoinAll(ks))
    case Part(_) => S.part
    case Week => S.part
    case ToDate => JoinKinds(S.result("TO_DATE"), if |ks| == 2 then S.parse(DateTarget) else NullKind)
    case ToTimestamp =>
      JoinKinds(S.result("TO_TIMESTAMP"), if |ks| == 2 then S.parse(TimestampTarget) else NullKind)
    case Instr => S.result("INSTR")
    case Locate => S.result("INSTR")
    case Add => S.arith(PlusSym)
    case Sub => S.arith(MinusSym)
    case Mult => S.arith(StarSym)
    case FloatDiv => S.arith(SlashSym)
    case Mod => S.arith(PercentSym)
    case NullIf => JoinAll(ks)
    case DaysBetween => S.arith(MinusSym)
    case TimeBetween(unit) => S.arith(if unit.SecondUnit? then MinusSym else SlashSym)
  }

  ghost predicate AllHave(I: Interp, vs: seq<Val>, ks: seq<Kind>)
  {
    |vs| == |ks| && forall i :: 0 <= i < |vs| ==> HasKind(I, vs[i], ks[i])
  }

  /** A value of one of the kinds, or NULL, has the joined kind. */
  lemma {:induction false} JoinAllHolds(I: Interp, vs: seq<Val>, ks: seq<Kind>, v: Val)
    requires AllHave(I, vs, ks) && (v.Null? || v in vs)
    ensures HasKind(I, v, JoinAll(ks))
  {
    if vs != [] && !v.Null? {
      if v == vs[0] {
        assert HasKind(I, v, ks[0]);
      } else {
        assert AllHave(I, vs[1..], ks[1..]);
        assert vs == [vs[0]] + vs[1..];
        JoinAllHolds(I, vs[1..], ks[1..], v);
      }
      JoinHolds(I, v, ks[0], JoinAll(ks[1..]));
    }
  }

  lemma {:induction false} PickedIsResult(I: Interp, basis: Option<Val>, conds: seq<Val>, results: seq<Val>)
    requires |results| == |conds| || |results| == |conds| + 1
    ensures var v := Picked(I, basis, conds, results); v.Null? || v in results
  {
    if conds != [] && !Fires(I, basis, conds[0]) {
      PickedIsResult(I, basis, conds[1..], results[1..]);
    }
  }

  lemma {:induction false} ChosenIsResult(vs: seq<Val>)
    ensures Chosen(vs).Null? || Chosen(vs) in vs
  {
    if |vs| >= 2 && vs[0] != B(true) {
      ChosenIsResult(vs[2..]);
      assert forall v | v in vs[2..] :: v in vs;
    }
  }

  lemma FnKindHolds(S: Schema, I: Interp, row: Row, fn: Fn, vs: seq<Val>, ks: seq<Kind>)
    requires Conforms(S, I, row) && AllHave(I, vs, ks)
    ensures HasKind(I, FnMeaning(I, fn, vs), FnKind(S, fn, ks))
  {
    hide ExaTexts, Same, Denoted, JoinAll, Picked, ExaCast;
    match fn
    case CaseFn =>
      ChosenIsResult(vs);
      JoinAllHolds(I, vs, ks, FnMeaning(I, fn, vs));
    case NullIfZero => if |vs| == 1 { JoinAllHolds(I, vs, ks, FnMeaning(I, fn, vs)); }
    case ZeroIfNull =>
      if |vs| == 1 {
        JoinAllHolds(I, vs, ks, vs[0]);
        JoinHolds(I, FnMeaning(I, fn, vs), NumKind, JoinAll(ks));
      }
    case ToDate =>
      var k := if |ks| == 2 then S.parse(DateTarget) else NullKind;
      JoinHolds(I, FnMeaning(I, fn, vs), S.result("TO_DATE"), k);
    case ToTimestamp =>
      var k := if |ks| == 2 then S.parse(TimestampTarget) else NullKind;
      JoinHolds(I, FnMeaning(I, fn, vs), S.result("TO_TIMESTAMP"), k);
    case NullIf => if |vs| == 2 { JoinAllHolds(I, vs, ks, FnMeaning(I, fn, vs)); }
    case NegFn =>
      if |vs| == 1 {
        assert HasKind(I, vs[0], ks[0]);
        JoinHolds(I, FnMeaning(I, fn, vs), NumKind, if IsNumeric(ks[0]) then NullKind else S.result("NEG"));
      }
    case _ =>
  }

  /** On a row that conforms, a node's value has the node's kind. */
  lemma {:induction false} KindHolds(S: Schema, I: Interp, row: Row, n: Node)
    requires Conforms(S, I, row)
    ensures HasKind(I, Meaning(I, row, n), KindOf(S, n))
    decreases n, 1
  {
    match n
    case CaseNode(b, ws, rs) => CaseKindHolds(S, I, row, n);
    case CastNode(ms, ty) => CastKindHolds(S, I, row, n);
    case Scalar(fn, ms) => ScalarKindHolds(S, I, row, n);
    case _ => OtherKindHolds(S, I, row, n);
  }

  lemma OtherKindHolds(S: Schema, I: Interp, row: Row, n: Node)
    requires Conforms(S, I, row) && !n.CaseNode? && !n.CastNode? && !n.Scalar?
    ensures HasKind(I, Meaning(I, row, n), KindOf(S, n))
  {
    hide Meanings, AllOf, AnyOf, Within, Same, ShortText, SaysTrue, DecimalText.TrimZeros, FractionDigits, BaseText;
  }

  lemma CastKindHolds(S: Schema, I: Interp, row: Row, n: Node)
    requires Conforms(S, I, row) && n.CastNode?
    ensures HasKind(I, Meaning(I, row, n), KindOf(S, n))
  {
    hide ExaText;
    if n.args != [] && n.ty.Some? && !n.ty.value.IsCharacter() {
      var t := n.ty.value;
      JoinHolds(I, Meaning(I, row, n), S.cast(t), if t.DoublePrecision? then NumKind else NullKind);
    }
  }

  lemma {:induction false} KindsHold(S: Schema, I: Interp, row: Row, ns: seq<Node>)
    requires Conforms(S, I, row)
    ensures AllHave(I, Meanings(I, row, ns), KindsOf(S, ns))
    decreases ns, 1
  {
    hide Conforms, HasKind, Meaning, KindOf;
    forall i | 0 <= i < |ns| ensures HasKind(I, Meanings(I, row, ns)[i], KindsOf(S, ns)[i]) {
      assert ns[i] in ns;
      KindHolds(S, I, row, ns[i]);
    }
  }

  lemma {:induction false} CaseKindHolds(S: Schema, I: Interp, row: Row, n: Node)
    requires Conforms(S, I, row) && n.CaseNode?
    ensures HasKind(I, Meaning(I, row, n), KindOf(S, n))
    decreases n, 0
  {
    hide Conforms, HasKind, JoinAll, Picked;
    KindsHold(S, I, row, n.results);
    var vs, ks := Meanings(I, row, n.results), KindsOf(S, n.results);
    if |n.results| == |n.whens| || |n.results| == |n.whens| + 1 {
      var basis := if n.basis.Absent? then None else Some(Meaning(I, row, n.basis));
      PickedIsResult(I, basis, Meanings(I, row, n.whens), vs);
    }
    JoinAllHolds(I, vs, ks, Meaning(I, row, n));
  }

  lemma {:induction false} ScalarKindHolds(S: Schema, I: Interp, row: Row, n: Node)
    requires Conforms(S, I, row) && n.Scalar?
    ensures HasKind(I, Meaning(I, row, n), KindOf(S, n))
    decreases n, 0
  {
    hide FnMeaning, FnKind;
    KindsHold(S, I, row, n.args);
    FnKindHolds(S, I, row, n.fn, Meanings(I, row, n.args), KindsOf(S, n.args));
  }

  // ----- checked nodes

  /** Both engines write its text alike: a boolean-producing kind of node, or a kind written alike. */
  predicate TextSafe(S: Schema, n: Node)
  {
    IsPredicate(n) || KindOf(S, n) in {NullKind, WholeKind, TextKind, TimeKind}
  }

  /** A literal with a value, a column that is never NULL, or a test for NULL */
  predicate NeverNull(S: Schema, n: Node)
  {
    match n
    case Column(name, alias) => name.Some? && S.required(if alias == Some("") then None else alias, Upper(name.value))
    case IsNullNode(_) => true
    case IsNotNullNode(_) => true
    case _ => IsLiteral(n) && !IsNullLiteral(n)
  }

  predicate IsChecked(S: Schema, n: Node)
    decreases n
  {
    match n
    case Absent => true
    case Malformed => true
    case Column(_, _) => true
    case Compare(_, l, r) => IsChecked(S, l) && IsChecked(S, r)
    case Junction(_, ms) =>
      forall m | m in ms :: IsChecked(S, m) && Shown(m) && KindOf(S, m) in {NullKind, BoolKind}
    case NotNode(e) => IsChecked(S, e)
    case IsNullNode(e) => IsChecked(S, e)
    case IsNotNullNode(e) => IsChecked(S, e)
    case InList(e, ms) =>
      && IsChecked(S, e)
      && forall m | m in ms :: IsNullLiteral(m) || (Shown(m) && IsChecked(S, m) && NeverNull(S, m))
    case BetweenNode(e, lo, hi) => IsChecked(S, e) && IsChecked(S, lo) && IsChecked(S, hi)
    case LikeNode(e, p, _) => IsChecked(S, e) && IsChecked(S, p)
    case ExtractNode(_, ms) => forall m | m in ms :: IsChecked(S, m)
    case CaseNode(b, ws, rs) =>
      IsChecked(S, b) && (forall m | m in ws :: IsChecked(S, m)) && (forall m | m in rs :: IsChecked(S, m))
    case CastNode(ms, ty) =>
      && (forall m | m in ms :: IsChecked(S, m))
      && (ms != [] && ty.Some? && ty.value.IsCharacter() ==> TextSafe(S, ms[0]))
    case DecimalNode(ms) => forall m | m in ms :: IsChecked(S, m) && (IsNumeric(KindOf(S, m)) || KindOf(S, m).NullKind?)
    case Scalar(fn, ms) =>
      && |ms| == Used(DataFusion, fn, |ms|)
      && (forall m | m in ms :: IsChecked(S, m))
      && (fn.Concat? ==> forall m | m in ms :: TextSafe(S, m))
    case _ => LiteralFaithful(n)
  }

  lemma TextSafeAgrees(S: Schema, I: Interp, row: Row, n: Node)
    requires Conforms(S, I, row) && TextSafe(S, n)
    ensures TextAgrees(I, row, n)
  {
    hide Meaning, KindOf, Conforms, IsPredicate;
    KindHolds(S, I, row, n);
  }

  lemma NeverNullHolds(S: Schema, I: Interp, row: Row, m: Node)
    requires Conforms(S, I, row) && NeverNull(S, m)
    ensures !Meaning(I, row, m).Null?
  {
  }

  lemma {:induction false} EntriesHaveValues(S: Schema, I: Interp, row: Row, ms: seq<Node>)
    requires Conforms(S, I, row) && forall m | m in ms :: IsNullLiteral(m) || NeverNull(S, m)
    ensures Null !in KeptMeanings(I, row, ms)
  {
    hide Meaning, IsNullLiteral, Conforms, NeverNull;
    if ms != [] {
      EntriesHaveValues(S, I, row, ms[1..]);
      if !IsNullLiteral(ms[0]) {
        NeverNullHolds(S, I, row, ms[0]);
      }
    }
  }

  ghost predicate AllFaithful(I: Interp, row: Row, ms: seq<Node>) { forall m | m in ms :: Faithful(I, row, m) }

  lemma {:induction false} AllCheckedAreFaithful(S: Schema, I: Interp, row: Row, ms: seq<Node>)
    requires Conforms(S, I, row) && forall m | m in ms :: IsChecked(S, m)
    ensures AllFaithful(I, row, ms)
    decreases ms, 2
  {
    hide Conforms, IsChecked, Faithful;
    forall m | m in ms ensures Faithful(I, row, m) { CheckedIsFaithful(S, I, row, m); }
  }

  /** A checked node is faithful on every row that conforms. */
  lemma {:induction false} CheckedIsFaithful(S: Schema, I: Interp, row: Row, n: Node)
    requires Conforms(S, I, row) && IsChecked(S, n)
    ensures Faithful(I, row, n)
    decreases n, 1
  {
    hide Conforms, IsChecked, Faithful;
    match n
    case Compare(_, _, _) => PredicateIsFaithful(S, I, row, n);
    case NotNode(_) => PredicateIsFaithful(S, I, row, n);
    case IsNullNode(_) => PredicateIsFaithful(S, I, row, n);
    case IsNotNullNode(_) => PredicateIsFaithful(S, I, row, n);
    case InList(_, _) => PredicateIsFaithful(S, I, row, n);
    case BetweenNode(_, _, _) => PredicateIsFaithful(S, I, row, n);
    case LikeNode(_, _, _) => PredicateIsFaithful(S, I, row, n);
    case Junction(_, _) => JunctionIsFaithful(S, I, row, n);
    case DecimalNode(_) => DecimalIsFaithful(S, I, row, n);
    case ExtractNode(_, _) => CompoundIsFaithful(S, I, row, n);
    case CaseNode(_, _, _) => CompoundIsFaithful(S, I, row, n);
    case CastNode(_, _) => CompoundIsFaithful(S, I, row, n);
    case Scalar(_, _) => CompoundIsFaithful(S, I, row, n);
    case _ => LeafIsFaithful(S, I, row, n);
  }

  lemma LeafIsFaithful(S: Schema, I: Interp, row: Row, n: Node)
    requires IsChecked(S, n) && (n.Absent? || n.Malformed? || n.Column? || IsLiteral(n))
    ensures Faithful(I, row, n)
  {
    hide LiteralFaithful;
  }

  lemma {:induction false} PredicateIsFaithful(S: Schema, I: Interp, row: Row, n: Node)
    requires n.Compare? || n.NotNode? || n.IsNullNode? || n.IsNotNullNode? || n.InList? || n.BetweenNode? || n.LikeNode?
    requires Conforms(S, I, row) && IsChecked(S, n)
    ensures Faithful(I, row, n)
    decreases n, 0
  {
    hide Conforms, LiteralFaithful, IsNullLiteral, Meaning, KeptMeanings, InAgrees;
    match n
    case Compare(_, l, r) =>
      CheckedIsFaithful(S, I, row, l);
      CheckedIsFaithful(S, I, row, r);
    case NotNode(e) => CheckedIsFaithful(S, I, row, e);
    case IsNullNode(e) => CheckedIsFaithful(S, I, row, e);
    case IsNotNullNode(e) => CheckedIsFaithful(S, I, row, e);
    case InList(e, ms) =>
      CheckedIsFaithful(S, I, row, e);
      InListIsFaithful(S, I, row, e, ms);
    case BetweenNode(e, lo, hi) =>
      CheckedIsFaithful(S, I, row, e);
      CheckedIsFaithful(S, I, row, lo);
      CheckedIsFaithful(S, I, row, hi);
    case LikeNode(e, p, _) =>
      CheckedIsFaithful(S, I, row, e);
      CheckedIsFaithful(S, I, row, p);
  }

  lemma {:induction false} JunctionIsFaithful(S: Schema, I: Interp, row: Row, n: Node)
    requires n.Junction? && Conforms(S, I, row) && IsChecked(S, n)
    ensures Faithful(I, row, n)
    decreases n, 0
  {
    hide Conforms, Meaning, KindOf;
    forall m | m in n.members ensures Faithful(I, row, m) && IsBoolean(Meaning(I, row, m)) {
      CheckedIsFaithful(S, I, row, m);
      KindHolds(S, I, row, m);
    }
  }

  lemma {:induction false} DecimalIsFaithful(S: Schema, I: Interp, row: Row, n: Node)
    requires n.DecimalNode? && Conforms(S, I, row) && IsChecked(S, n)
    ensures Faithful(I, row, n)
    decreases n, 0
  {
    hide Conforms, Meaning, KindOf;
    forall m | m in n.args ensures Faithful(I, row, m) && (Meaning(I, row, m).N? || Meaning(I, row, m).Null?) {
      CheckedIsFaithful(S, I, row, m);
      KindHolds(S, I, row, m);
    }
  }

  lemma {:induction false} CompoundIsFaithful(S: Schema, I: Interp, row: Row, n: Node)
    requires n.ExtractNode? || n.CaseNode? || n.CastNode? || n.Scalar?
    requires Conforms(S, I, row) && IsChecked(S, n)
    ensures Faithful(I, row, n)
    decreases n, 0
  {
    hide Conforms, Meaning, KindOf, TextAgrees, TextSafe;
    match n
    case ExtractNode(_, ms) => AllCheckedAreFaithful(S, I, row, ms);
    case CaseNode(b, ws, rs) =>
      CheckedIsFaithful(S, I, row, b);
      AllCheckedAreFaithful(S, I, row, ws);
      AllCheckedAreFaithful(S, I, row, rs);
    case CastNode(ms, ty) =>
      AllCheckedAreFaithful(S, I, row, ms);
      if ms != [] && ty.Some? && ty.value.IsCharacter() {
        TextSafeAgrees(S, I, row, ms[0]);
      }
    case Scalar(fn, ms) =>
      AllCheckedAreFaithful(S, I, row, ms);
      if fn.Concat? {
        forall m | m in ms ensures TextAgrees(I, row, m) { TextSafeAgrees(S, I, row, m); }
      }
  }

  lemma {:induction false} InListIsFaithful(S: Schema, I: Interp, row: Row, e: Node, ms: seq<Node>)
    requires Conforms(S, I, row) && Faithful(I, row, e)
    requires forall m | m in ms :: IsNullLiteral(m) || (Shown(m) && IsChecked(S, m) && NeverNull(S, m))
    ensures Faithful(I, row, InList(e, ms))
    decreases ms, 2
  {
    hide Meaning, KeptMeanings, IsNullLiteral, IsChecked, NeverNull, Conforms, Shown;
    EntriesHaveValues(S, I, row, ms);
    forall m | m in ms && !IsNullLiteral(m) ensures Faithful(I, row, m) {
      CheckedIsFaithful(S, I, row, m);
    }
  }

  // ----- end to end

  /** On this row the text of the DataFusion rendering reads back, and what is read has the node's value. */
  lemma FaithfulTextKept(I: Interp, row: Row, n: Node)
    requires Sane(I) && Faithful(I, row, n) && RenderReads.Clean(DataFusion, n)
    requires Render(DataFusion, n).Ok? && Render(DataFusion, n).value.Some?
    ensures var text := Show(Render(DataFusion, n).value.value);
      Read(text).Some? && Eval(I, row, Read(text).value) == Meaning(I, row, n)
  {
    hide Sane, Faithful, Render, Read, Show, Eval, Meaning;
    RenderReads.RenderingReadsBack(DataFusion, n);
    RenderKept(I, row, n);
  }

  /**
   The main theorem: the text written for DataFusion from a checked and clean node reads back, and
   on every row that conforms to the schema it has the value the node has in Exasol.
   */
  lemma TextKeepsMeaning(S: Schema, I: Interp, n: Node)
    requires Sane(I) && IsChecked(S, n) && RenderReads.Clean(DataFusion, n)
    requires Render(DataFusion, n).Ok? && Render(DataFusion, n).value.Some?
    ensures var text := Show(Render(DataFusion, n).value.value);
      && Read(text).Some?
      && forall row: Row :: Conforms(S, I, row) ==> Eval(I, row, Read(text).value) == Meaning(I, row, n)
  {
    hide Sane, Faithful, Render, Read, Show, Eval, Meaning, Conforms, IsChecked;
    RenderReads.RenderingReadsBack(DataFusion, n);
    forall row: Row | Conforms(S, I, row)
      ensures Eval(I, row, Read(Show(Render(DataFusion, n).value.value)).value) == Meaning(I, row, n)
    {
      CheckedIsFaithful(S, I, row, n);
      FaithfulTextKept(I, row, n);
    }
  }
}

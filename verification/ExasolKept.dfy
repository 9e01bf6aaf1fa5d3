/**
 The Exasol rendering keeps the node's value: the text, read the way Exasol reads it, means on every
 row what the node means. The reader is `Recover.Unrender`; its names, zones, patterns and types are
 written out there.
 */
module ExasolKept {
  import opened Common
  import opened SqlTree
  import opened ExasolTypes
  import opened Wire
  import opened Renderer
  import opened ExasolMeaning
  import opened RenderReads
  import opened Recover
  import Preserve

  /** A literal's Exasol form keeps its value: a boolean has one, and a double is the number it reads as. */
  predicate LiteralSettled(I: Interp, n: Node)
    requires IsLiteral(n)
  {
    match n
    case LitBool(v) => !v.NoValue?
    case LitDouble(v) => v.NoValue? || N(I.double(ValueText(v))) == SignedNumber(I, ValueText(v))
    case _ => true
  }

  /** One operand goes out without an operator, so it is no text unless it was one. */
  predicate OneText(v: Val) { v.Null? || (v.T? && v.s != "") }

  /** On this row each construct meets the condition under which its Exasol form keeps its value. */
  ghost predicate Settled(I: Interp, row: Row, n: Node)
    decreases n
  {
    match n
    case Absent => true
    case Malformed => true
    case Column(_, _) => true
    case Compare(_, l, r) => Settled(I, row, l) && Settled(I, row, r)
    case Junction(_, ms) => forall m | m in ms :: Settled(I, row, m) && !m.Absent? && IsBoolean(Meaning(I, row, m))
    case NotNode(e) => Settled(I, row, e)
    case IsNullNode(e) => Settled(I, row, e)
    case IsNotNullNode(e) => Settled(I, row, e)
    case InList(e, ms) => Settled(I, row, e) && forall m | m in ms :: IsNullLiteral(m) || Settled(I, row, m)
    case BetweenNode(e, lo, hi) => Settled(I, row, e) && Settled(I, row, lo) && Settled(I, row, hi)
    case LikeNode(e, p, _) => Settled(I, row, e) && Settled(I, row, p)
    case ExtractNode(_, ms) => forall m | m in ms :: Settled(I, row, m)
    case CaseNode(b, ws, rs) =>
      && Settled(I, row, b)
      && (forall m | m in ws :: Settled(I, row, m)) && (forall m | m in rs :: Settled(I, row, m))
    case CastNode(ms, _) => forall m | m in ms :: Settled(I, row, m)
    case DecimalNode(ms) => forall m | m in ms :: Settled(I, row, m)
    case Scalar(fn, ms) =>
      && |ms| == Used(Exasol, fn, |ms|)
      && (forall m | m in ms :: Settled(I, row, m))
      && (fn.Concat? && |ms| == 1 ==> !ms[0].Absent? && OneText(Meaning(I, row, ms[0])))
    case _ => LiteralSettled(I, n)
  }

  // ----- the normal form, layer by layer

  /** A literal's normal form has its value exactly under that condition. */
  lemma LiteralNormExactly(I: Interp, row: Row, n: Node)
    requires IsLiteral(n)
    ensures Meaning(I, row, NormLiteral(n)) == LiteralMeaning(I, n) <==> LiteralSettled(I, n)
  {
    hide SignedNumber, BaseText, FractionDigits, DecimalText.TrimZeros;
  }

  lemma MinusMeans(I: Interp, row: Row, m: Node)
    ensures Meaning(I, row, Minus(m)) == Negated(I, Meaning(I, row, m))
  {
    if m.LitExact? && m.value.Text? && (m.value.s == "" || m.value.s[0] != '-') {
      var s := m.value.s;
      assert ("-" + s)[1..] == s;
      assert Meaning(I, row, m) == N(I.number(s));
      assert Meaning(I, row, Minus(m)) == N(-I.number(s));
    } else {
      assert Meanings(I, row, [m]) == [Meaning(I, row, m)];
      assert Meaning(I, row, Wire.Scalar(NegFn, [m])) == FnMeaning(I, NegFn, Meanings(I, row, [m]));
    }
  }

  /** One operand of a concatenation stands for it exactly if it is a text that is not empty, or NULL. */
  lemma OneConcatExactly(I: Interp, v: Val)
    ensures Concatenated(I, [v]) == v <==> OneText(v)
  {
    assert [v][1..] == [];
    assert ExaTexts(I, [v]) == (if v.Null? then "" else ExaText(I, v)) + "";
  }

  lemma {:induction false} AllNormKept(I: Interp, row: Row, ns: seq<Node>)
    requires forall m | m in ns :: Settled(I, row, m)
    ensures Meanings(I, row, NormAll(ns)) == Meanings(I, row, ns)
    decreases ns, 0
  {
    hide Meaning, Settled, Norm;
    if ns != [] {
      NormKeepsMeaning(I, row, ns[0]);
      AllNormKept(I, row, ns[1..]);
      assert ([Norm(ns[0])] + NormAll(ns[1..]))[1..] == NormAll(ns[1..]);
    }
  }

  lemma {:induction false} NothingSkipped(I: Interp, row: Row, ns: seq<Node>)
    requires forall m | m in ns :: !m.Absent? && IsBoolean(Meaning(I, row, m))
    ensures NormPresent(ns) == NormAll(ns)
  {
    hide Norm;
    if ns != [] {
      NothingSkipped(I, row, ns[1..]);
      NoEmptyNumber(I, row, ns[0]);
    }
  }

  lemma NoEmptyNumber(I: Interp, row: Row, m: Node)
    requires IsBoolean(Meaning(I, row, m))
    ensures !EmptyNumber(Exasol, m)
  {
  }

  lemma JoinMeans(I: Interp, row: Row, isAnd: bool, ms: seq<Node>)
    requires forall m | m in ms :: IsBoolean(Meaning(I, row, m))
    ensures Meaning(I, row, JoinNorm(isAnd, ms))
         == if isAnd then AllOf(Meanings(I, row, ms)) else AnyOf(Meanings(I, row, ms))
  {
    hide AllOf, AnyOf;
    if |ms| == 1 {
      assert ms[0] in ms && Meanings(I, row, ms) == [Meaning(I, row, ms[0])];
      OneMember(Meaning(I, row, ms[0]));
    } else if ms == [] {
      NoMember();
    }
  }

  lemma OneMember(v: Val)
    requires IsBoolean(v)
    ensures AllOf([v]) == v && AnyOf([v]) == v
  {
    assert forall w | w in [v] :: w == v;
    assert v in [v];
  }

  lemma NoMember()
    ensures AllOf([]) == B(true) && AnyOf([]) == B(false)
  {
  }

  /** Dropping entries that are NULL changes nothing. */
  lemma WithinDrops(I: Interp, v: Val, a: seq<Val>, b: seq<Val>)
    requires (forall w | w in b :: w in a) && forall w | w in a :: w.Null? || w in b
    ensures Within(I, v, a) == Within(I, v, b)
  {
    hide Same;
  }

  lemma {:induction false} EntriesNormKept(I: Interp, row: Row, ns: seq<Node>)
    requires forall m | m in ns :: IsNullLiteral(m) || Settled(I, row, m)
    ensures forall w | w in Meanings(I, row, NormEntries(ns)) :: w in Meanings(I, row, ns)
    ensures forall w | w in Meanings(I, row, ns) :: w.Null? || w in Meanings(I, row, NormEntries(ns))
    decreases ns, 0
  {
    hide Settled, Norm, IsNullLiteral, Meaning;
    if ns != [] {
      EntriesNormKept(I, row, ns[1..]);
      if ns[0].Absent? || IsNullLiteral(ns[0]) {
        DroppedIsNull(I, row, ns[0]);
      } else {
        NormKeepsMeaning(I, row, ns[0]);
        assert ([Norm(ns[0])] + NormEntries(ns[1..]))[1..] == NormEntries(ns[1..]);
      }
    }
  }

  lemma DroppedIsNull(I: Interp, row: Row, m: Node)
    requires m.Absent? || IsNullLiteral(m)
    ensures Meaning(I, row, m).Null?
  {
    if !m.Absent? {
      NullLiteralIsNull(I, row, m);
    }
  }

  /** The normal form of a settled node has the node's value. */
  lemma {:induction false} NormKeepsMeaning(I: Interp, row: Row, n: Node)
    requires Settled(I, row, n)
    ensures Meaning(I, row, Norm(n)) == Meaning(I, row, n)
    decreases n, 1
  {
    hide Settled, Meaning, Norm;
    match n
    case Absent => LeafNormKept(I, row, n);
    case Malformed => LeafNormKept(I, row, n);
    case Column(_, _) => LeafNormKept(I, row, n);
    case Junction(_, _) => JunctionNormKept(I, row, n);
    case InList(_, _) => InNormKept(I, row, n);
    case CaseNode(_, _, _) => CaseNormKept(I, row, n);
    case ExtractNode(_, _) => ExtractNormKept(I, row, n);
    case CastNode(_, _) => CastNormKept(I, row, n);
    case DecimalNode(_) => CastNormKept(I, row, n);
    case Scalar(_, _) => ScalarNormKept(I, row, n);
    case Compare(_, _, _) => CompareNormKept(I, row, n);
    case NotNode(_) => TestNormKept(I, row, n);
    case IsNullNode(_) => TestNormKept(I, row, n);
    case IsNotNullNode(_) => TestNormKept(I, row, n);
    case BetweenNode(_, _, _) => BetweenNormKept(I, row, n);
    case LikeNode(_, _, _) => LikeNormKept(I, row, n);
    case _ => LiteralNormKept(I, row, n);
  }

  lemma LiteralNormKept(I: Interp, row: Row, n: Node)
    requires IsLiteral(n) && Settled(I, row, n)
    ensures Meaning(I, row, Norm(n)) == Meaning(I, row, n)
  {
    hide LiteralSettled, LiteralMeaning, NormLiteral;
    LiteralNormExactly(I, row, n);
  }

  lemma LeafNormKept(I: Interp, row: Row, n: Node)
    requires n.Absent? || n.Malformed? || n.Column?
    ensures Meaning(I, row, Norm(n)) == Meaning(I, row, n)
  {
    if n.Column? && n.name.Some? {
      UpperTwice(n.name.value);
    }
  }

  lemma UpperTwice(s: string)
    ensures Upper(Upper(s)) == Upper(s)
  {
  }

  lemma {:induction false} JunctionNormKept(I: Interp, row: Row, n: Node)
    requires n.Junction? && Settled(I, row, n)
    ensures Meaning(I, row, Norm(n)) == Meaning(I, row, n)
    decreases n, 0
  {
    hide JoinNorm, AllOf, AnyOf, NormPresent;
    var ms := n.members;
    NothingSkipped(I, row, ms);
    AllNormKept(I, row, ms);
    forall m | m in NormAll(ms) ensures IsBoolean(Meaning(I, row, m)) {
      var i :| 0 <= i < |ms| && NormAll(ms)[i] == m;
      assert Meanings(I, row, NormAll(ms))[i] == Meanings(I, row, ms)[i] && ms[i] in ms;
    }
    JoinMeans(I, row, n.isAnd, NormAll(ms));
  }

  lemma {:induction false} InNormKept(I: Interp, row: Row, n: Node)
    requires n.InList? && Settled(I, row, n)
    ensures Meaning(I, row, Norm(n)) == Meaning(I, row, n)
    decreases n, 0
  {
    hide Within, IsNullLiteral, NormEntries;
    NormKeepsMeaning(I, row, n.e);
    EntriesNormKept(I, row, n.entries);
    var a, b := Meanings(I, row, n.entries), Meanings(I, row, NormEntries(n.entries));
    WithinDrops(I, Meaning(I, row, n.e), a, b);
    if NormEntries(n.entries) == [] {
      WithinNothing(I, Meaning(I, row, n.e));
    }
  }

  lemma WithinNothing(I: Interp, v: Val)
    ensures Within(I, v, []) == B(false)
  {
  }

  lemma {:induction false} CaseNormKept(I: Interp, row: Row, n: Node)
    requires n.CaseNode? && Settled(I, row, n)
    ensures Meaning(I, row, Norm(n)) == Meaning(I, row, n)
    decreases n, 0
  {
    hide Picked;
    NormKeepsMeaning(I, row, n.basis);
    AllNormKept(I, row, n.whens);
    AllNormKept(I, row, n.results);
    StaysPresent(n.basis);
  }

  lemma {:induction false} StaysPresent(n: Node)
    ensures Norm(n).Absent? <==> n.Absent?
  {
    if n.Junction? {
      PresentStay(n.members);
    }
  }

  lemma {:induction false} PresentStay(ns: seq<Node>)
    ensures forall m | m in NormPresent(ns) :: !m.Absent?
    decreases ns
  {
    hide Norm;
    if ns != [] {
      StaysPresent(ns[0]);
      PresentStay(ns[1..]);
    }
  }

  lemma {:induction false} ExtractNormKept(I: Interp, row: Row, n: Node)
    requires n.ExtractNode? && Settled(I, row, n)
    ensures Meaning(I, row, Norm(n)) == Meaning(I, row, n)
    decreases n, 0
  {
    if n.args != [] {
      assert n.args[0] in n.args;
      NormKeepsMeaning(I, row, n.args[0]);
      UpperTwice(n.field);
    }
  }

  lemma {:induction false} CastNormKept(I: Interp, row: Row, n: Node)
    requires (n.CastNode? || n.DecimalNode?) && Settled(I, row, n)
    ensures Meaning(I, row, Norm(n)) == Meaning(I, row, n)
    decreases n, 0
  {
    hide ExaCast;
    if n.args != [] {
      assert n.args[0] in n.args;
      NormKeepsMeaning(I, row, n.args[0]);
    }
  }

  lemma {:induction false} CompareNormKept(I: Interp, row: Row, n: Node)
    requires n.Compare? && Settled(I, row, n)
    ensures Meaning(I, row, Norm(n)) == Meaning(I, row, n)
    decreases n, 0
  {
    hide Compared;
    NormKeepsMeaning(I, row, n.left);
    NormKeepsMeaning(I, row, n.right);
  }

  lemma {:induction false} TestNormKept(I: Interp, row: Row, n: Node)
    requires (n.NotNode? || n.IsNullNode? || n.IsNotNullNode?) && Settled(I, row, n)
    ensures Meaning(I, row, Norm(n)) == Meaning(I, row, n)
    decreases n, 0
  {
    hide Not3;
    NormKeepsMeaning(I, row, n.e);
  }

  lemma {:induction false} BetweenNormKept(I: Interp, row: Row, n: Node)
    requires n.BetweenNode? && Settled(I, row, n)
    ensures Meaning(I, row, Norm(n)) == Meaning(I, row, n)
    decreases n, 0
  {
    hide Ranged;
    NormKeepsMeaning(I, row, n.e);
    NormKeepsMeaning(I, row, n.lo);
    NormKeepsMeaning(I, row, n.hi);
  }

  lemma {:induction false} LikeNormKept(I: Interp, row: Row, n: Node)
    requires n.LikeNode? && Settled(I, row, n)
    ensures Meaning(I, row, Norm(n)) == Meaning(I, row, n)
    decreases n, 0
  {
    hide Liked;
    NormKeepsMeaning(I, row, n.e);
    NormKeepsMeaning(I, row, n.pat);
  }

  lemma {:induction false} ScalarNormKept(I: Interp, row: Row, n: Node)
    requires n.Scalar? && Settled(I, row, n)
    ensures Meaning(I, row, Norm(n)) == Meaning(I, row, n)
    decreases n, 0
  {
    hide FnMeaning, FnNorm;
    AllNormKept(I, row, n.args);
    assert Taken(n.args, Used(Exasol, n.fn, |n.args|)) == n.args;
    if n.fn.Concat? && |n.args| == 1 {
      StaysPresent(n.args[0]);
      assert Meanings(I, row, NormAll(n.args))[0] == Meanings(I, row, n.args)[0];
    }
    FnNormMeans(I, row, n.fn, NormAll(n.args));
  }

  lemma ScalarMeans(I: Interp, row: Row, fn: Fn, ms: seq<Node>)
    ensures Meaning(I, row, Wire.Scalar(fn, ms)) == FnMeaning(I, fn, Meanings(I, row, ms))
  {
    hide FnMeaning;
  }

  lemma NegMeans(I: Interp, row: Row, ms: seq<Node>)
    ensures Meaning(I, row, FnNorm(NegFn, ms)) == FnMeaning(I, NegFn, Meanings(I, row, ms))
  {
    hide Minus, Meaning;
    if |ms| == 1 {
      MinusMeans(I, row, ms[0]);
    } else {
      MalformedMeans(I, row);
    }
  }

  lemma MalformedMeans(I: Interp, row: Row)
    ensures Meaning(I, row, Malformed) == Null
  {
  }

  lemma ConcatMeans(I: Interp, row: Row, ms: seq<Node>)
    requires |ms| == 1 ==> !ms[0].Absent? && OneText(Meaning(I, row, ms[0]))
    ensures Meaning(I, row, FnNorm(Concat, ms)) == FnMeaning(I, Concat, Meanings(I, row, ms))
  {
    hide Meaning, ExaTexts, Concatenated;
    if |ms| == 1 {
      OneConcatExactly(I, Meaning(I, row, ms[0]));
      assert Meanings(I, row, ms) == [Meaning(I, row, ms[0])];
    } else {
      ScalarMeans(I, row, Concat, ms);
    }
  }

  lemma FnNormMeans(I: Interp, row: Row, fn: Fn, ms: seq<Node>)
    requires fn.Concat? && |ms| == 1 ==> !ms[0].Absent? && OneText(Meaning(I, row, ms[0]))
    ensures Meaning(I, row, FnNorm(fn, ms)) == FnMeaning(I, fn, Meanings(I, row, ms))
  {
    hide Meaning, FnMeaning;
    match fn
    case NegFn => NegMeans(I, row, ms);
    case Concat => ConcatMeans(I, row, ms);
    case CaseFn =>
      CaseFnMeans(I, row, ms);
      CaseFnIs(I, Meanings(I, row, ms));
    case _ => ScalarMeans(I, row, fn, ms);
  }

  lemma CaseFnIs(I: Interp, vs: seq<Val>)
    ensures FnMeaning(I, CaseFn, vs) == Chosen(vs)
  {
  }

  lemma CaseFnMeans(I: Interp, row: Row, ms: seq<Node>)
    ensures Meaning(I, row, CaseNode(Absent, Conditions(ms), Outcomes(ms))) == Chosen(Meanings(I, row, ms))
  {
    hide Picked, Chosen, Conditions, Outcomes;
    var vs := Meanings(I, row, ms);
    Preserve.PickedInTurn(I, vs);
    SortedMeanings(I, row, ms);
  }

  lemma SortedMeanings(I: Interp, row: Row, ms: seq<Node>)
    ensures Meanings(I, row, Conditions(ms)) == Conditions(Meanings(I, row, ms))
    ensures Meanings(I, row, Outcomes(ms)) == Outcomes(Meanings(I, row, ms))
  {
    hide Meaning;
    var vs := Meanings(I, row, ms);
    forall i | 0 <= i < |Outcomes(ms)| ensures Meanings(I, row, Outcomes(ms))[i] == Outcomes(vs)[i] {
      if i < |ms| / 2 {
        assert Outcomes(ms)[i] == ms[2 * i + 1] && Outcomes(vs)[i] == vs[2 * i + 1];
      }
    }
    assert |Outcomes(ms)| == |Outcomes(vs)|;
  }

  // ----- end to end

  /** On every row on which a clean node is settled, its Exasol text reads back and means what it means. */
  lemma ExasolTextKept(I: Interp, row: Row, n: Node)
    requires Settled(I, row, n) && Clean(Exasol, n)
    requires Render(Exasol, n).Ok? && Render(Exasol, n).value.Some?
    ensures var text := Show(Render(Exasol, n).value.value);
      Read(text).Some? && Meaning(I, row, Unrender(Read(text).value)) == Meaning(I, row, n)
  {
    hide Settled, Render, Read, Show, Meaning, Norm, Unrender, Clean;
    TextRecoversNode(n);
    NormKeepsMeaning(I, row, n);
  }
}

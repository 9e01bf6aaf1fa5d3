/**
 The Exasol rendering loses nothing but a stated normalisation: from its text the node is read
 back in normal form, so two nodes with one text have one normal form.
 */
module Recover {
  import opened Common
  import opened SqlText
  import opened SqlTree
  import opened ExasolTypes
  import opened TypeText
  import opened Wire
  import opened Renderer
  import opened RenderReads
  import Names
  import ExasolMeaning

  // ----- normal form

  function Known(v: Wire.Scalar): (r: Wire.Scalar) { Text(ExasolMeaning.ValueText(v)) }

  /** A minus in front of an unsigned numeral is that numeral's sign. */
  function Minus(m: Node): (r: Node)
  {
    if m.LitExact? && m.value.Text? && (m.value.s == "" || m.value.s[0] != '-') then LitExact(Text("-" + m.value.s))
    else Wire.Scalar(NegFn, [m])
  }

  function NormLiteral(n: Node): (r: Node)
    requires IsLiteral(n)
  {
    match n
    case LitNull => LitNull
    case LitBool(v) => LitBool(Flag(ExasolMeaning.SaysTrue(v)))
    case LitString(v) => if v.NoValue? then LitNull else LitString(Known(v))
    case LitExact(v) => if v.NoValue? then LitNull else LitExact(Known(v))
    case LitDouble(v) => if v.NoValue? then LitNull else LitExact(Known(v))
    case LitDate(v) => if v.NoValue? then Malformed else LitDate(Known(v))
    case LitTimestamp(v) => if v.NoValue? then LitNull else LitTimestamp(Known(v))
    case LitTimestampUtc(v) => if v.NoValue? then LitNull else LitTstz(Known(v))
    case LitTstz(v) => if v.NoValue? then LitNull else LitTstz(Known(v))
  }

  function JoinNorm(isAnd: bool, ms: seq<Node>): (r: Node)
  {
    if ms == [] then LitBool(Flag(isAnd)) else if |ms| == 1 then ms[0] else Junction(isAnd, ms)
  }

  /**
   Names in upper case; empty and one-element junctions, one-argument concatenations and empty IN
   lists collapsed; NULL entries, absent members and surplus arguments dropped; the two CASE
   encodings merged.
   */
  function Norm(n: Node): (r: Node)
    decreases n
  {
    match n
    case Absent => Absent
    case Malformed => Malformed
    case Column(name, alias) =>
      if name.None? then Malformed else Column(Some(Upper(name.value)), if alias == Some("") then None else alias)
    case Compare(op, l, r) => Compare(op, Norm(l), Norm(r))
    case Junction(isAnd, ms) => JoinNorm(isAnd, NormPresent(ms))
    case NotNode(e) => NotNode(Norm(e))
    case IsNullNode(e) => IsNullNode(Norm(e))
    case IsNotNullNode(e) => IsNotNullNode(Norm(e))
    case InList(e, ms) => if NormEntries(ms) == [] then LitBool(Flag(false)) else InList(Norm(e), NormEntries(ms))
    case BetweenNode(e, lo, hi) => BetweenNode(Norm(e), Norm(lo), Norm(hi))
    case LikeNode(e, p, esc) => LikeNode(Norm(e), Norm(p), if esc == Some("") then None else esc)
    case ExtractNode(field, ms) => if ms == [] then Malformed else ExtractNode(Upper(field), [Norm(ms[0])])
    case CaseNode(b, ws, rs) => CaseNode(Norm(b), NormAll(ws), NormAll(rs))
    case CastNode(ms, ty) => if ms == [] then Malformed else CastNode([Norm(ms[0])], ty)
    case DecimalNode(ms) => DecimalNode(NormAll(ms))
    case Scalar(fn, ms) => FnNorm(fn, NormAll(Taken(ms, Used(Exasol, fn, |ms|))))
    case _ => NormLiteral(n)
  }

  function FnNorm(fn: Fn, ms: seq<Node>): (r: Node)
  {
    match fn
    case NegFn => if |ms| == 1 then Minus(ms[0]) else Malformed
    case Concat => if |ms| == 1 && !ms[0].Absent? then ms[0] else Wire.Scalar(Concat, ms)
    case CaseFn => CaseNode(Absent, Conditions(ms), Outcomes(ms))
    case _ => Wire.Scalar(fn, ms)
  }

  function NormAll(ns: seq<Node>): (r: seq<Node>)
    ensures |r| == |ns|
    decreases ns
  {
    if ns == [] then [] else [Norm(ns[0])] + NormAll(ns[1..])
  }

  function NormPresent(ns: seq<Node>): (r: seq<Node>)
    decreases ns
  {
    if ns == [] then []
    else if ns[0].Absent? || EmptyNumber(Exasol, ns[0]) then NormPresent(ns[1..])
    else [Norm(ns[0])] + NormPresent(ns[1..])
  }

  function NormEntries(ns: seq<Node>): (r: seq<Node>)
    decreases ns
  {
    if ns == [] then []
    else if ns[0].Absent? || IsNullLiteral(ns[0]) then NormEntries(ns[1..])
    else [Norm(ns[0])] + NormEntries(ns[1..])
  }

  // ----- reading a tree

  /** The inner of the two nested replacements: trailing zeros behind a digit that is none */
  predicate IsReplacement(e: Sql)
  {
    && e.Call? && e.name == "regexp_replace" && |e.args| == 3
    && e.args[0].Cast? && e.args[0].ty == [Word("VARCHAR")]
    && e.args[1] == SqlStr("(\\.[0-9]*[1-9])0+$") && e.args[2] == SqlStr("\\1")
  }

  /** The outer one: a fraction of zeros */
  predicate IsDecimalForm(name: string, args: seq<Sql>)
  {
    && name == "regexp_replace" && |args| == 3 && IsReplacement(args[0])
    && args[1] == SqlStr("\\.0+$") && args[2] == SqlStr("")
  }

  /** A timestamp in UTC, converted to the session's zone and typed as an instant */
  predicate IsZoned(x: Sql, ty: seq<Tok>)
  {
    && x.Call? && x.name == "CONVERT_TZ" && |x.args| == 3
    && x.args[0].Typed? && x.args[0].kw == "TIMESTAMP"
    && x.args[1] == SqlStr("UTC") && x.args[2] == Bare("SESSIONTIMEZONE")
    && ty == [Word("TIMESTAMP"), Word("WITH"), Word("LOCAL"), Word("TIME"), Word("ZONE")]
  }

  function CompareOf(y: Symbol): (r: CompareOp)
  {
    match y
    case EqSym => Equal
    case NeSym => NotEqual
    case LtSym => Less
    case LeSym => LessEqual
    case GtSym => Greater
    case _ => GreaterEqual
  }

  function ArithOf(y: Symbol): (r: Fn)
  {
    match y
    case PlusSym => Add
    case MinusSym => Sub
    case StarSym => Mult
    case SlashSym => FloatDiv
    case _ => Undeclared("")
  }

  function TypedLiteral(kw: string, s: string): (n: Node)
  {
    if kw == "DATE" then LitDate(Text(s)) else if kw == "TIMESTAMP" then LitTimestamp(Text(s)) else Malformed
  }

  function Unrender(e: Sql): (n: Node)
    decreases e, 1
  {
    match e
    case SqlNull => LitNull
    case SqlBool(b) => LitBool(Flag(b))
    case SqlNum(s) => LitExact(Text(s))
    case SqlStr(s) => LitString(Text(s))
    case Typed(kw, s) => TypedLiteral(kw, s)
    case Bare(_) => Malformed
    case Col(alias, name) => Column(Some(name), alias)
    case Paren(x) => Unrender(x)
    case Bin(op, l, x) =>
      (match op
       case AndOp => Junction(true, Spine(op, l) + [Unrender(x)])
       case OrOp => Junction(false, Spine(op, l) + [Unrender(x)])
       case SymOp(y) =>
         if y == BarsSym then Wire.Scalar(Concat, Spine(op, l) + [Unrender(x)])
         else if IsComparison(y) then Compare(CompareOf(y), Unrender(l), Unrender(x))
         else Wire.Scalar(ArithOf(y), [Unrender(l), Unrender(x)]))
    case Not(x) => NotNode(Unrender(x))
    case Neg(x) => Minus(Unrender(x))
    case IsNull(x) => IsNullNode(Unrender(x))
    case IsNotNull(x) => IsNotNullNode(Unrender(x))
    case In(x, list) => InList(Unrender(x), UnrenderAll(list))
    case Between(x, lo, hi) => BetweenNode(Unrender(x), Unrender(lo), Unrender(hi))
    case Like(x, p, esc) => LikeNode(Unrender(x), Unrender(p), esc)
    case Case(basis, bs, els) =>
      var (conds, results) := UnrenderBranches(bs);
      CaseNode(if basis.Some? then Unrender(basis.value) else Absent, conds,
               results + (if els.Some? then [Unrender(els.value)] else []))
    case Call(name, args) =>
      if IsDecimalForm(name, args) then DecimalNode([UnrenderInner(args[0])])
      else Wire.Scalar(NamedFn(name), UnrenderAll(args))
    case Cast(x, ty) =>
      if IsZoned(x, ty) then LitTstz(Text(x.args[0].s)) else CastNode([Unrender(x)], ReadType(ty))
    case Extract(f, x) => ExtractNode(f, [Unrender(x)])
    case DateNull => Malformed
    case RawStr(_) => Malformed
  }

  function UnrenderInner(e: Sql): (n: Node)
    requires IsReplacement(e)
    decreases e, 0
  {
    Unrender(e.args[0].e)
  }

  /** The operands of a chain of one operator. */
  function Spine(op: BinOp, e: Sql): (ns: seq<Node>)
    decreases e, 2
  {
    if e.Bin? && e.op == op then Spine(op, e.l) + [Unrender(e.r)] else [Unrender(e)]
  }

  function UnrenderAll(es: seq<Sql>): (ns: seq<Node>)
    ensures |ns| == |es|
    ensures forall i :: 0 <= i < |es| ==> ns[i] == Unrender(es[i])
    decreases es, 0
  {
    if es == [] then [] else [Unrender(es[0])] + UnrenderAll(es[1..])
  }

  function UnrenderBranches(bs: seq<Branch>): (r: (seq<Node>, seq<Node>))
    ensures |r.0| == |bs| && |r.1| == |bs|
    ensures forall i :: 0 <= i < |bs| ==> (r.0[i], r.1[i]) == UnrenderBranch(bs[i])
    decreases bs, 0
  {
    hide Unrender;
    if bs == [] then ([], [])
    else
      var head, tail := UnrenderBranch(bs[0]), UnrenderBranches(bs[1..]);
      ([head.0] + tail.0, [head.1] + tail.1)
  }

  function UnrenderBranch(b: Branch): (r: (Node, Node))
    decreases b, 0
  {
    (Unrender(b.cond), Unrender(b.result))
  }

  // ----- a rendered tree is whole: no shape above is ambiguous

  predicate Whole(e: Sql)
  {
    && !e.Bin? && !e.Bare? && !IsReplacement(e)
    && (e.Cast? ==> e.ty != [Word("VARCHAR")])
    && (e.Call? ==> forall i :: 0 <= i < |e.args| ==> !e.args[i].Bare?)
  }

  predicate AllWhole(es: seq<Sql>) { forall e | e in es :: Whole(e) }

  /** `e` is whole and stands for `m`. */
  predicate Stands(e: Sql, m: Node) { Whole(e) && Unrender(e) == m }

  predicate AllStand(es: seq<Sql>, ms: seq<Node>) { AllWhole(es) && UnrenderAll(es) == ms }

  lemma {:induction false} SpineOfChain(op: BinOp, parts: seq<Sql>)
    requires parts != [] && AllWhole(parts)
    ensures Spine(op, Chain(op, parts)) == UnrenderAll(parts)
  {
    hide Unrender;
    if |parts| == 1 {
      assert parts[0] in parts;
      assert UnrenderAll(parts) == [Unrender(parts[0])];
    } else {
      var front, last := parts[..|parts| - 1], parts[|parts| - 1];
      SpineOfChain(op, front);
      assert UnrenderAll(parts) == UnrenderAll(front) + [Unrender(last)];
    }
  }

  lemma ChainStands(op: BinOp, parts: seq<Sql>, ms: seq<Node>)
    requires |parts| >= 2 && AllStand(parts, ms) && (op == AndOp || op == OrOp || op == SymOp(BarsSym))
    ensures Stands(Paren(Chain(op, parts)),
                   if op == AndOp then Junction(true, ms) else if op == OrOp then Junction(false, ms)
                   else Wire.Scalar(Concat, ms))
  {
    SpineOfChain(op, parts);
    var front, last := parts[..|parts| - 1], parts[|parts| - 1];
    SpineOfChain(op, front);
    assert UnrenderAll(parts) == UnrenderAll(front) + [Unrender(last)];
    assert Unrender(Paren(Chain(op, parts))) == Unrender(Chain(op, parts));
  }

  lemma SizedTypes(t: ExasolType)
    ensures TypeTokens(t) != [Word("VARCHAR")]
  {
    hide TypeTokens;
    TokensReadBack(t);
    BareVarchar();
  }

  lemma BareVarchar()
    ensures ReadType([Word("VARCHAR")]) == None
  {
  }

  lemma LiteralStands(n: Node)
    requires IsLiteral(n) && Clean(Exasol, n)
    ensures RenderLiteral(Exasol, n).Some? && Stands(RenderLiteral(Exasol, n).value, NormLiteral(n))
  {
    hide Stands, Clean, NormLiteral, RenderLiteral;
    if n.LitTimestampUtc? || n.LitTstz? {
      ZonedStands(n);
    } else if n.LitExact? || n.LitDouble? {
      NumericStands(n);
    } else {
      PlainStands(n);
    }
  }

  lemma ZonedStands(n: Node)
    requires n.LitTimestampUtc? || n.LitTstz?
    ensures RenderLiteral(Exasol, n).Some? && Stands(RenderLiteral(Exasol, n).value, NormLiteral(n))
  {
    hide IsNumeral, TypeTokens, ReadType, NumberSql, UnrenderAll, UnrenderBranches, Spine, Minus, NamedFn;
    hide ScalarText, ExasolMeaning.ValueText;
    SizedTypes(TimestampWithLocalTimeZone(BARE_TIMESTAMP_PRECISION));
    ZoneTokens();
    ExasolMeaning.TextIsValue(n.value);
  }

  lemma ZoneTokens()
    ensures TypeTokens(TimestampWithLocalTimeZone(BARE_TIMESTAMP_PRECISION))
         == [Word("TIMESTAMP"), Word("WITH"), Word("LOCAL"), Word("TIME"), Word("ZONE")]
  {
  }

  lemma NumericStands(n: Node)
    requires (n.LitExact? || n.LitDouble?) && Clean(Exasol, n)
    ensures RenderLiteral(Exasol, n).Some? && Stands(RenderLiteral(Exasol, n).value, NormLiteral(n))
  {
    hide IsSigned, NumberSql, UnrenderAll, UnrenderBranches, Spine, Minus, ScalarText, ExasolMeaning.ValueText;
    ExasolMeaning.TextIsValue(n.value);
    if !n.value.NoValue? {
      NumberStands(ScalarText(n.value));
    }
  }

  lemma PlainStands(n: Node)
    requires n.LitNull? || n.LitBool? || n.LitString? || n.LitDate? || n.LitTimestamp?
    requires Clean(Exasol, n)
    ensures RenderLiteral(Exasol, n).Some? && Stands(RenderLiteral(Exasol, n).value, NormLiteral(n))
  {
    hide UnrenderAll, UnrenderBranches, Spine, Minus, ReadType, ScalarText, ExasolMeaning.ValueText;
    if !n.LitNull? {
      ExasolMeaning.TextIsValue(n.value);
    }
  }

  lemma NumberStands(text: string)
    requires IsSigned(text)
    ensures Stands(NumberSql(text), LitExact(Text(text)))
  {
    if text[0] == '-' {
      assert "-" + text[1..] == text;
    }
  }

  lemma CallStands(name: string, es: seq<Sql>, ms: seq<Node>)
    requires AllStand(es, ms)
    ensures Stands(Call(name, es), Wire.Scalar(NamedFn(name), ms))
  {
    hide NamedFn, ReadType, Spine, Minus, UnrenderBranches, IsZoned, TypedLiteral;
    assert forall i :: 0 <= i < |es| ==> es[i] in es;
  }

  lemma CastStands(e: Sql, m: Node, t: ExasolType)
    requires Stands(e, m)
    ensures Stands(Cast(e, TypeTokens(t)), CastNode([m], Some(t)))
  {
    hide TypeTokens, ReadType;
    SizedTypes(t);
    TokensReadBack(t);
  }

  lemma DecimalStands(e: Sql, m: Node)
    requires Stands(e, m)
    ensures Stands(DecimalSql(e), DecimalNode([m]))
  {
    hide NamedFn, ReadType, Spine, Minus;
    var inner := Call("regexp_replace", [Cast(e, [Word("VARCHAR")]), SqlStr(KEEP_NONZERO), SqlStr(KEEP_GROUP)]);
    assert IsReplacement(inner) && UnrenderInner(inner) == m;
  }

  lemma BranchesStand(conds: seq<Sql>, results: seq<Sql>)
    requires |conds| <= |results|
    ensures UnrenderBranches(Pairs(conds, results)) == (UnrenderAll(conds), UnrenderAll(results)[..|conds|])
  {
    hide Unrender;
    var (cs, rs) := UnrenderBranches(Pairs(conds, results));
    assert cs == UnrenderAll(conds);
    assert rs == UnrenderAll(results)[..|conds|];
  }

  lemma UnrenderCase(basis: Option<Sql>, bs: seq<Branch>, els: Option<Sql>)
    ensures Unrender(Case(basis, bs, els)) ==
            CaseNode(if basis.Some? then Unrender(basis.value) else Absent, UnrenderBranches(bs).0,
                     UnrenderBranches(bs).1 + (if els.Some? then [Unrender(els.value)] else []))
  {
  }

  lemma CaseIsWhole(e: Sql)
    requires e.Case?
    ensures Whole(e)
  {
  }

  lemma CaseStands(basis: Option<Sql>, conds: seq<Sql>, results: seq<Sql>, b: Node, ws: seq<Node>, rs: seq<Node>)
    requires |results| == |conds| || |results| == |conds| + 1
    requires AllStand(conds, ws) && AllStand(results, rs)
    requires if basis.Some? then Stands(basis.value, b) else b == Absent
    ensures Stands(CaseSql(basis, conds, results), CaseNode(b, ws, rs))
  {
    hide Pairs, Unrender, Whole, AllWhole, UnrenderBranches;
    BranchesStand(conds, results);
    var c := CaseSql(basis, conds, results);
    CaseIsWhole(c);
    UnrenderCase(basis, c.branches, c.els);
    if |results| > |conds| {
      assert rs == rs[..|conds|] + [rs[|conds|]];
    } else {
      assert rs[..|conds|] == rs;
      assert rs + [] == rs;
    }
  }

  lemma InterleavedStands(es: seq<Sql>, ms: seq<Node>)
    requires AllStand(es, ms) && |es| >= 2
    ensures Stands(CaseSql(None, Conditions(es), Outcomes(es)), CaseNode(Absent, Conditions(ms), Outcomes(ms)))
  {
    hide Unrender, CaseSql;
    assert |ms| == |es|;
    assert forall y | y in Conditions(es) :: y in es;
    assert forall y | y in Outcomes(es) :: y in es;
    assert UnrenderAll(Conditions(es)) == Conditions(ms);
    OutcomesStand(es);
    CaseStands(None, Conditions(es), Outcomes(es), Absent, Conditions(ms), Outcomes(ms));
  }

  lemma OutcomesStand(es: seq<Sql>)
    ensures UnrenderAll(Outcomes(es)) == Outcomes(UnrenderAll(es))
  {
    hide Unrender;
    var ms := UnrenderAll(es);
    assert |Outcomes(es)| == |Outcomes(ms)|;
    forall i | 0 <= i < |Outcomes(es)| ensures UnrenderAll(Outcomes(es))[i] == Outcomes(ms)[i] {
      if i < |es| / 2 {
        assert Outcomes(es)[i] == es[2 * i + 1] && Outcomes(ms)[i] == ms[2 * i + 1];
      }
    }
  }

  lemma OneStands(es: seq<Sql>, ms: seq<Node>)
    requires AllStand(es, ms) && |es| == 1
    ensures ms == [Unrender(es[0])] && Whole(es[0])
  {
    hide Unrender;
    assert es[0] in es;
  }

  lemma ParenStands(e: Sql)
    ensures Stands(Paren(e), Unrender(e))
  {
    hide Spine, UnrenderAll, UnrenderBranches, ReadType, Minus, NamedFn, IsZoned, IsDecimalForm, TypedLiteral;
  }

  /** One layer of reading back */
  lemma UnrenderTests(x: Sql)
    ensures Unrender(Not(x)) == NotNode(Unrender(x)) && Unrender(Neg(x)) == Minus(Unrender(x))
    ensures Unrender(IsNull(x)) == IsNullNode(Unrender(x)) && Unrender(IsNotNull(x)) == IsNotNullNode(Unrender(x))
  {
    hide Spine, UnrenderAll, UnrenderBranches, ReadType, IsReplacement, Minus, NamedFn, IsZoned, IsDecimalForm;
  }

  lemma ArithStands(fn: Fn, es: seq<Sql>, ms: seq<Node>)
    requires AllStand(es, ms) && |es| == 2 && (fn.Add? || fn.Sub? || fn.Mult? || fn.FloatDiv?)
    ensures Stands(Arith(fn, es).value, Wire.Scalar(fn, ms))
  {
    hide NamedFn, ReadType, Spine, Minus, UnrenderBranches, IsZoned, IsDecimalForm, TypedLiteral;
    assert ms == [Unrender(es[0]), Unrender(es[1])];
    var e := Bin(SymOp(ArithSymbol(fn)), es[0], es[1]);
    assert Unrender(e) == Wire.Scalar(ArithOf(ArithSymbol(fn)), [Unrender(es[0]), Unrender(es[1])]);
    ParenStands(e);
  }

  lemma ApplyStands(fn: Fn, es: seq<Sql>, ms: seq<Node>)
    requires AllStand(es, ms) && Apply(Exasol, fn, es).Ok? && |es| == Used(Exasol, fn, |es|) && Declared(fn)
    ensures Stands(Apply(Exasol, fn, es).value, FnNorm(fn, ms))
  {
    hide Stands, AllStand, Unrender, ExaName, NamedFn, IsPlain;
    assert |ms| == |es| by { StandLengths(es, ms); }
    match fn
    case Add => ArithStands(fn, es, ms);
    case Sub => ArithStands(fn, es, ms);
    case Mult => ArithStands(fn, es, ms);
    case FloatDiv => ArithStands(fn, es, ms);
    case NegFn => NegStands(es, ms);
    case Concat => ConcatStands(es, ms);
    case CaseFn => InterleavedStands(es, ms);
    case Mod =>
      assert ExaName(Mod) == "MOD" by { ModName(); }
      CallStands("MOD", es, ms);
      Names.NamedBack(fn);
    case _ =>
      CallStands(ExaName(fn), es, ms);
      Names.NamedBack(fn);
  }

  lemma ModName()
    ensures ExaName(Mod) == "MOD"
  {
  }

  lemma StandLengths(es: seq<Sql>, ms: seq<Node>)
    requires AllStand(es, ms)
    ensures |ms| == |es|
  {
  }

  lemma NegStands(es: seq<Sql>, ms: seq<Node>)
    requires AllStand(es, ms) && |es| == 1
    ensures Stands(Paren(Neg(es[0])), FnNorm(NegFn, ms))
  {
    hide Minus, Unrender;
    OneStands(es, ms);
    UnrenderTests(es[0]);
    ParenStands(Neg(es[0]));
  }

  lemma ConcatStands(es: seq<Sql>, ms: seq<Node>)
    requires AllStand(es, ms) && es != []
    ensures Stands(Paren(Chain(SymOp(BarsSym), es)), FnNorm(Concat, ms))
  {
    if |es| == 1 {
      OneStands(es, ms);
      NeverAbsent(es[0]);
    } else {
      ChainStands(SymOp(BarsSym), es, ms);
    }
  }

  lemma {:induction false} NeverAbsent(e: Sql)
    ensures !Unrender(e).Absent?
    decreases e
  {
    hide Minus, Spine, UnrenderAll, UnrenderBranches, ReadType, NamedFn, IsZoned, IsDecimalForm;
    if e.Paren? {
      NeverAbsent(e.e);
    } else if e.Neg? {
      MinusPresent(Unrender(e.e));
    }
  }

  lemma MinusPresent(m: Node)
    ensures !Minus(m).Absent?
  {
  }

  lemma JoinStands(isAnd: bool, es: seq<Sql>, ms: seq<Node>)
    requires AllStand(es, ms)
    ensures Stands(JoinParts(isAnd, es), JoinNorm(isAnd, ms))
  {
    if |es| == 1 {
      OneStands(es, ms);
    } else if |es| > 1 {
      ChainStands(if isAnd then AndOp else OrOp, es, ms);
    }
  }

  lemma InStands(e: Sql, m: Node, es: seq<Sql>, ms: seq<Node>)
    requires Stands(e, m) && AllStand(es, ms)
    ensures Stands(InSql(e, es), if ms == [] then LitBool(Flag(false)) else InList(m, ms))
  {
    hide NamedFn, ReadType, Spine, Minus, UnrenderBranches, IsZoned, IsDecimalForm, TypedLiteral;
    if es != [] {
      assert Unrender(In(e, es)) == InList(Unrender(e), UnrenderAll(es));
      ParenStands(In(e, es));
    } else {
      assert Unrender(SqlBool(false)) == LitBool(Flag(false));
    }
  }

  // ----- nodes

  lemma {:induction false} NeedStands(n: Node)
    requires Clean(Exasol, n) && Need(Exasol, n).Ok?
    ensures Stands(Need(Exasol, n).value, Norm(n))
    decreases n, 3
  {
    hide Stands, Norm, Clean;
    RenderStands(n);
  }

  lemma {:induction false} NeedAllStand(ns: seq<Node>)
    requires (forall m | m in ns :: Clean(Exasol, m)) && NeedAll(Exasol, ns).Ok?
    ensures AllStand(NeedAll(Exasol, ns).value, NormAll(ns))
    decreases ns, 0
  {
    hide Unrender, Norm, Clean;
    if ns != [] {
      NeedStands(ns[0]);
      NeedAllStand(ns[1..]);
      var e, es := Need(Exasol, ns[0]).value, NeedAll(Exasol, ns[1..]).value;
      assert ([e] + es)[1..] == es;
    }
  }

  lemma {:induction false} PresentStand(ns: seq<Node>)
    requires (forall m | m in ns :: EmptyNumber(Exasol, m) || Clean(Exasol, m)) && Present(Exasol, ns).Ok?
    ensures AllStand(Present(Exasol, ns).value, NormPresent(ns))
    decreases ns, 0
  {
    hide Unrender, Norm, Clean, Render, IsBlank, EmptyNumber;
    if ns != [] {
      PresentStand(ns[1..]);
      ShowsExactly(Exasol, ns[0]);
      if !ns[0].Absent? {
        BlankExactly(Exasol, ns[0]);
      }
      if !ns[0].Absent? && !EmptyNumber(Exasol, ns[0]) {
        RenderStands(ns[0]);
        var e, es := Render(Exasol, ns[0]).value.value, Present(Exasol, ns[1..]).value;
        assert ([e] + es)[1..] == es;
      }
    }
  }

  lemma {:induction false} EntriesStand(ns: seq<Node>)
    requires (forall m | m in ns && !IsNullLiteral(m) :: Clean(Exasol, m)) && Entries(Exasol, ns).Ok?
    ensures AllStand(Entries(Exasol, ns).value, NormEntries(ns))
    decreases ns, 0
  {
    hide Unrender, Norm, Clean, IsNullLiteral;
    if ns != [] {
      EntriesStand(ns[1..]);
      if !IsNullLiteral(ns[0]) {
        ShowsExactly(Exasol, ns[0]);
        if !ns[0].Absent? {
          RenderStands(ns[0]);
          var e, es := Render(Exasol, ns[0]).value.value, Entries(Exasol, ns[1..]).value;
          assert ([e] + es)[1..] == es;
        }
      }
    }
  }

  lemma CompareStands(op: CompareOp, l: Sql, x: Sql)
    ensures Stands(Paren(Bin(SymOp(CompareSymbol(op)), l, x)), Compare(op, Unrender(l), Unrender(x)))
  {
    hide NamedFn, ReadType, Spine, Minus, UnrenderBranches, UnrenderAll, IsZoned, IsDecimalForm, TypedLiteral;
    assert Unrender(Paren(Bin(SymOp(CompareSymbol(op)), l, x))) == Unrender(Bin(SymOp(CompareSymbol(op)), l, x));
  }

  lemma TestStands(x: Sql)
    ensures Stands(Paren(Not(x)), NotNode(Unrender(x)))
    ensures Stands(Paren(IsNull(x)), IsNullNode(Unrender(x)))
    ensures Stands(Paren(IsNotNull(x)), IsNotNullNode(Unrender(x)))
  {
    hide Unrender;
    UnrenderTests(x);
    ParenStands(Not(x));
    ParenStands(IsNull(x));
    ParenStands(IsNotNull(x));
  }

  lemma BetweenStands(x: Sql, lo: Sql, hi: Sql)
    ensures Stands(Paren(Between(x, lo, hi)), BetweenNode(Unrender(x), Unrender(lo), Unrender(hi)))
  {
    ParenStands(Between(x, lo, hi));
  }

  lemma LikeStands(x: Sql, p: Sql, esc: Option<string>)
    ensures Stands(Paren(Like(x, p, esc)), LikeNode(Unrender(x), Unrender(p), esc))
  {
    ParenStands(Like(x, p, esc));
  }

  lemma {:induction false} PredicateStands(n: Node)
    requires n.Compare? || n.NotNode? || n.IsNullNode? || n.IsNotNullNode? || n.BetweenNode? || n.LikeNode?
    requires Clean(Exasol, n) && Render(Exasol, n).Ok?
    ensures Render(Exasol, n).value.Some? && Stands(Render(Exasol, n).value.value, Norm(n))
    decreases n, 1
  {
    hide Unrender;
    match n
    case Compare(op, l, r) =>
      NeedStands(l);
      NeedStands(r);
      CompareStands(op, Need(Exasol, l).value, Need(Exasol, r).value);
    case BetweenNode(x, lo, hi) =>
      NeedStands(x);
      NeedStands(lo);
      NeedStands(hi);
      BetweenStands(Need(Exasol, x).value, Need(Exasol, lo).value, Need(Exasol, hi).value);
    case LikeNode(x, p, esc) =>
      NeedStands(x);
      NeedStands(p);
      LikeStands(Need(Exasol, x).value, Need(Exasol, p).value, if esc == Some("") then None else esc);
    case NotNode(x) =>
      NeedStands(x);
      TestStands(Need(Exasol, x).value);
    case IsNullNode(x) =>
      NeedStands(x);
      TestStands(Need(Exasol, x).value);
    case IsNotNullNode(x) =>
      NeedStands(x);
      TestStands(Need(Exasol, x).value);
  }

  lemma {:induction false} ListStands(n: Node)
    requires n.Junction? || n.InList?
    requires Clean(Exasol, n) && Render(Exasol, n).Ok?
    ensures Render(Exasol, n).value.Some? && Stands(Render(Exasol, n).value.value, Norm(n))
    decreases n, 1
  {
    hide Stands, AllStand, JoinParts, JoinNorm, InSql;
    match n
    case Junction(isAnd, ms) =>
      PresentStand(ms);
      JoinStands(isAnd, Present(Exasol, ms).value, NormPresent(ms));
    case InList(x, ms) =>
      if forall m | m in ms :: IsNullLiteral(m) || !Shows(Exasol, m) {
        NoEntries(x, ms);
      } else {
        NeedStands(x);
        EntriesStand(ms);
        InStands(Need(Exasol, x).value, Norm(x), Entries(Exasol, ms).value, NormEntries(ms));
      }
  }

  lemma NoEntries(x: Node, ms: seq<Node>)
    requires (forall m | m in ms :: IsNullLiteral(m) || !Shows(Exasol, m)) && Render(Exasol, InList(x, ms)).Ok?
    ensures Render(Exasol, InList(x, ms)) == Ok(Some(SqlBool(false))) && Norm(InList(x, ms)) == LitBool(Flag(false))
    ensures Stands(SqlBool(false), LitBool(Flag(false)))
  {
    hide Need, Entries, NormEntries, IsNullLiteral, Shows;
    EmptyListExactly(Exasol, ms);
    NoneLeft(ms);
  }

  lemma {:induction false} NoneLeft(ms: seq<Node>)
    requires forall m | m in ms :: IsNullLiteral(m) || !Shows(Exasol, m)
    ensures NormEntries(ms) == []
  {
    hide IsNullLiteral;
    if ms != [] {
      NoneLeft(ms[1..]);
    }
  }

  lemma ExtractLayerStands(f: string, e: Sql, m: Node)
    requires Stands(e, m)
    ensures Stands(Extract(f, e), ExtractNode(f, [m]))
  {
  }

  lemma {:induction false} ExtractStands(n: Node)
    requires n.ExtractNode? && Clean(Exasol, n) && Render(Exasol, n).Ok?
    ensures Render(Exasol, n).value.Some? && Stands(Render(Exasol, n).value.value, Norm(n))
    decreases n, 1
  {
    hide Stands, Unrender, IsName;
    var m := n.args[0];
    assert m in n.args;
    NeedStands(m);
    var e := Need(Exasol, m).value;
    ExtractLayerStands(Upper(n.field), e, Norm(m));
  }

  lemma {:induction false} CastNodeStands(n: Node)
    requires n.CastNode? && Clean(Exasol, n) && Render(Exasol, n).Ok?
    ensures Render(Exasol, n).value.Some? && Stands(Render(Exasol, n).value.value, Norm(n))
    decreases n, 1
  {
    hide Stands, Unrender, TypeTokens;
    var m := n.args[0];
    assert m in n.args;
    NeedStands(m);
    var e := Need(Exasol, m).value;
    CastStands(e, Norm(m), n.ty.value);
  }

  lemma {:induction false} DecimalNodeStands(n: Node)
    requires n.DecimalNode? && Clean(Exasol, n) && Render(Exasol, n).Ok?
    ensures Render(Exasol, n).value.Some? && Stands(Render(Exasol, n).value.value, Norm(n))
    decreases n, 1
  {
    hide Stands, Unrender, DecimalSql;
    var m := n.args[0];
    assert m in n.args;
    NeedStands(m);
    var e := Need(Exasol, m).value;
    DecimalStands(e, Norm(m));
    assert NormAll(n.args) == [Norm(m)] by { assert n.args[1..] == []; }
  }

  lemma {:induction false} CaseNodeStands(n: Node)
    requires n.CaseNode? && Clean(Exasol, n) && Render(Exasol, n).Ok?
    ensures Render(Exasol, n).value.Some? && Stands(Render(Exasol, n).value.value, Norm(n))
    decreases n, 1
  {
    hide CaseSql, Unrender, UnrenderAll, Whole, Apply;
    NeedAllStand(n.whens);
    NeedAllStand(n.results);
    var ws, rs := NeedAll(Exasol, n.whens).value, NeedAll(Exasol, n.results).value;
    var b := Basis(Exasol, n.basis).value;
    if !n.basis.Absent? {
      NeedStands(n.basis);
    }
    CaseStands(b, ws, rs, Norm(n.basis), NormAll(n.whens), NormAll(n.results));
    ParenStands(CaseSql(b, ws, rs));
  }

  lemma {:induction false} ScalarStands(n: Node)
    requires n.Scalar? && Clean(Exasol, n) && Render(Exasol, n).Ok?
    ensures Render(Exasol, n).value.Some? && Stands(Render(Exasol, n).value.value, Norm(n))
    decreases n, 1
  {
    hide Stands, AllStand, Apply, FnNorm, IsPlain, Clean, StartsWithMinus;
    var used := Taken(n.args, Used(Exasol, n.fn, |n.args|));
    CleanArguments(Exasol, n.fn, n.args);
    forall m | m in used ensures Clean(Exasol, m) {
      var i :| 0 <= i < |used| && used[i] == m;
      assert used[i] == n.args[i];
    }
    NeedAllStand(used);
    ApplyStands(n.fn, NeedAll(Exasol, used).value, NormAll(used));
  }

  /** Reading the rendered tree gives the node's normal form. */
  lemma {:induction false} RenderStands(n: Node)
    requires Clean(Exasol, n) && Render(Exasol, n).Ok? && Render(Exasol, n).value.Some?
    ensures Stands(Render(Exasol, n).value.value, Norm(n))
    decreases n, 2
  {
    hide Stands, Unrender, Apply;
    match n
    case Column(_, _) => ColumnStands(n);
    case Junction(_, _) => ListStands(n);
    case InList(_, _) => ListStands(n);
    case Compare(_, _, _) => PredicateStands(n);
    case NotNode(_) => PredicateStands(n);
    case IsNullNode(_) => PredicateStands(n);
    case IsNotNullNode(_) => PredicateStands(n);
    case BetweenNode(_, _, _) => PredicateStands(n);
    case LikeNode(_, _, _) => PredicateStands(n);
    case ExtractNode(_, _) => ExtractStands(n);
    case CastNode(_, _) => CastNodeStands(n);
    case DecimalNode(_) => DecimalNodeStands(n);
    case CaseNode(_, _, _) => CaseNodeStands(n);
    case Scalar(_, _) => ScalarStands(n);
    case _ => LiteralStands(n);
  }

  lemma ColumnStands(n: Node)
    requires n.Column? && Render(Exasol, n).Ok?
    ensures Render(Exasol, n).value.Some? && Stands(Render(Exasol, n).value.value, Norm(n))
  {
  }

  /** From the text of a clean node's Exasol rendering, its normal form is recovered. */
  lemma TextRecoversNode(n: Node)
    requires Clean(Exasol, n) && Render(Exasol, n).Ok? && Render(Exasol, n).value.Some?
    ensures var text := Show(Render(Exasol, n).value.value);
            Read(text).Some? && Unrender(Read(text).value) == Norm(n)
  {
    hide Read, Show, Unrender, Norm, Render;
    RenderingReadsBack(Exasol, n);
    StandsUnrenders(n);
  }

  lemma StandsUnrenders(n: Node)
    requires Clean(Exasol, n) && Render(Exasol, n).Ok? && Render(Exasol, n).value.Some?
    ensures Unrender(Render(Exasol, n).value.value) == Norm(n)
  {
    hide Unrender, Norm, Render, Clean;
    RenderStands(n);
  }

  /** Two clean nodes that Exasol would read the same text for have one normal form. */
  lemma SameTextSameNode(n: Node, m: Node)
    requires Clean(Exasol, n) && Render(Exasol, n).Ok? && Render(Exasol, n).value.Some?
    requires Clean(Exasol, m) && Render(Exasol, m).Ok? && Render(Exasol, m).value.Some?
    requires Show(Render(Exasol, n).value.value) == Show(Render(Exasol, m).value.value)
    ensures Norm(n) == Norm(m)
  {
    hide Read, Show, Unrender, Norm, Render, Clean;
    TextRecoversNode(n);
    TextRecoversNode(m);
  }
}

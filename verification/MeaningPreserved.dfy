/** The meaning theorem over whole expression trees, row by row. */
module MeaningPreserved {
  import opened Common
  import opened SqlTree
  import opened ExasolTypes
  import opened Wire
  import opened DateFormat
  import opened Renderer
  import opened ExasolMeaning
  import opened Evaluate
  import opened DfCalls
  import opened Preserve
  import RenderReads

  /** A child that DataFusion's dialect does not silently skip. */
  predicate Shown(n: Node) { !n.Absent? && !n.LitTstz? }

  /**
   On this row each construct meets the condition under which its rendering keeps its value. The
   conditions on literals, casts to text and IN lists are exact, construct by construct.
   */
  ghost predicate Faithful(I: Interp, row: Row, n: Node)
    decreases n, 0
  {
    match n
    case Absent => true
    case Malformed => true
    case Column(_, _) => true
    case Compare(_, l, r) => Faithful(I, row, l) && Faithful(I, row, r)
    case Junction(_, ms) =>
      forall m | m in ms :: Faithful(I, row, m) && Shown(m) && IsBoolean(Meaning(I, row, m))
    case NotNode(e) => Faithful(I, row, e)
    case IsNullNode(e) => Faithful(I, row, e)
    case IsNotNullNode(e) => Faithful(I, row, e)
    case InList(e, ms) =>
      && Faithful(I, row, e)
      && (forall m | m in ms :: IsNullLiteral(m) || (Shown(m) && Faithful(I, row, m)))
      && InAgrees(I, Meaning(I, row, e), KeptMeanings(I, row, ms))
    case BetweenNode(e, lo, hi) => Faithful(I, row, e) && Faithful(I, row, lo) && Faithful(I, row, hi)
    case LikeNode(e, p, _) => Faithful(I, row, e) && Faithful(I, row, p)
    case ExtractNode(_, ms) => forall m | m in ms :: Faithful(I, row, m)
    case CaseNode(b, ws, rs) =>
      && Faithful(I, row, b)
      && (forall m | m in ws :: Faithful(I, row, m)) && (forall m | m in rs :: Faithful(I, row, m))
    case CastNode(ms, ty) =>
      && (forall m | m in ms :: Faithful(I, row, m))
      && (ms != [] && ty.Some? && ty.value.IsCharacter() ==> TextAgrees(I, row, ms[0]))
    case DecimalNode(ms) =>
      forall m | m in ms :: Faithful(I, row, m) && (Meaning(I, row, m).N? || Meaning(I, row, m).Null?)
    case Scalar(fn, ms) =>
      && |ms| == Used(DataFusion, fn, |ms|)
      && (forall m | m in ms :: Faithful(I, row, m))
      && (fn.Concat? ==> forall m | m in ms :: TextAgrees(I, row, m))
    case _ => LiteralFaithful(n)
  }

  /** The values of the IN entries that are no NULL literals */
  ghost function KeptMeanings(I: Interp, row: Row, ms: seq<Node>): (vs: seq<Val>)
  {
    if ms == [] then []
    else if IsNullLiteral(ms[0]) then KeptMeanings(I, row, ms[1..])
    else [Meaning(I, row, ms[0])] + KeptMeanings(I, row, ms[1..])
  }

  /** No kept entry is NULL, or some kept entry is not and the target is NULL or equals one. */
  predicate InAgrees(I: Interp, v: Val, ks: seq<Val>)
  {
    Null !in ks || exists k | k in ks :: !k.Null? && (v.Null? || exists w | w in ks :: !w.Null? && Same(I, v, w))
  }

  lemma ShownRenders(n: Node)
    requires Shown(n) && Render(DataFusion, n).Ok?
    ensures Render(DataFusion, n).value.Some?
  {
    hide Apply, IsPlain, Translation;
  }

  /** A node with a boolean value is no number, so its text is not empty. */
  lemma BooleanIsWritten(I: Interp, row: Row, n: Node)
    requires Render(DataFusion, n).Ok? && Render(DataFusion, n).value.Some? && IsBoolean(Meaning(I, row, n))
    ensures !IsBlank(Render(DataFusion, n).value.value)
  {
    hide Render, IsBlank;
    RenderReads.BlankExactly(DataFusion, n);
  }

  lemma {:induction false} NeedKept(I: Interp, row: Row, n: Node)
    requires Sane(I) && Faithful(I, row, n) && Need(DataFusion, n).Ok?
    ensures Eval(I, row, Need(DataFusion, n).value) == Meaning(I, row, n)
    decreases n, 3
  {
    hide Eval, Meaning, Faithful, Sane;
    RenderKept(I, row, n);
  }

  lemma {:induction false} NeedAllKept(I: Interp, row: Row, ns: seq<Node>)
    requires Sane(I) && (forall m | m in ns :: Faithful(I, row, m)) && NeedAll(DataFusion, ns).Ok?
    ensures EvalAll(I, row, NeedAll(DataFusion, ns).value) == Meanings(I, row, ns)
    decreases ns, 0
  {
    hide Eval, Meaning, Faithful, Sane;
    if ns != [] {
      NeedKept(I, row, ns[0]);
      NeedAllKept(I, row, ns[1..]);
      var e, es := Need(DataFusion, ns[0]).value, NeedAll(DataFusion, ns[1..]).value;
      assert ([e] + es)[1..] == es;
    }
  }

  lemma {:induction false} PresentKept(I: Interp, row: Row, ns: seq<Node>)
    requires Sane(I) && Present(DataFusion, ns).Ok?
    requires forall m | m in ns :: Faithful(I, row, m) && Shown(m) && IsBoolean(Meaning(I, row, m))
    ensures EvalAll(I, row, Present(DataFusion, ns).value) == Meanings(I, row, ns)
    decreases ns, 0
  {
    hide Eval, Meaning, Faithful, Sane, Shown, IsBlank, IsBoolean;
    if ns != [] {
      ShownRenders(ns[0]);
      BooleanIsWritten(I, row, ns[0]);
      RenderKept(I, row, ns[0]);
      PresentKept(I, row, ns[1..]);
      var e, es := Render(DataFusion, ns[0]).value.value, Present(DataFusion, ns[1..]).value;
      assert ([e] + es)[1..] == es;
    }
  }

  /** The entries that are written are those that are no NULL literals. */
  lemma {:induction false} EntriesKept(I: Interp, row: Row, ns: seq<Node>)
    requires Sane(I) && Entries(DataFusion, ns).Ok?
    requires forall m | m in ns :: IsNullLiteral(m) || (Shown(m) && Faithful(I, row, m))
    ensures EvalAll(I, row, Entries(DataFusion, ns).value) == KeptMeanings(I, row, ns)
    decreases ns, 0
  {
    hide Eval, Meaning, Faithful, Sane, Shown, IsNullLiteral;
    if ns != [] {
      EntriesKept(I, row, ns[1..]);
      if !IsNullLiteral(ns[0]) {
        ShownRenders(ns[0]);
        RenderKept(I, row, ns[0]);
        var e, es := Render(DataFusion, ns[0]).value.value, Entries(DataFusion, ns[1..]).value;
        assert ([e] + es)[1..] == es;
      }
    }
  }

  lemma {:induction false} KeptMembers(I: Interp, row: Row, ms: seq<Node>)
    ensures forall v :: v in KeptMeanings(I, row, ms) ==> v in Meanings(I, row, ms)
    ensures forall v :: v in Meanings(I, row, ms) && !v.Null? ==> v in KeptMeanings(I, row, ms)
  {
    hide Meaning, IsNullLiteral;
    if ms != [] {
      KeptMembers(I, row, ms[1..]);
      if IsNullLiteral(ms[0]) {
        NullLiteralIsNull(I, row, ms[0]);
      }
      assert Meanings(I, row, ms) == [Meaning(I, row, ms[0])] + Meanings(I, row, ms[1..]);
    }
  }

  /** Exasol's IN looks at the entries that are not NULL alone. */
  lemma WithinKept(I: Interp, v: Val, vs: seq<Val>, ks: seq<Val>)
    requires forall k :: k in ks ==> k in vs
    requires forall w :: w in vs && !w.Null? ==> w in ks
    ensures Within(I, v, vs) == Within(I, v, ks)
  {
    hide Same;
    if w :| w in vs && !w.Null? {
      assert w in ks;
    }
    if w :| w in vs && !w.Null? && Same(I, v, w) {
      assert w in ks;
    }
  }

  /** Three-valued IN agrees with Exasol's exactly under `InAgrees`. */
  lemma InAgreesExactly(I: Interp, v: Val, ks: seq<Val>)
    ensures (if ks == [] then B(false) else InThreeValued(I, v, ks)) == Within(I, v, ks) <==> InAgrees(I, v, ks)
  {
    hide Same;
    if ks != [] {
      assert ks[0] in ks;
    }
  }

  lemma EvalIn(I: Interp, row: Row, target: Sql, es: seq<Sql>)
    ensures var ks := EvalAll(I, row, es);
            Eval(I, row, InSql(target, es)) == if ks == [] then B(false) else InThreeValued(I, Eval(I, row, target), ks)
  {
    hide EvalCall, DfTypeOf, InThreeValued, Picked, EvalBranches;
  }

  /**
   A written IN keeps its value exactly if no entry that is kept is NULL, or some kept entry is
   not NULL and the target is NULL or equals one: only NULL literals are dropped, and any other
   NULL leaves DataFusion's answer open.
   */
  lemma {:induction false} InNodeKeptExactly(I: Interp, row: Row, e: Node, ms: seq<Node>)
    requires Sane(I) && Faithful(I, row, e) && Render(DataFusion, InList(e, ms)).Ok?
    requires forall m | m in ms :: IsNullLiteral(m) || (Shown(m) && Faithful(I, row, m))
    ensures var n := InList(e, ms);
      && Render(DataFusion, n).value.Some?
      && (Eval(I, row, Render(DataFusion, n).value.value) == Meaning(I, row, n)
          <==> InAgrees(I, Meaning(I, row, e), KeptMeanings(I, row, ms)))
    decreases InList(e, ms), 0
  {
    hide EvalCall, Eval, Sane, Within, InSql, InAgrees, InThreeValued, Faithful, Shown, IsNullLiteral;
    NeedKept(I, row, e);
    EntriesKept(I, row, ms);
    var x, es := Need(DataFusion, e).value, Entries(DataFusion, ms).value;
    var v, ks := Meaning(I, row, e), KeptMeanings(I, row, ms);
    EvalIn(I, row, x, es);
    InAgreesExactly(I, v, ks);
    KeptMembers(I, row, ms);
    WithinKept(I, v, Meanings(I, row, ms), ks);
  }

  lemma {:induction false} ConcatArgsKept(I: Interp, row: Row, ns: seq<Node>)
    requires Sane(I) && ConcatArgs(ns).Ok?
    requires forall m | m in ns :: Faithful(I, row, m) && TextAgrees(I, row, m)
    ensures DfTexts(I, EvalAll(I, row, ConcatArgs(ns).value)) == ExaTexts(I, Meanings(I, row, ns))
    decreases ns, 0
  {
    hide Eval, Meaning, Faithful, Sane, ShortText, TextAgrees, DfText, ExaText, BoolText, BooleanKind;
    if ns != [] {
      ConcatArgsKept(I, row, ns[1..]);
      NeedKept(I, row, ns[0]);
      var e, es := Need(DataFusion, ns[0]).value, ConcatArgs(ns[1..]).value;
      var f := if BooleanKind(ns[0]) then BoolText(e) else e;
      OperandTextKept(I, row, ns[0], e);
      assert ([f] + es)[1..] == es;
      assert EvalAll(I, row, [f] + es)[1..] == EvalAll(I, row, es);
      assert Meanings(I, row, ns)[1..] == Meanings(I, row, ns[1..]);
    }
  }

  lemma OperandTextKept(I: Interp, row: Row, n: Node, e: Sql)
    requires Sane(I) && Eval(I, row, e) == Meaning(I, row, n) && TextAgrees(I, row, n)
    ensures var w := Eval(I, row, if BooleanKind(n) then BoolText(e) else e);
            var v := Meaning(I, row, n);
            w.Null? == v.Null? && (v.Null? || DfText(I, w) == ExaText(I, v))
  {
    hide Eval, Meaning, ShortText, BoolText, Sane, SpareZeros;
    var v := Meaning(I, row, n);
    TextsAgree(I, v);
    if BooleanKind(n) {
      BooleanKindIsBoolean(I, row, n);
      BoolTextKept(I, row, e);
    }
  }

  lemma ConcatKept(I: Interp, row: Row, es: seq<Sql>, vs: seq<Val>)
    requires DfTexts(I, EvalAll(I, row, es)) == ExaTexts(I, vs)
    ensures Eval(I, row, Call("nullif", [Call("concat", es), SqlStr("")])) == Concatenated(I, vs)
  {
    hide EvalCall, Eval, DfTexts, ExaTexts;
    var text := ExaTexts(I, vs);
    EvalCalls(I, row, "concat", es);
    CallConcat(I, EvalAll(I, row, es));
    EvalText(I, row, "");
    EvalCall2(I, row, "nullif", Call("concat", es), SqlStr(""));
    CallNullif(I, T(text), T(""));
  }

  lemma {:induction false} ParseKept(I: Interp, row: Row, target: FormatTarget, args: seq<Node>)
    requires Sane(I) && |args| == 2 && Faithful(I, row, args[0]) && RenderParse(target, args).Ok?
    ensures RenderParse(target, args).value.Some?
    ensures Eval(I, row, RenderParse(target, args).value.value)
            == ParsedBy(I, target, args[1].value.s, Meaning(I, row, args[0]))
    decreases args, 0
  {
    hide EvalCall, Eval, Meaning, Faithful, Sane, Translation, Decode;
    NeedKept(I, row, args[0]);
    var x, v := Need(DataFusion, args[0]).value, Meaning(I, row, args[0]);
    var format := args[1].value.s;
    var pattern := Translation(format, target).value;
    var source := Call("nullif", [x, SqlStr("")]);
    EvalText(I, row, "");
    EvalText(I, row, pattern);
    EvalCall2(I, row, "nullif", x, SqlStr(""));
    CallNullif(I, v, T(""));
    EvalCall2(I, row, if target.DateTarget? then "to_date" else "to_timestamp", source, SqlStr(pattern));
    CallDateParse(I, Eval(I, row, source), T(pattern));
    CallTimestampParse(I, Eval(I, row, source), T(pattern));
    TranslationDecodes(format, target);
  }

  lemma {:induction false} ScalarKept(I: Interp, row: Row, n: Node)
    requires n.Scalar? && Sane(I) && Faithful(I, row, n) && Render(DataFusion, n).Ok?
    ensures Render(DataFusion, n).value.Some?
    ensures Eval(I, row, Render(DataFusion, n).value.value) == Meaning(I, row, n)
    decreases n, 1
  {
    hide EvalCall, Eval, Sane, TextAgrees, IsPlain, Apply, FnMeaning, ParsedBy;
    var fn, args := n.fn, n.args;
    if fn.Concat? {
      ConcatArgsKept(I, row, args);
      ConcatKept(I, row, ConcatArgs(args).value, Meanings(I, row, args));
      FnConcat(I, Meanings(I, row, args));
    } else if fn == ToDate && |args| == 2 {
      ParseKept(I, row, DateTarget, args);
      ParseMeans(I, row, fn, args);
    } else if fn == ToTimestamp && |args| == 2 {
      ParseKept(I, row, TimestampTarget, args);
      ParseMeans(I, row, fn, args);
    } else {
      NeedAllKept(I, row, args);
      ApplyKept(I, row, fn, NeedAll(DataFusion, args).value);
    }
  }

  lemma ParseMeans(I: Interp, row: Row, fn: Fn, args: seq<Node>)
    requires (fn.ToDate? || fn.ToTimestamp?) && |args| == 2 && args[1].LitString? && args[1].value.Text?
    ensures FnMeaning(I, fn, Meanings(I, row, args))
         == ParsedBy(I, if fn.ToDate? then DateTarget else TimestampTarget, args[1].value.s, Meaning(I, row, args[0]))
  {
    hide ParsedBy;
    assert Meanings(I, row, args)[1] == Meaning(I, row, args[1]) == T(args[1].value.s);
  }

  lemma FnConcat(I: Interp, vs: seq<Val>)
    ensures FnMeaning(I, Concat, vs) == Concatenated(I, vs)
  {
  }

  lemma {:induction false} CaseNodeKept(I: Interp, row: Row, n: Node)
    requires n.CaseNode? && Sane(I) && Faithful(I, row, n) && Render(DataFusion, n).Ok?
    ensures Render(DataFusion, n).value.Some?
    ensures Eval(I, row, Render(DataFusion, n).value.value) == Meaning(I, row, n)
    decreases n, 1
  {
    hide EvalCall, Eval, Sane, Picked;
    NeedAllKept(I, row, n.whens);
    NeedAllKept(I, row, n.results);
    var ws, rs := NeedAll(DataFusion, n.whens).value, NeedAll(DataFusion, n.results).value;
    var b := Basis(DataFusion, n.basis).value;
    if !n.basis.Absent? {
      NeedKept(I, row, n.basis);
    }
    CaseKept(I, row, b, ws, rs);
    EvalParen(I, row, CaseSql(b, ws, rs));
  }

  lemma {:induction false} CompareKept(I: Interp, row: Row, n: Node)
    requires n.Compare? && Sane(I) && Faithful(I, row, n) && Render(DataFusion, n).Ok?
    ensures Render(DataFusion, n).value.Some?
    ensures Eval(I, row, Render(DataFusion, n).value.value) == Meaning(I, row, n)
    decreases n, 1
  {
    hide EvalCall, Eval, Sane, Compared;
    NeedKept(I, row, n.left);
    NeedKept(I, row, n.right);
    BinKept(I, row, CompareSymbol(n.op), Need(DataFusion, n.left).value, Need(DataFusion, n.right).value);
  }

  lemma {:induction false} JunctionKept(I: Interp, row: Row, n: Node)
    requires n.Junction? && Sane(I) && Faithful(I, row, n) && Render(DataFusion, n).Ok?
    ensures Render(DataFusion, n).value.Some?
    ensures Eval(I, row, Render(DataFusion, n).value.value) == Meaning(I, row, n)
    decreases n, 1
  {
    hide EvalCall, Eval, Sane, AllOf, AnyOf, JoinParts;
    PresentKept(I, row, n.members);
    forall v | v in Meanings(I, row, n.members) ensures IsBoolean(v) {
      var i :| 0 <= i < |n.members| && v == Meaning(I, row, n.members[i]);
      assert n.members[i] in n.members;
    }
    JoinKept(I, row, n.isAnd, Present(DataFusion, n.members).value);
  }

  lemma {:induction false} InListKept(I: Interp, row: Row, n: Node)
    requires n.InList? && Sane(I) && Faithful(I, row, n) && Render(DataFusion, n).Ok?
    ensures Render(DataFusion, n).value.Some?
    ensures Eval(I, row, Render(DataFusion, n).value.value) == Meaning(I, row, n)
    decreases n, 1
  {
    hide EvalCall, Eval, Sane, Within, InSql, InAgrees, Shown, IsNullLiteral, Meaning, Render;
    InNodeKeptExactly(I, row, n.e, n.entries);
  }

  lemma {:induction false} BetweenKept(I: Interp, row: Row, n: Node)
    requires n.BetweenNode? && Sane(I) && Faithful(I, row, n) && Render(DataFusion, n).Ok?
    ensures Render(DataFusion, n).value.Some?
    ensures Eval(I, row, Render(DataFusion, n).value.value) == Meaning(I, row, n)
    decreases n, 1
  {
    hide EvalCall, Eval, Sane, Ranged;
    NeedKept(I, row, n.e);
    NeedKept(I, row, n.lo);
    NeedKept(I, row, n.hi);
    var x, lo, hi := Need(DataFusion, n.e).value, Need(DataFusion, n.lo).value, Need(DataFusion, n.hi).value;
    EvalRange(I, row, x, lo, hi, None);
    EvalParen(I, row, Between(x, lo, hi));
  }

  lemma {:induction false} LikeKept(I: Interp, row: Row, n: Node)
    requires n.LikeNode? && Sane(I) && Faithful(I, row, n) && Render(DataFusion, n).Ok?
    ensures Render(DataFusion, n).value.Some?
    ensures Eval(I, row, Render(DataFusion, n).value.value) == Meaning(I, row, n)
    decreases n, 1
  {
    hide EvalCall, Eval, Sane, Liked;
    NeedKept(I, row, n.e);
    NeedKept(I, row, n.pat);
    var x, p := Need(DataFusion, n.e).value, Need(DataFusion, n.pat).value;
    var esc := if n.esc == Some("") then None else n.esc;
    EvalRange(I, row, x, p, p, esc);
    EvalParen(I, row, Like(x, p, esc));
  }

  lemma {:induction false} TestKept(I: Interp, row: Row, n: Node)
    requires n.NotNode? || n.IsNullNode? || n.IsNotNullNode?
    requires Sane(I) && Faithful(I, row, n) && Render(DataFusion, n).Ok?
    ensures Render(DataFusion, n).value.Some?
    ensures Eval(I, row, Render(DataFusion, n).value.value) == Meaning(I, row, n)
    decreases n, 1
  {
    hide EvalCall, Eval, Sane;
    NeedKept(I, row, n.e);
    var e := Need(DataFusion, n.e).value;
    EvalNot(I, row, e);
    EvalIsNull(I, row, e);
    EvalIsNotNull(I, row, e);
    EvalParen(I, row, Not(e));
    EvalParen(I, row, IsNull(e));
    EvalParen(I, row, IsNotNull(e));
  }

  lemma LeafKept(I: Interp, row: Row, n: Node)
    requires n.Column? || IsLiteral(n)
    requires Faithful(I, row, n) && Render(DataFusion, n).Ok? && Render(DataFusion, n).value.Some?
    ensures Eval(I, row, Render(DataFusion, n).value.value) == Meaning(I, row, n)
  {
    hide EvalCall, Eval, LiteralMeaning, RenderLiteral, LiteralFaithful;
    if n.Column? {
      EvalColumn(I, row, if n.alias == Some("") then None else n.alias, Upper(n.name.value));
    } else {
      LiteralKept(I, row, n);
    }
  }

  lemma {:induction false} ExtractKept(I: Interp, row: Row, n: Node)
    requires n.ExtractNode? && Sane(I) && Faithful(I, row, n) && Render(DataFusion, n).Ok?
    ensures Render(DataFusion, n).value.Some?
    ensures Eval(I, row, Render(DataFusion, n).value.value) == Meaning(I, row, n)
    decreases n, 1
  {
    hide EvalCall, Sane, TextAgrees, ExaCast, Eval, Unescaped;
    var m := n.args[0];
    assert m in n.args;
    NeedKept(I, row, m);
    RawPartKept(I, row, Upper(n.field), Need(DataFusion, m).value);
    UpperTwice(n.field);
  }

  lemma {:induction false} ConversionKept(I: Interp, row: Row, n: Node)
    requires n.CastNode? || n.DecimalNode?
    requires Sane(I) && Faithful(I, row, n) && Render(DataFusion, n).Ok?
    ensures Render(DataFusion, n).value.Some?
    ensures Eval(I, row, Render(DataFusion, n).value.value) == Meaning(I, row, n)
    decreases n, 1
  {
    hide EvalCall, Sane, TextAgrees, ExaCast, DfType, DecimalSql, Eval, BoolText, BooleanKind;
    var m := n.args[0];
    assert m in n.args;
    NeedKept(I, row, m);
    var e := Need(DataFusion, m).value;
    if n.CastNode? {
      CastKept(I, row, m, e, n.ty);
    } else {
      DecimalKept(I, row, e);
    }
  }

  lemma UpperTwice(s: string)
    ensures Upper(Upper(s)) == Upper(s)
  {
  }

  lemma CastKept(I: Interp, row: Row, operand: Node, e: Sql, ty: Option<ExasolType>)
    requires Sane(I) && Eval(I, row, e) == Meaning(I, row, operand) && CastSql(DataFusion, operand, e, ty).Ok?
    requires ty.value.IsCharacter() ==> TextAgrees(I, row, operand)
    ensures Eval(I, row, CastSql(DataFusion, operand, e, ty).value) == ExaCast(I, Meaning(I, row, operand), ty.value)
  {
    hide EvalCall, Meaning, TextAgrees, DfType, DfTypeOf, Sane;
    if ty.value.IsCharacter() {
      TextCastKept(I, row, operand, e, ty.value);
    } else {
      DfTypeKept(ty.value);
    }
  }

  lemma NothingRendered()
    ensures Render(DataFusion, Absent) == Ok(None) && Render(DataFusion, Malformed) == Err
  {
  }

  /**
   On every row, and whatever the engines' shared parts compute, the rendered SQL has in DataFusion
   the value the node has in Exasol.
   */
  lemma {:induction false} RenderKept(I: Interp, row: Row, n: Node)
    requires Sane(I) && Faithful(I, row, n) && Render(DataFusion, n).Ok? && Render(DataFusion, n).value.Some?
    ensures Eval(I, row, Render(DataFusion, n).value.value) == Meaning(I, row, n)
    decreases n, 2
  {
    hide Eval, Meaning, Faithful, Sane, Render;
    match n
    case Compare(_, _, _) => CompareKept(I, row, n);
    case Junction(_, _) => JunctionKept(I, row, n);
    case InList(_, _) => InListKept(I, row, n);
    case BetweenNode(_, _, _) => BetweenKept(I, row, n);
    case LikeNode(_, _, _) => LikeKept(I, row, n);
    case NotNode(_) => TestKept(I, row, n);
    case IsNullNode(_) => TestKept(I, row, n);
    case IsNotNullNode(_) => TestKept(I, row, n);
    case ExtractNode(_, _) => ExtractKept(I, row, n);
    case CastNode(_, _) => ConversionKept(I, row, n);
    case DecimalNode(_) => ConversionKept(I, row, n);
    case CaseNode(_, _, _) => CaseNodeKept(I, row, n);
    case Scalar(_, _) => ScalarKept(I, row, n);
    case Absent => NothingRendered();
    case Malformed => NothingRendered();
    case _ => LeafKept(I, row, n);
  }
}

/** When a node renders at all: everything else makes the caller decline the pushdown. */
module Accepted {
  import opened Common
  import opened SqlTree
  import opened ExasolTypes
  import opened Wire
  import opened DateFormat
  import opened Renderer
  import opened RenderReads

  /** The types DataFusion's parser takes in a cast */
  predicate IsCastable(t: ExasolType)
  {
    match t
    case Char(_, _) => true
    case Varchar(_, _) => true
    case Decimal(_, _) => true
    case Boolean => true
    case Date => true
    case DoublePrecision => true
    case Timestamp(p) => p in {0, 3, 6, 9}
    case _ => false
  }

  /** The number of arguments a function is accepted with */
  predicate Fitting(d: Dialect, fn: Fn, n: nat)
  {
    match fn
    case Add => n >= 2
    case Sub => n >= 2
    case Mult => n >= 2
    case FloatDiv => n >= 2
    case NegFn => n >= 1
    case Mod => n == 2
    case Concat => n >= 1
    case CaseFn => n >= 2
    case Undeclared(_) => false
    case Plain(w) => IsPlain(w) && (d.Exasol? || FittingPlain(w, n))
    case _ => d.Exasol? || FittingShaped(fn, n)
  }

  /** One argument for the functions of one number, one or two for rounding, two for powers, angles and truncation */
  predicate FittingPlain(w: string, n: nat)
  {
    if w == "ROUND" || w == "TRUNC" || w == "LOG" then 1 <= n <= 2
    else if w == "POWER" || w == "ATAN2" || w == "DATE_TRUNC" then n == 2
    else if IsTextFunction(w) then true
    else n == 1
  }

  predicate IsTextFunction(w: string)
  {
    || w in ["LOWER", "UPPER", "SUBSTR", "TRIM", "LTRIM", "RTRIM", "REPLACE", "REPEAT", "REVERSE", "LPAD", "RPAD"]
    || w in ["ASCII", "CHR", "INITCAP", "LEFT", "RIGHT", "TRANSLATE", "LENGTH", "OCTET_LENGTH", "UNICODE", "UNICODECHR"]
  }

  predicate FittingShaped(fn: Fn, n: nat)
  {
    match fn
    case Greatest => n >= 1
    case Least => n >= 1
    case NullIf => n == 2
    case NullIfZero => n == 1
    case ZeroIfNull => n == 1
    case Instr => n >= 2
    case Locate => n >= 2
    case Part(_) => n == 1
    case Week => n == 1
    case ToDate => n == 1
    case ToTimestamp => n == 1
    case DaysBetween => n == 2
    case TimeBetween(_) => n == 2
    case _ => false
  }

  /** How many arguments are looked at: arithmetic takes two, a minus one, and DataFusion's search two. */
  function Looked(d: Dialect, fn: Fn, n: nat): (k: nat)
    ensures k <= n
  {
    if (fn.Add? || fn.Sub? || fn.Mult? || fn.FloatDiv? || (d.DataFusion? && (fn.Instr? || fn.Locate?))) && n > 2 then 2
    else if fn.NegFn? && n > 1 then 1
    else n
  }

  /** With a format, DataFusion's conversions take a string literal that the translation covers. */
  predicate IsParse(d: Dialect, fn: Fn, n: nat) { d.DataFusion? && (fn.ToDate? || fn.ToTimestamp?) && n == 2 }

  predicate FormatCovered(fn: Fn, m: Node)
  {
    m.LitString? && m.value.Text? && Translation(m.value.s, if fn.ToDate? then DateTarget else TimestampTarget).Some?
  }

  predicate IsAccepted(d: Dialect, n: Node)
    decreases n
  {
    match n
    case Absent => true
    case Malformed => false
    case Column(name, _) => name.Some?
    case Compare(_, l, r) => IsAccepted(d, l) && IsAccepted(d, r) && Shows(d, l) && Shows(d, r)
    case Junction(_, ms) => forall m | m in ms :: IsAccepted(d, m)
    case NotNode(e) => IsAccepted(d, e) && Shows(d, e)
    case IsNullNode(e) => IsAccepted(d, e) && Shows(d, e)
    case IsNotNullNode(e) => IsAccepted(d, e) && Shows(d, e)
    case InList(e, ms) =>
      IsAccepted(d, e) && Shows(d, e) && forall m | m in ms :: IsEmptyLiteral(m) || IsAccepted(d, m)
    case BetweenNode(e, lo, hi) =>
      && IsAccepted(d, e) && IsAccepted(d, lo) && IsAccepted(d, hi)
      && Shows(d, e) && Shows(d, lo) && Shows(d, hi)
    case LikeNode(e, p, _) => IsAccepted(d, e) && IsAccepted(d, p) && Shows(d, e) && Shows(d, p)
    case ExtractNode(_, ms) => ms != [] && IsAccepted(d, ms[0]) && Shows(d, ms[0])
    case CaseNode(b, ws, rs) =>
      && (|rs| == |ws| || |rs| == |ws| + 1)
      && (b.Absent? || (IsAccepted(d, b) && Shows(d, b)))
      && (forall m | m in ws :: IsAccepted(d, m) && Shows(d, m))
      && (forall m | m in rs :: IsAccepted(d, m) && Shows(d, m))
    case CastNode(ms, ty) =>
      && ms != [] && IsAccepted(d, ms[0]) && Shows(d, ms[0])
      && ty.Some? && (d.Exasol? || IsCastable(ty.value))
    case DecimalNode(ms) => |ms| == 1 && IsAccepted(d, ms[0]) && Shows(d, ms[0])
    case Scalar(fn, ms) =>
      if IsParse(d, fn, |ms|) then FormatCovered(fn, ms[1]) && IsAccepted(d, ms[0]) && Shows(d, ms[0])
      else
        && Fitting(d, fn, |ms|)
        && forall i :: 0 <= i < Looked(d, fn, |ms|) ==> IsAccepted(d, ms[i]) && Shows(d, ms[i])
    case _ => true
  }

  /** NULL, or any literal without a value */
  predicate IsEmptyLiteral(n: Node)
  {
    match n
    case LitNull => true
    case LitBool(v) => v.NoValue?
    case LitString(v) => v.NoValue?
    case LitExact(v) => v.NoValue?
    case LitDouble(v) => v.NoValue?
    case LitDate(v) => v.NoValue?
    case LitTimestamp(v) => v.NoValue?
    case LitTimestampUtc(v) => v.NoValue?
    case LitTstz(v) => v.NoValue?
    case _ => false
  }

  // ----- the renderer accepts exactly these

  lemma {:induction false} NeedExactly(d: Dialect, n: Node)
    ensures Need(d, n).Ok? <==> IsAccepted(d, n) && Shows(d, n)
    decreases n, 3
  {
    hide Render, IsAccepted, Shows;
    RendersExactly(d, n);
    if Render(d, n).Ok? {
      ShowsExactly(d, n);
    }
  }

  lemma {:induction false} NeedAllExactly(d: Dialect, ns: seq<Node>)
    ensures NeedAll(d, ns).Ok? <==> forall m | m in ns :: IsAccepted(d, m) && Shows(d, m)
    decreases ns, 0
  {
    hide Need, IsAccepted, Shows;
    if ns != [] {
      NeedExactly(d, ns[0]);
      NeedAllExactly(d, ns[1..]);
      assert ns == [ns[0]] + ns[1..];
    }
  }

  lemma {:induction false} PresentExactly(d: Dialect, ns: seq<Node>)
    ensures Present(d, ns).Ok? <==> forall m | m in ns :: IsAccepted(d, m)
    decreases ns, 0
  {
    hide Render, IsAccepted, IsBlank;
    if ns != [] {
      RendersExactly(d, ns[0]);
      PresentExactly(d, ns[1..]);
      assert ns == [ns[0]] + ns[1..];
    }
  }

  lemma EmptyLiterals(n: Node)
    ensures IsNullLiteral(n) <==> IsEmptyLiteral(n)
  {
  }

  lemma {:induction false} EntriesExactly(d: Dialect, ns: seq<Node>)
    ensures Entries(d, ns).Ok? <==> forall m | m in ns :: IsEmptyLiteral(m) || IsAccepted(d, m)
    decreases ns, 0
  {
    hide Render, IsAccepted, IsEmptyLiteral, IsNullLiteral;
    if ns != [] {
      EmptyLiterals(ns[0]);
      RendersExactly(d, ns[0]);
      EntriesExactly(d, ns[1..]);
      assert ns == [ns[0]] + ns[1..];
    }
  }

  lemma {:induction false} ConcatExactly(ns: seq<Node>)
    ensures ConcatArgs(ns).Ok? <==> forall m | m in ns :: IsAccepted(DataFusion, m) && Shows(DataFusion, m)
    decreases ns, 0
  {
    hide Need, IsAccepted, Shows;
    if ns != [] {
      NeedExactly(DataFusion, ns[0]);
      ConcatExactly(ns[1..]);
      assert ns == [ns[0]] + ns[1..];
    }
  }

  /** A node renders exactly if it is accepted. */
  lemma {:induction false} RendersExactly(d: Dialect, n: Node)
    ensures Render(d, n).Ok? <==> IsAccepted(d, n)
    decreases n, 2
  {
    hide Render, IsAccepted;
    match n
    case Compare(_, _, _) => PredicateExactly(d, n);
    case NotNode(_) => PredicateExactly(d, n);
    case IsNullNode(_) => PredicateExactly(d, n);
    case IsNotNullNode(_) => PredicateExactly(d, n);
    case BetweenNode(_, _, _) => RangeExactly(d, n);
    case LikeNode(_, _, _) => RangeExactly(d, n);
    case Junction(_, _) => ListExactly(d, n);
    case InList(_, _) => ListExactly(d, n);
    case CaseNode(_, _, _) => CaseExactly(d, n);
    case ExtractNode(_, _) => ConversionExactly(d, n);
    case CastNode(_, _) => ConversionExactly(d, n);
    case DecimalNode(_) => ConversionExactly(d, n);
    case Scalar(_, _) => ScalarExactly(d, n);
    case _ => LeafExactly(d, n);
  }

  lemma LeafExactly(d: Dialect, n: Node)
    requires n.Absent? || n.Malformed? || n.Column? || IsLiteral(n)
    ensures Render(d, n).Ok? <==> IsAccepted(d, n)
  {
    hide RenderLiteral;
  }

  lemma {:induction false} PredicateExactly(d: Dialect, n: Node)
    requires n.Compare? || n.NotNode? || n.IsNullNode? || n.IsNotNullNode?
    ensures Render(d, n).Ok? <==> IsAccepted(d, n)
    decreases n, 1
  {
    hide Shows;
    if n.Compare? {
      NeedExactly(d, n.left);
      NeedExactly(d, n.right);
    } else {
      NeedExactly(d, n.e);
    }
  }

  lemma {:induction false} RangeExactly(d: Dialect, n: Node)
    requires n.BetweenNode? || n.LikeNode?
    ensures Render(d, n).Ok? <==> IsAccepted(d, n)
    decreases n, 1
  {
    hide Shows;
    NeedExactly(d, n.e);
    if n.BetweenNode? {
      NeedExactly(d, n.lo);
      NeedExactly(d, n.hi);
    } else {
      NeedExactly(d, n.pat);
    }
  }

  lemma {:induction false} ListExactly(d: Dialect, n: Node)
    requires n.Junction? || n.InList?
    ensures Render(d, n).Ok? <==> IsAccepted(d, n)
    decreases n, 1
  {
    hide Shows, IsEmptyLiteral, InSql, JoinParts;
    if n.Junction? {
      PresentExactly(d, n.members);
    } else {
      NeedExactly(d, n.e);
      EntriesExactly(d, n.entries);
    }
  }

  lemma {:induction false} CaseExactly(d: Dialect, n: Node)
    requires n.CaseNode?
    ensures Render(d, n).Ok? <==> IsAccepted(d, n)
    decreases n, 1
  {
    hide Shows, CaseSql;
    NeedExactly(d, n.basis);
    NeedAllExactly(d, n.whens);
    NeedAllExactly(d, n.results);
  }

  lemma CastExactly(d: Dialect, operand: Node, e: Sql, ty: Option<ExasolType>)
    ensures CastSql(d, operand, e, ty).Ok? <==> ty.Some? && (d.Exasol? || IsCastable(ty.value))
  {
  }

  lemma {:induction false} ConversionExactly(d: Dialect, n: Node)
    requires n.ExtractNode? || n.CastNode? || n.DecimalNode?
    ensures Render(d, n).Ok? <==> IsAccepted(d, n)
    decreases n, 1
  {
    hide Shows, CastSql, IsCastable, DecimalSql, Unescaped;
    if n.args != [] {
      assert n.args[0] in n.args;
      NeedExactly(d, n.args[0]);
      if n.CastNode? && Need(d, n.args[0]).Ok? {
        CastExactly(d, n.args[0], Need(d, n.args[0]).value, n.ty);
      }
    }
  }

  lemma ArityExactly(d: Dialect, fn: Fn, es: seq<Sql>, n: nat)
    requires |es| == Looked(d, fn, n) && (fn.Plain? ==> IsPlain(fn.name))
    ensures Apply(d, fn, es).Ok? <==> Fitting(d, fn, n)
  {
    hide IsPlain, DfName, ExaName, Guarded, CaseSql, Chain;
    if fn.Plain? {
      PlainArityExactly(fn.name, n);
    }
  }

  lemma OneArgumentFits(w: string)
    requires IsOneArgument(w)
    ensures !IsTextFunction(w) && !IsRounding(w) && !IsPair(w)
  {
  }

  lemma TextFits(w: string)
    requires IsAnyArity(w)
    ensures IsTextFunction(w) && !IsRounding(w) && !IsPair(w)
  {
  }

  lemma TextGroup(w: string)
    requires IsTextFunction(w)
    ensures IsAnyArity(w)
  {
  }

  lemma NamedGroups(w: string)
    ensures IsRounding(w) <==> w == "ROUND" || w == "TRUNC" || w == "LOG"
    ensures IsPair(w) <==> w == "POWER" || w == "ATAN2" || w == "DATE_TRUNC"
    ensures IsRounding(w) ==> !IsPair(w)
  {
  }

  lemma PlainArityExactly(w: string, n: nat)
    requires IsPlain(w)
    ensures PlainArity(w, n) <==> FittingPlain(w, n)
  {
    hide IsOneArgument, IsRounding, IsPair, IsAnyArity, IsTextFunction;
    NamedGroups(w);
    if IsOneArgument(w) {
      OneArgumentFits(w);
    }
    if IsAnyArity(w) {
      TextFits(w);
    }
    if IsTextFunction(w) {
      TextGroup(w);
    }
  }

  lemma {:induction false} ScalarExactly(d: Dialect, n: Node)
    requires n.Scalar?
    ensures Render(d, n).Ok? <==> IsAccepted(d, n)
    decreases n, 1
  {
    hide Render, IsAccepted, IsPlain;
    if !Declared(n.fn) {
      UndeclaredExactly(d, n);
    } else if IsParse(d, n.fn, |n.args|) {
      ParseExactly(d, n);
    } else if d.DataFusion? && n.fn.Concat? {
      ConcatNodeExactly(d, n);
    } else {
      CallExactly(d, n);
    }
  }

  lemma UndeclaredExactly(d: Dialect, n: Node)
    requires n.Scalar? && !Declared(n.fn)
    ensures Render(d, n).Err? && !IsAccepted(d, n)
  {
    hide IsPlain, Apply;
  }

  lemma {:induction false} ParseExactly(d: Dialect, n: Node)
    requires n.Scalar? && IsParse(d, n.fn, |n.args|)
    ensures Render(d, n).Ok? <==> IsAccepted(d, n)
    decreases n, 0
  {
    hide Shows, Fitting, Apply, Translation;
    NeedExactly(DataFusion, n.args[0]);
  }

  lemma ConcatRenders(ms: seq<Node>)
    ensures Render(DataFusion, Wire.Scalar(Concat, ms)).Ok? <==> ConcatArgs(ms).Ok? && ms != []
  {
    hide Apply, ConcatArgs;
  }

  lemma ConcatAccepted(ms: seq<Node>)
    ensures IsAccepted(DataFusion, Wire.Scalar(Concat, ms))
       <==> ms != [] && forall i :: 0 <= i < |ms| ==> IsAccepted(DataFusion, ms[i]) && Shows(DataFusion, ms[i])
  {
    hide Shows;
  }

  lemma {:induction false} ConcatNodeExactly(d: Dialect, n: Node)
    requires n.Scalar? && d.DataFusion? && n.fn.Concat?
    ensures Render(d, n).Ok? <==> IsAccepted(d, n)
    decreases n, 0
  {
    hide Render, IsAccepted, Shows;
    var ms := n.args;
    ConcatRenders(ms);
    ConcatAccepted(ms);
    ConcatExactly(ms);
    assert (forall m | m in ms :: IsAccepted(d, m) && Shows(d, m))
      <==> forall i :: 0 <= i < |ms| ==> IsAccepted(d, ms[i]) && Shows(d, ms[i]);
  }

  lemma {:induction false} CallExactly(d: Dialect, n: Node)
    requires n.Scalar? && Declared(n.fn) && !IsParse(d, n.fn, |n.args|) && !(d.DataFusion? && n.fn.Concat?)
    ensures Render(d, n).Ok? <==> IsAccepted(d, n)
    decreases n, 0
  {
    hide Shows, Fitting, Apply, IsPlain;
    var fn, ms := n.fn, n.args;
    var used := ms[..Looked(d, fn, |ms|)];
    assert Taken(ms, Used(d, fn, |ms|)) == used;
    NeedAllExactly(d, used);
    assert (forall m | m in used :: IsAccepted(d, m) && Shows(d, m))
      <==> forall i :: 0 <= i < |used| ==> IsAccepted(d, ms[i]) && Shows(d, ms[i]);
    if NeedAll(d, used).Ok? {
      ArityExactly(d, fn, NeedAll(d, used).value, |ms|);
    }
  }
}

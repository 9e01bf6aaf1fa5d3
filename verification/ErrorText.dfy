/**
 The two redactions together. The value pass removes a secret; the label pass then writes labels in
 their own letter case, and so can spell a secret that stood there in another. Here is exactly which
 secrets can come back that way.
 */
module ErrorText {
  import opened Common
  import opened Redaction
  import opened LabelRedaction
  import opened LabelOrder

  /** `x`, laid so that `q` starts at its index `d`, ends within `q` and agrees with it. */
  predicate Laid(x: string, q: string, d: int)
  {
    |x| <= d + |q| && forall j :: 0 <= j < |x| && d <= j ==> x[j] == q[j - d]
  }

  predicate HasLetter(x: string) { exists c | c in x :: IsUpper(c) || IsLower(c) }

  function Above(d: int): (n: nat) { if d < 0 then 0 else d }

  /** `x`, laid so that the label starts at its index `d`, ends in the label, with a letter inside it. */
  predicate Writes(x: string, q: string, d: int)
  {
    -|q| < d < |x| && Laid(x, q, d) && HasLetter(x[Above(d)..])
  }

  /** What of `x` stands before the label, and the label */
  function Around(x: string, q: string, d: int): (w: string)
    requires d <= |x|
  {
    x[..Above(d)] + q
  }

  /** The labels that occur in `w` all end where it ends, and the last of them in the list is number `k`. */
  ghost predicate IsLast(w: string, labels: seq<string>, k: nat)
  {
    forall m, i :: 0 <= m < |labels| && Occurs(w, i, labels[m]) ==> m <= k && i + |labels[m]| == |w|
  }

  /**
   Some label, laid over the end of `x`, spells it, and neither an earlier label nor a later one
   gets in the way.
   */
  ghost predicate Revivable(x: string, labels: seq<string>)
  {
    exists k, d :: 0 <= k < |labels| && Writes(x, labels[k], d) && IsLast(Around(x, labels[k], d), labels, k)
  }

  // ----- what frames a secret that came back

  /** Behind `x` at `j` comes the rest of the label, and then the marker. */
  predicate Framed(s: string, j: int, x: string, q: string, d: int)
    requires Laid(x, q, d) && d < |x|
  {
    var m := j + d + |q|;
    Holds(s, j, x) && m + 10 <= |s| && s[m..m + 10] == MARKER && Occurs(s, j + |x|, q[|x| - d..])
  }

  /** Of the labels before number `k`, those inside it end where it ends. */
  ghost predicate Suffixes(labels: seq<string>, k: nat)
    requires k < |labels|
  {
    forall m, i :: 0 <= m < k && Occurs(labels[k], i, labels[m]) ==> i + |labels[m]| == |labels[k]|
  }

  /** `x` at `j` was spelled by label `k`, and none of the labels up to `n` has touched it since. */
  ghost predicate Written(s: string, j: int, x: string, labels: seq<string>, k: nat, d: int, n: nat)
  {
    && k < n <= |labels| && Writes(x, labels[k], d) && Suffixes(labels, k)
    && Framed(s, j, x, labels[k], d)
    && forall m, i :: k < m < n ==> !Occurs(Around(x, labels[k], d), i, labels[m])
  }

  ghost predicate WrittenBy(s: string, j: int, x: string, labels: seq<string>, n: nat)
  {
    exists k: nat, d: int :: Written(s, j, x, labels, k, d, n)
  }

  /** Every `x` in the text was spelled by a label before number `n`. */
  ghost predicate AllWritten(s: string, x: string, labels: seq<string>, n: nat)
  {
    forall j :: Holds(s, j, x) ==> WrittenBy(s, j, x, labels, n)
  }

  lemma {:induction false} OccursPart(s: string, i: int, w: string, k: int, p: string)
    requires Occurs(s, i, w) && Occurs(w, k, p)
    ensures Occurs(s, i + k, p)
  {
    forall j | 0 <= j < |p| ensures LowerChar(s[i + k + j]) == LowerChar(p[j]) {
      assert LowerChar(w[k + j]) == LowerChar(p[j]);
    }
  }

  /** A stretch of a framed text inside the label reads as that part of the label. */
  lemma InsideLabel(s: string, j: int, x: string, q: string, d: int, idx: int, p: string)
    requires Laid(x, q, d) && d < |x| && Framed(s, j, x, q, d)
    requires Occurs(s, idx, p) && j + Above(d) <= idx && idx + |p| <= j + d + |q|
    ensures Occurs(q, idx - j - d, p)
  {
    var rest := q[|x| - d..];
    forall i | 0 <= i < |p| ensures LowerChar(q[idx - j - d + i]) == LowerChar(p[i]) {
      var at := idx + i;
      if at < j + |x| {
        assert s[j..j + |x|][at - j] == s[at];
      } else {
        assert LowerChar(s[j + |x| + (at - j - |x|)]) == LowerChar(rest[at - j - |x|]);
      }
    }
  }

  /** Where the label starts inside `x`, the text reads as all that is around it. */
  lemma FrameReads(s: string, j: int, x: string, q: string, d: int)
    requires Laid(x, q, d) && 0 <= d < |x| && Framed(s, j, x, q, d)
    ensures Occurs(s, j, Around(x, q, d))
  {
    var w, rest := Around(x, q, d), q[|x| - d..];
    forall i | 0 <= i < |w| ensures LowerChar(s[j + i]) == LowerChar(w[i]) {
      if i < |x| {
        assert s[j..j + |x|][i] == s[j + i];
      } else {
        assert LowerChar(s[j + |x| + (i - |x|)]) == LowerChar(rest[i - |x|]);
      }
    }
  }

  /** A label that occurs nowhere up to the marker does not occur in what is around the secret. */
  lemma NotAround(s: string, j: int, x: string, labels: seq<string>, k: nat, d: int, n: nat)
    requires Ordered(labels) && k < n < |labels| && Writes(x, labels[k], d) && Framed(s, j, x, labels[k], d)
    requires forall i :: i + |labels[n]| <= j + d + |labels[k]| ==> !Occurs(s, i, labels[n])
    ensures forall i :: !Occurs(Around(x, labels[k], d), i, labels[n])
  {
    hide Framed, Laid, HasLetter;
    var q, p := labels[k], labels[n];
    assert d < 0 ==> Around(x, q, d) == q;
    forall i ensures !Occurs(Around(x, q, d), i, p) {
      if Occurs(Around(x, q, d), i, p) && d >= 0 {
        FrameReads(s, j, x, q, d);
        OccursPart(s, j, Around(x, q, d), i, p);
      }
    }
  }

  // ----- one pass

  lemma NotAcross(head: string, rest: string, i: int, x: string)
    requires Holds(head + rest, i, x) && BracketFree(x) && rest != "" && rest[0] == '['
    ensures i + |x| <= |head| || |head| <= i
  {
    var s := head + rest;
    assert s[|head|] == '[';
    assert forall j :: i <= j < i + |x| ==> s[j] == x[j - i];
  }

  /** The frame stands in a longer text, further back. */
  lemma FrameShifts(head: string, tail: string, j: int, x: string, q: string, d: int)
    requires Laid(x, q, d) && d < |x|
    ensures Framed(tail, j, x, q, d) ==> Framed(head + tail, |head| + j, x, q, d)
    ensures 0 <= j && Framed(head + tail, |head| + j, x, q, d) ==> Framed(tail, j, x, q, d)
  {
    var s, m, rest := head + tail, j + d + |q|, q[|x| - d..];
    if 0 <= j && |x| + j <= |tail| {
      assert s[|head| + j..|head| + j + |x|] == tail[j..j + |x|];
      assert forall i :: 0 <= i < |tail| ==> s[|head| + i] == tail[i];
      if m + 10 <= |tail| {
        assert s[|head| + m..|head| + m + 10] == tail[m..m + 10];
      }
    }
  }

  lemma SuffixWritten(s: string, e: nat, x: string, labels: seq<string>, n: nat)
    requires e <= |s| && AllWritten(s, x, labels, n)
    ensures AllWritten(s[e..], x, labels, n)
  {
    hide Framed, Laid, Occurs, HasLetter, Around;
    assert s == s[..e] + s[e..];
    forall j | Holds(s[e..], j, x) ensures WrittenBy(s[e..], j, x, labels, n) {
      assert s[e + j..e + j + |x|] == s[e..][j..j + |x|];
      assert Holds(s, e + j, x);
      var k: nat, d: int :| Written(s, e + j, x, labels, k, d, n);
      FrameShifts(s[..e], s[e..], j, x, labels[k], d);
      assert Written(s[e..], j, x, labels, k, d, n);
    }
  }

  lemma TailWritten(head: string, tail: string, j: int, x: string, labels: seq<string>, n: nat)
    requires AllWritten(tail, x, labels, n) && Holds(tail, j, x)
    ensures WrittenBy(head + tail, |head| + j, x, labels, n)
  {
    hide Framed, Laid, Occurs, HasLetter, Around;
    var k: nat, d: int :| Written(tail, j, x, labels, k, d, n);
    FrameShifts(head, tail, j, x, labels[k], d);
    assert Written(head + tail, |head| + j, x, labels, k, d, n);
  }

  /** Where the next label does not occur, everything is as it was. */
  lemma NothingPasses(s: string, x: string, labels: seq<string>, n: nat)
    requires Ordered(labels) && n < |labels| && AllWritten(s, x, labels, n)
    requires forall i :: !Occurs(s, i, labels[n])
    ensures AllWritten(s, x, labels, n + 1)
  {
    hide Framed, Laid, Occurs, HasLetter, Around, Ordered;
    forall j | Holds(s, j, x) ensures WrittenBy(s, j, x, labels, n + 1) {
      var k: nat, d: int :| Written(s, j, x, labels, k, d, n);
      NotAround(s, j, x, labels, k, d, n);
      assert Written(s, j, x, labels, k, d, n + 1);
    }
  }

  /** A label that starts behind `x` starts behind the marker that frames `x`. */
  lemma BehindFrame(s: string, j: int, x: string, labels: seq<string>, k: nat, d: int, n: nat, idx: nat)
    requires Ordered(labels) && k < n < |labels| && GoodLabel(labels[n])
    requires Writes(x, labels[k], d) && Framed(s, j, x, labels[k], d)
    requires Occurs(s, idx, labels[n]) && j + Above(d) <= idx
    ensures j + d + |labels[k]| + 10 <= idx
  {
    hide HasLetter, Laid;
    var p, m := labels[n], j + d + |labels[k]|;
    if idx + |p| <= m {
      InsideLabel(s, j, x, labels[k], d, idx, p);
      assert false;
    } else if idx < m + 10 {
      assert s[m] == '[' && s[m + 9] == ']' by { assert s[m..m + 10][0] == '[' && s[m..m + 10][9] == ']'; }
      PastMarker(s, p, idx, m);
    }
  }

  lemma PastMarker(s: string, p: string, idx: nat, m: nat)
    requires Occurs(s, idx, p) && GoodLabel(p) && m + 10 <= |s| && s[m..m + 10] == MARKER
    requires s[m] == '[' && s[m + 9] == ']' && m < idx + |p|
    ensures m + 10 <= idx
  {
    if idx <= m {
      BracketNeverLower(p[m - idx], s[m]);
    } else if idx <= m + 9 < idx + |p| {
      BracketNeverLower(p[m + 9 - idx], s[m + 9]);
    } else if idx < m + 10 {
      InSlice(s, m, idx, p);
    }
  }

  /** A secret before the rewritten label keeps its frame. */
  lemma BeforeLabel(s: string, x: string, labels: seq<string>, n: nat, idx: nat, tail: string, r: string, j: int)
    requires Ordered(labels) && n < |labels| && GoodLabel(labels[n])
    requires Step(s, labels[n], idx, tail, r) && (forall i :: 0 <= i < idx ==> !Occurs(s, i, labels[n]))
    requires Holds(s, j, x) && j + |x| <= idx && WrittenBy(s, j, x, labels, n)
    ensures WrittenBy(r, j, x, labels, n + 1)
  {
    hide Laid, Occurs, HasLetter, Around, Ordered, GoodLabel, Framed;
    var k: nat, d: int :| Written(s, j, x, labels, k, d, n);
    BehindFrame(s, j, x, labels, k, d, n, idx);
    FrameBefore(s, labels[n], idx, tail, r, j, x, labels[k], d);
    forall i | i + |labels[n]| <= j + d + |labels[k]| ensures !Occurs(s, i, labels[n]) {
      if Occurs(s, i, labels[n]) {
        OccursBounds(s, i, labels[n]);
      }
    }
    NotAround(s, j, x, labels, k, d, n);
    assert Written(r, j, x, labels, k, d, n + 1);
  }

  lemma FrameBefore(s: string, p: string, idx: nat, tail: string, r: string, j: int, x: string, q: string, d: int)
    requires Step(s, p, idx, tail, r) && Laid(x, q, d) && d < |x|
    requires Framed(s, j, x, q, d) && j + d + |q| + 10 <= idx
    ensures Framed(r, j, x, q, d)
  {
    var m := j + d + |q|;
    assert forall i :: 0 <= i < idx ==> r[i] == s[i];
    assert r[j..j + |x|] == s[j..j + |x|];
    assert r[m..m + 10] == s[m..m + 10];
  }

  /** Of the labels before number `n`, those inside it end where it ends, since their markers follow them. */
  lemma SuffixesOnly(s: string, labels: seq<string>, n: nat, idx: nat)
    requires n < |labels| && GoodLabel(labels[n]) && Occurs(s, idx, labels[n])
    requires forall m :: 0 <= m < n ==> Redacted(s, labels[m])
    ensures Suffixes(labels, n)
  {
    var q := labels[n];
    forall m, i | 0 <= m < n && Occurs(q, i, labels[m]) ensures i + |labels[m]| == |q| {
      OccursPart(s, idx, q, i, labels[m]);
      assert Redacted(s, labels[m]);
      EndsAtMarker(s, idx, q, i + |labels[m]|);
    }
  }

  /** Inside bracket-free text no marker begins. */
  lemma EndsAtMarker(s: string, idx: nat, w: string, e: int)
    requires Occurs(s, idx, w) && BracketFree(w) && Follows(s, idx + e) && 0 <= e <= |w|
    ensures e == |w|
  {
    assert s[idx + e..idx + e + 10][0] == '[';
    if e < |w| {
      assert LowerChar(s[idx + e]) == LowerChar(w[e]);
      BracketNeverLower(w[e], s[idx + e]);
    }
  }

  /** A secret that ends in the rewritten label is spelled by it. */
  lemma AtLabel(s: string, x: string, labels: seq<string>, n: nat, idx: nat, tail: string, r: string, j: int)
    requires Ordered(labels) && n < |labels| && GoodLabel(labels[n]) && x != ""
    requires Step(s, labels[n], idx, tail, r) && AllWritten(s, x, labels, n)
    requires forall m :: 0 <= m < n ==> Redacted(s, labels[m])
    requires Holds(r, j, x) && idx < j + |x| <= idx + |labels[n]|
    ensures WrittenBy(r, j, x, labels, n + 1)
  {
    hide GoodLabel, Ordered, Redacted, Occurs, Around;
    var q, d := labels[n], idx - j;
    LaidOver(s, q, idx, tail, r, x, j);
    if HasLetter(x[Above(d)..]) {
      SuffixesOnly(s, labels, n, idx);
      FramedNow(s, q, idx, tail, r, x, j);
      assert Written(r, j, x, labels, n, d, n + 1);
    } else {
      WasThere(s, q, idx, tail, r, x, j);
      LettersInside(s, x, labels, n, idx, j);
    }
  }

  lemma LaidOver(s: string, q: string, idx: nat, tail: string, r: string, x: string, j: int)
    requires Step(s, q, idx, tail, r) && Holds(r, j, x) && idx < j + |x| <= idx + |q|
    ensures Laid(x, q, idx - j)
  {
    forall i | 0 <= i < |x| && idx - j <= i ensures x[i] == q[i - (idx - j)] {
      assert r[j..j + |x|][i] == r[j + i];
    }
  }

  lemma FramedNow(s: string, q: string, idx: nat, tail: string, r: string, x: string, j: int)
    requires Step(s, q, idx, tail, r) && Holds(r, j, x) && idx < j + |x| <= idx + |q| && Laid(x, q, idx - j)
    ensures Framed(r, j, x, q, idx - j)
  {
    var m := idx + |q|;
    assert r[m..m + 10] == MARKER;
    assert forall i :: idx <= i < m ==> r[i] == q[i - idx];
  }

  /** Without a letter in the label nothing was changed. */
  lemma WasThere(s: string, q: string, idx: nat, tail: string, r: string, x: string, j: int)
    requires Step(s, q, idx, tail, r) && Holds(r, j, x) && idx < j + |x| <= idx + |q|
    requires !HasLetter(x[Above(idx - j)..])
    ensures Holds(s, j, x)
  {
    var over := x[Above(idx - j)..];
    forall i | 0 <= i < |x| ensures x[i] == s[j + i] {
      assert r[j..j + |x|][i] == r[j + i];
      if idx <= j + i {
        assert x[i] == over[i - Above(idx - j)];
        assert LowerChar(s[idx + (j + i - idx)]) == LowerChar(q[j + i - idx]);
        BracketNeverLower(s[j + i], x[i]);
      }
    }
    assert s[j..j + |x|] == x;
  }

  /** A label over the end of a framed secret starts before the label that frames it. */
  lemma LettersInside(s: string, x: string, labels: seq<string>, n: nat, idx: nat, j: int)
    requires Ordered(labels) && n < |labels| && GoodLabel(labels[n]) && Occurs(s, idx, labels[n])
    requires Holds(s, j, x) && WrittenBy(s, j, x, labels, n)
    requires idx < j + |x|
    ensures HasLetter(x[Above(idx - j)..])
  {
    hide GoodLabel, Ordered, Occurs, Around;
    var k: nat, d: int :| Written(s, j, x, labels, k, d, n);
    if j + Above(d) <= idx {
      BehindFrame(s, j, x, labels, k, d, n, idx);
    } else {
      MoreLetters(x, Above(idx - j), Above(d));
    }
  }

  lemma MoreLetters(x: string, a: nat, b: nat)
    requires a <= b <= |x| && HasLetter(x[b..])
    ensures HasLetter(x[a..])
  {
    var c :| c in x[b..] && (IsUpper(c) || IsLower(c));
    assert x[b..] == x[a..][b - a..];
  }

  /** A pass keeps the account of every secret in the text. */
  lemma {:induction false} PassWritten(s: string, x: string, labels: seq<string>, n: nat)
    requires Ordered(labels) && GoodLabels(labels) && n < |labels| && x != "" && Safe(x)
    requires AllWritten(s, x, labels, n) && forall m :: 0 <= m < n ==> Redacted(s, labels[m])
    ensures AllWritten(Pass(s, labels[n]), x, labels, n + 1)
    decreases |s|
  {
    hide Safe, Pass, FirstFrom, NextDelimiter, Occurs, FirstEnd, GoodLabel, Ordered, Redacted, WrittenBy;
    var q := labels[n];
    var first := FirstFrom(s, q, 0);
    if first.Some? {
      var idx := first.value;
      PassSteps(s, q, idx);
      var end, r := FirstEnd(s, q, idx), Pass(s, q);
      SuffixWritten(s, end, x, labels, n);
      forall m | 0 <= m < n ensures Redacted(s[end..], labels[m]) { SuffixRedacted(s, end, labels[m]); }
      PassWritten(s[end..], x, labels, n);
      forall j | Holds(r, j, x) ensures WrittenBy(r, j, x, labels, n + 1) {
        StepWritten(s, x, labels, n, idx, Pass(s[end..], q), r, j);
      }
    } else {
      PassEnds(s, q);
      Nowhere(s, q);
      NothingPasses(s, x, labels, n);
    }
  }

  lemma Nowhere(s: string, q: string)
    requires FirstFrom(s, q, 0).None?
    ensures forall i :: !Occurs(s, i, q)
  {
    hide FirstFrom;
    forall i ensures !Occurs(s, i, q) {
      if Occurs(s, i, q) {
        OccursBounds(s, i, q);
      }
    }
  }

  lemma StepWritten(s: string, x: string, labels: seq<string>, n: nat, idx: nat, tail: string, r: string, j: int)
    requires Ordered(labels) && GoodLabels(labels) && n < |labels| && x != "" && Safe(x)
    requires Step(s, labels[n], idx, tail, r) && (forall i :: 0 <= i < idx ==> !Occurs(s, i, labels[n]))
    requires AllWritten(s, x, labels, n) && (forall m :: 0 <= m < n ==> Redacted(s, labels[m]))
    requires AllWritten(tail, x, labels, n + 1) && Holds(r, j, x)
    ensures WrittenBy(r, j, x, labels, n + 1)
  {
    hide GoodLabel, Ordered, Redacted, Occurs, WrittenBy;
    assert idx <= |s| by { OccursBounds(s, idx, labels[n]); }
    var head := s[..idx] + labels[n];
    assert r == head + (MARKER + tail) && r == (head + MARKER) + tail;
    NotAcross(head, MARKER + tail, j, x);
    if j + |x| <= idx {
      SliceInside(head, MARKER + tail, j, x);
      SliceInside(s[..idx], labels[n], j, x);
      assert s[..idx][j..j + |x|] == s[j..j + |x|];
      BeforeLabel(s, x, labels, n, idx, tail, r, j);
    } else if j + |x| <= |head| {
      AtLabel(s, x, labels, n, idx, tail, r, j);
    } else {
      SliceBehind(head, MARKER + tail, j, x);
      AfterMarker(tail, j - |head|, x);
      TailWritten(head + MARKER, tail, j - |head| - 10, x, labels, n + 1);
    }
  }

  // ----- all passes

  ghost function Place(s: string, x: string): (i: int)
    requires Contains(s, x)
    ensures Holds(s, i, x)
  {
    var i :| 0 <= i <= |s| && Holds(s, i, x);
    i
  }

  lemma {:induction false} AllPassesWritten(s: string, x: string, labels: seq<string>, n: nat)
    requires Ordered(labels) && GoodLabels(labels) && n <= |labels| && x != "" && Safe(x)
    requires AllWritten(s, x, labels, n) && forall m :: 0 <= m < n ==> Redacted(s, labels[m])
    ensures NonEmpty(labels[n..]) && AllWritten(PassAll(s, labels[n..]), x, labels, |labels|)
    decreases |labels| - n
  {
    hide Safe, Pass, GoodLabel, Ordered, Redacted, AllWritten;
    assert NonEmpty(labels[n..]) by { assert NonEmpty(labels); }
    if n < |labels| {
      PassWritten(s, x, labels, n);
      var t := Pass(s, labels[n]);
      forall m | 0 <= m < n + 1 ensures Redacted(t, labels[m]) { PassKeeps(s, labels[n], labels[m]); }
      AllPassesWritten(t, x, labels, n + 1);
      assert labels[n..][1..] == labels[n + 1..];
    }
  }

  /** A secret that comes back is one that a label can spell. */
  lemma OnlyRevivable(s: string, x: string, labels: seq<string>)
    requires Ordered(labels) && GoodLabels(labels) && x != "" && Safe(x)
    requires !Contains(s, x) && Contains(PassAll(s, labels), x)
    ensures Revivable(x, labels)
  {
    hide Pass, GoodLabel, Ordered, Redacted, WrittenBy, Safe, Revivable, PassAll;
    var r := PassAll(s, labels);
    assert AllWritten(s, x, labels, 0) by {
      forall j ensures !Holds(s, j, x) {
        assert 0 <= j <= |s| ==> !Holds(s, j, x);
      }
    }
    assert labels[0..] == labels;
    AllPassesWritten(s, x, labels, 0);
    forall m | 0 <= m < |labels| ensures Redacted(r, labels[m]) { PassAllKeeps(s, labels, labels[m]); }
    FramedIsRevivable(r, Place(r, x), x, labels);
  }

  lemma FramedIsRevivable(r: string, j: int, x: string, labels: seq<string>)
    requires Ordered(labels) && GoodLabels(labels) && x != "" && Safe(x)
    requires WrittenBy(r, j, x, labels, |labels|) && forall m :: 0 <= m < |labels| ==> Redacted(r, labels[m])
    ensures Revivable(x, labels)
  {
    hide GoodLabel, Redacted, Occurs, Around, Contains;
    var k: nat, d: int :| Written(r, j, x, labels, k, d, |labels|);
    var q := labels[k];
    var w := Around(x, q, d);
    forall m, i | 0 <= m < |labels| && Occurs(w, i, labels[m]) ensures m <= k && i + |labels[m]| == |w| {
      if d <= 0 {
        EndsInLabel(x, labels, k, d, m, i);
      } else {
        FrameReads(r, j, x, q, d);
        OccursPart(r, j, w, i, labels[m]);
        assert Redacted(r, labels[m]);
        AroundEnds(r, j, x, q, d, i, labels[m]);
      }
    }
    assert IsLast(w, labels, k);
  }

  lemma EndsInLabel(x: string, labels: seq<string>, k: nat, d: int, m: nat, i: int)
    requires Ordered(labels) && k < |labels| && m < |labels| && d <= 0 && Suffixes(labels, k)
    requires Occurs(Around(x, labels[k], d), i, labels[m])
    ensures m <= k && i + |labels[m]| == |Around(x, labels[k], d)|
  {
    assert Around(x, labels[k], d) == labels[k];
    assert !(k < m);
  }

  lemma AroundEnds(r: string, j: int, x: string, q: string, d: int, i: int, p: string)
    requires 0 < d < |x| && BracketFree(x) && GoodLabel(q) && 0 <= j
    requires Occurs(r, j, Around(x, q, d)) && Occurs(Around(x, q, d), i, p) && Occurs(r, j + i, p) && Redacted(r, p)
    ensures i + |p| == |Around(x, q, d)|
  {
    var w := Around(x, q, d);
    assert BracketFree(w);
    EndsAtMarker(r, j, w, i + |p|);
  }

  // ----- a text that brings it back

  function OtherCase(q: string, c: char): (r: string)
    ensures |r| == |q| && Lower(r) == Lower(q)
  {
    if IsLower(c) then Upper(q) else Lower(q)
  }

  lemma CharHolds(s: string, j: int, x: string, at: nat)
    requires Holds(s, j, x) && at < |x|
    ensures 0 <= j && j + at < |s| && s[j + at] == x[at]
  {
    assert s[j..j + |x|][at] == s[j + at];
  }

  /** With the label in another letter case the secret is not in the text around it. */
  lemma NotThere(x: string, q: string, d: int, c: char)
    requires Writes(x, q, d) && (IsUpper(c) || IsLower(c)) && c in x[Above(d)..]
    ensures !Contains(x[..Above(d)] + OtherCase(q, c), x)
  {
    hide Laid, HasLetter, Holds;
    var u, other := x[..Above(d)], OtherCase(q, c);
    assert forall i :: 0 <= i < |q| ==> other[i] != c;
    var l :| 0 <= l < |x[Above(d)..]| && x[Above(d)..][l] == c;
    forall j ensures !Holds(u + other, j, x) {
      if Holds(u + other, j, x) {
        CharHolds(u + other, j, x, Above(d) + l);
      }
    }
  }

  predicate Bare(t: string) { t == "" || t == MARKER }

  /** In bare text, or with the marker behind it, a label occurs where it occurs in the text before it. */
  lemma OccursBefore(v: string, t: string, i: int, p: string)
    requires Bare(t) && GoodLabel(p)
    ensures Occurs(v + t, i, p) <==> Occurs(v, i, p)
  {
    var s, m := v + t, |v|;
    if Occurs(s, i, p) && t == MARKER {
      assert s[m..m + 10] == MARKER;
      if m < i + |p| {
        PastMarker(s, p, i, m);
        assert false;
      }
    }
  }

  lemma AlikeOccurs(v: string, w: string, i: int, p: string)
    requires Lower(v) == Lower(w)
    ensures Occurs(v, i, p) <==> Occurs(w, i, p)
  {
    assert |Lower(v)| == |v| && |Lower(w)| == |w|;
    assert forall j :: 0 <= j < |v| ==> Lower(v)[j] == LowerChar(v[j]) && Lower(w)[j] == LowerChar(w[j]);
  }

  lemma PassAtEnd(v: string, t: string, p: string, i: nat)
    requires Bare(t) && GoodLabel(p) && Occurs(v, i, p) && i + |p| == |v|
    requires forall j :: 0 <= j < i ==> !Occurs(v, j, p)
    ensures Pass(v + t, p) == v[..i] + p + MARKER
  {
    hide GoodLabel, Pass, NextDelimiter;
    var s := v + t;
    LabelNonEmpty(p);
    OccursBefore(v, t, i, p);
    forall j | 0 <= j < i ensures !Occurs(s, j, p) { OccursBefore(v, t, j, p); }
    FoundFirst(s, p, i);
    PassUnfolds(s, p, i);
    NoDelimiterBehind(s, |v|, t);
    PassEnds("", p);
    assert s[..i] == v[..i] && s[|s|..] == "";
  }

  lemma NoDelimiterBehind(s: string, from: nat, t: string)
    requires Bare(t) && from <= |s| && s[from..] == t
    ensures NextDelimiter(s, from) == |s|
  {
    var k := NextDelimiter(s, from);
    if k < |s| {
      assert s[from..][k - from] == s[k];
      NoDelimiterInMarker(k - from);
    }
  }

  lemma PassNowhere(v: string, t: string, p: string)
    requires Bare(t) && GoodLabel(p) && forall i :: !Occurs(v, i, p)
    ensures Pass(v + t, p) == v + t
  {
    hide GoodLabel, Pass, Occurs, FirstFrom;
    LabelNonEmpty(p);
    forall i ensures !Occurs(v + t, i, p) { OccursBefore(v, t, i, p); }
    assert FirstFrom(v + t, p, 0).None?;
    PassEnds(v + t, p);
  }

  /** `v` reads as the text around the secret, and the part before the label is as it was. */
  ghost predicate Waits(v: string, x: string, q: string, d: int)
    requires d <= |x|
  {
    Lower(v) == Lower(Around(x, q, d)) && x[..Above(d)] <= v
  }

  lemma RecasedTail(v: string, x: string, q: string, d: int, p: string, i: nat)
    requires d <= |x| && Waits(v, x, q, d) && Above(d) <= i && Occurs(v, i, p) && i + |p| == |v|
    ensures Waits(v[..i] + p, x, q, d)
  {
    var w := v[..i] + p;
    assert forall j :: 0 <= j < |v| ==> LowerChar(w[j]) == LowerChar(v[j]);
    assert Lower(w) == Lower(v);
  }

  /** An earlier label, where it occurs, recases the end of the waiting label. */
  lemma EarlierPass(v: string, t: string, x: string, labels: seq<string>, k: nat, d: int, m: nat)
    returns (v2: string, t2: string)
    requires GoodLabels(labels) && Ordered(labels) && m < k < |labels| && d < |x| && Bare(t)
    requires IsLast(Around(x, labels[k], d), labels, k) && Waits(v, x, labels[k], d)
    ensures Bare(t2) && Waits(v2, x, labels[k], d) && Pass(v + t, labels[m]) == v2 + t2
  {
    hide GoodLabel, Pass, Occurs, Lower;
    var p, w := labels[m], Around(x, labels[k], d);
    if i: int :| Occurs(v, i, p) {
      AlikeOccurs(v, w, i, p);
      assert |v| == |w| by { SameLength(v, w); }
      assert 0 <= i by { OccursBounds(v, i, p); }
      NotLonger(v, x, labels, k, d, m, i);
      forall j | 0 <= j < i ensures !Occurs(v, j, p) { AlikeOccurs(v, w, j, p); }
      PassAtEnd(v, t, p, i);
      RecasedTail(v, x, labels[k], d, p, i);
      v2, t2 := v[..i] + p, MARKER;
    } else {
      PassNowhere(v, t, p);
      v2, t2 := v, t;
    }
  }

  lemma SameLength(v: string, w: string)
    requires Lower(v) == Lower(w)
    ensures |v| == |w|
  {
    assert |Lower(v)| == |v| && |Lower(w)| == |w|;
  }

  lemma NotLonger(v: string, x: string, labels: seq<string>, k: nat, d: int, m: nat, i: int)
    requires Ordered(labels) && m < k < |labels| && d < |x| && Waits(v, x, labels[k], d)
    requires Occurs(v, i, labels[m]) && i + |labels[m]| == |v|
    ensures Above(d) <= i
  {
    var q, p, w := labels[k], labels[m], Around(x, labels[k], d);
    SameLength(v, w);
    AlikeOccurs(v, w, i, p);
    if i < Above(d) {
      var at := Above(d) - i;
      forall j | 0 <= j < |q| ensures LowerChar(p[at + j]) == LowerChar(q[j]) {
        assert LowerChar(w[i + (at + j)]) == LowerChar(p[at + j]);
      }
      assert Occurs(p, at, q);
    }
  }

  /** The passes of the earlier labels leave the text waiting. */
  lemma {:induction false} EarlierPasses(v: string, t: string, x: string, labels: seq<string>, k: nat, d: int, m: nat)
    returns (v2: string, t2: string)
    requires GoodLabels(labels) && Ordered(labels) && m <= k < |labels| && d < |x| && Bare(t)
    requires IsLast(Around(x, labels[k], d), labels, k) && Waits(v, x, labels[k], d)
    ensures Bare(t2) && Waits(v2, x, labels[k], d)
    ensures NonEmpty(labels[m..k]) && PassAll(v + t, labels[m..k]) == v2 + t2
    decreases k - m
  {
    hide GoodLabel, Pass, Occurs, Lower, Waits, IsLast, Ordered;
    assert NonEmpty(labels[m..k]) by { assert NonEmpty(labels); }
    if m == k {
      v2, t2 := v, t;
    } else {
      var v1, t1 := EarlierPass(v, t, x, labels, k, d, m);
      v2, t2 := EarlierPasses(v1, t1, x, labels, k, d, m + 1);
      assert labels[m..k][1..] == labels[m + 1..k];
    }
  }

  lemma {:induction false} PassAllJoin(s: string, a: seq<string>, b: seq<string>)
    requires NonEmpty(a) && NonEmpty(b)
    ensures NonEmpty(a + b) && PassAll(s, a + b) == PassAll(PassAll(s, a), b)
    decreases |a|
  {
    hide Pass;
    if a == [] {
      assert a + b == b;
    } else {
      assert (a + b)[1..] == a[1..] + b;
      PassAllJoin(Pass(s, a[0]), a[1..], b);
    }
  }

  /** The waiting label's own pass writes the secret, and no later pass finds anything. */
  lemma OwnPass(v: string, t: string, x: string, labels: seq<string>, k: nat, d: int)
    requires GoodLabels(labels) && k < |labels| && d < |x| && Bare(t)
    requires IsLast(Around(x, labels[k], d), labels, k) && Waits(v, x, labels[k], d)
    ensures Pass(v + t, labels[k]) == Around(x, labels[k], d) + MARKER
    ensures NonEmpty(labels[k + 1..])
    ensures PassAll(Around(x, labels[k], d) + MARKER, labels[k + 1..]) == Around(x, labels[k], d) + MARKER
  {
    hide GoodLabel, Pass, PassAll;
    var q, w, u := labels[k], Around(x, labels[k], d), Above(d);
    SameLength(v, w);
    AlikeOccurs(v, w, u, q);
    forall j | 0 <= j < u ensures !Occurs(v, j, q) { AlikeOccurs(v, w, j, q); }
    PassAtEnd(v, t, q, u);
    assert v[..u] == x[..u];
    LaterPasses(w, labels, k);
  }

  lemma LaterPasses(w: string, labels: seq<string>, k: nat)
    requires GoodLabels(labels) && k < |labels| && IsLast(w, labels, k)
    ensures NonEmpty(labels[k + 1..]) && PassAll(w + MARKER, labels[k + 1..]) == w + MARKER
  {
    hide GoodLabel, Occurs;
    var rest := labels[k + 1..];
    assert NonEmpty(rest) by { assert NonEmpty(labels); }
    forall m | 0 <= m < |rest| ensures !Somewhere(w + MARKER, rest[m]) {
      var p := labels[k + 1 + m];
      forall i ensures !Occurs(w + MARKER, i, p) { OccursBefore(w, MARKER, i, p); }
    }
    CleanTextKept(w + MARKER, rest);
  }

  /** A text from which the label passes bring the secret back */
  lemma Revives(x: string, labels: seq<string>) returns (msg: string)
    requires GoodLabels(labels) && Ordered(labels) && Revivable(x, labels)
    ensures !Contains(msg, x) && Contains(PassAll(msg, labels), x)
  {
    hide GoodLabel, Pass, PassAll, Occurs, Lower, Contains, IsLast, Ordered;
    var k: nat, d: int :|
      0 <= k < |labels| && Writes(x, labels[k], d) && IsLast(Around(x, labels[k], d), labels, k);
    var q := labels[k];
    var c :| c in x[Above(d)..] && (IsUpper(c) || IsLower(c));
    msg := x[..Above(d)] + OtherCase(q, c);
    NotThere(x, q, d, c);
    OtherWaits(x, q, d, c);
    assert msg + "" == msg;
    var v, t := EarlierPasses(msg, "", x, labels, k, d, 0);
    OwnPass(v, t, x, labels, k, d);
    var w := Around(x, q, d);
    assert labels == labels[0..k] + ([q] + labels[k + 1..]);
    PassAllOne(v + t, q, labels[k + 1..]);
    PassAllJoin(msg, labels[0..k], [q] + labels[k + 1..]);
    SecretInside(x, q, d);
  }

  lemma PassAllOne(s: string, q: string, rest: seq<string>)
    requires q != "" && NonEmpty(rest)
    ensures NonEmpty([q] + rest) && PassAll(s, [q] + rest) == PassAll(Pass(s, q), rest)
  {
    hide Pass;
    assert ([q] + rest)[1..] == rest;
  }

  lemma OtherWaits(x: string, q: string, d: int, c: char)
    requires d < |x|
    ensures Waits(x[..Above(d)] + OtherCase(q, c), x, q, d)
  {
    var u, other := x[..Above(d)], OtherCase(q, c);
    assert forall j :: 0 <= j < |q| ==> LowerChar(other[j]) == Lower(other)[j] == Lower(q)[j] == LowerChar(q[j]);
    assert Lower(u + other) == Lower(u + q);
  }

  lemma SecretInside(x: string, q: string, d: int)
    requires Writes(x, q, d)
    ensures Contains(Around(x, q, d) + MARKER, x)
  {
    var r, at := Around(x, q, d) + MARKER, if d < 0 then -d else 0;
    assert r[at..at + |x|] == x;
    Within(r, at, x);
  }

  // ----- the code's own labels

  /** What `redact_error_text` makes of a message */
  ghost function Cleansed(msg: string, secrets: seq<string>): (r: string)
  {
    LabelsAreGood();
    PassAll(ValuesRedacted(msg, secrets), LABELS)
  }

  /**
   A listed secret that is no part of the marker is gone from every message, whatever else is
   listed, exactly if no label can bring it back.
   */
  lemma SecretGoneExactly(x: string)
    requires x != "" && Safe(x)
    ensures (forall msg: string, secrets: seq<string> :: x in secrets ==> !Contains(Cleansed(msg, secrets), x))
            <==> !Revivable(x, LABELS)
  {
    hide Revivable, Safe, Contains, ValuesRedacted, PassAll, GoodLabel, Ordered;
    LabelsAreGood();
    LabelsAreOrdered();
    if Revivable(x, LABELS) {
      var msg := Revives(x, LABELS);
      OnceReplaced(msg, x);
      assert x in [x] && Contains(Cleansed(msg, [x]), x);
    } else {
      forall msg: string, secrets: seq<string> | x in secrets ensures !Contains(Cleansed(msg, secrets), x) {
        GoneFrom(msg, secrets, x);
      }
    }
  }

  lemma OnceReplaced(msg: string, x: string)
    requires x != "" && !Contains(msg, x)
    ensures ValuesRedacted(msg, [x]) == msg
  {
    ReplaceNothing(msg, x);
    assert [x][1..] == [];
  }

  lemma GoneFrom(msg: string, secrets: seq<string>, x: string)
    requires x in secrets && x != "" && Safe(x) && !Revivable(x, LABELS)
    ensures !Contains(Cleansed(msg, secrets), x)
  {
    hide Revivable, Safe, Contains, ValuesRedacted, PassAll, GoodLabel, Ordered;
    LabelsAreGood();
    LabelsAreOrdered();
    ValuesStayGone(msg, secrets, x);
    if Contains(Cleansed(msg, secrets), x) {
      OnlyRevivable(ValuesRedacted(msg, secrets), x, LABELS);
    }
  }

  /** A secret with a label in it that does not end it, such as `access_key9sig`, never comes back. */
  lemma InnerLabelStaysGone(x: string, labels: seq<string>, m: nat, i: int)
    requires m < |labels| && Occurs(x, i, labels[m]) && i + |labels[m]| < |x|
    ensures !Revivable(x, labels)
  {
    hide IsLast, HasLetter;
    forall k, d | 0 <= k < |labels| && Writes(x, labels[k], d)
      ensures !IsLast(Around(x, labels[k], d), labels, k)
    {
      SecretInAround(x, labels[k], d);
      var at := if d < 0 then -d else 0;
      OccursPart(Around(x, labels[k], d), at, x, i, labels[m]);
      NotAtEnd(Around(x, labels[k], d), labels, k, m, at + i);
    }
  }

  lemma NotAtEnd(w: string, labels: seq<string>, k: nat, m: nat, i: int)
    requires m < |labels| && Occurs(w, i, labels[m]) && i + |labels[m]| < |w|
    ensures !IsLast(w, labels, k)
  {
  }

  lemma SecretInAround(x: string, q: string, d: int)
    requires Writes(x, q, d)
    ensures Occurs(Around(x, q, d), if d < 0 then -d else 0, x)
    ensures |x| + (if d < 0 then -d else 0) <= |Around(x, q, d)|
  {
  }

  /** `redact_error_text` */
  method RedactErrorText(msg: string, secrets: seq<string>) returns (result: string)
    ensures result == Cleansed(msg, secrets)
    ensures forall k :: 0 <= k < |LABELS| ==> Redacted(result, LABELS[k])
    ensures forall x | x in secrets && x != "" && Safe(x) ::
      && !Contains(ValuesRedacted(msg, secrets), x)
      && (!Revivable(x, LABELS) ==> !Contains(result, x))
    ensures forall x | x in secrets ::
      GoodLabel(x) && Somewhere(result, x) ==> Somewhere(ValuesRedacted(msg, secrets), x)
  {
    hide GoodLabel, Redacted, Pass, PassAll, ValuesRedacted, Somewhere, Contains, Revivable, Safe;
    var values := RedactSecretValues(msg, secrets);
    result := RedactCredentials(values);
    LabelsAreGood();
    forall x | x in secrets && GoodLabel(x) && Somewhere(result, x) ensures Somewhere(values, x) {
      PassAllCreatesNothing(values, LABELS, x);
    }
    forall x | x in secrets && x != "" && Safe(x)
      ensures !Contains(values, x) && (!Revivable(x, LABELS) ==> !Contains(result, x))
    {
      ValuesStayGone(msg, secrets, x);
      if !Revivable(x, LABELS) {
        GoneFrom(msg, secrets, x);
      }
    }
  }

  /** A secret spelled like a label is written by the label pass where another casing of it stood. */
  lemma LabelSpellsSecret()
    ensures NonEmpty(LABELS) && Safe("sig=")
    ensures Contains(PassAll(ValuesRedacted("SIG=x", ["sig="]), LABELS), "sig=")
  {
    hide GoodLabel, Pass, PassAll, Somewhere, Contains, Replace;
    LabelsAreGood();
    SigIsSafe();
    ReplaceNothing("SIG=x", "sig=");
    assert ["sig="][1..] == [];
    SigPasses();
    assert "sig=[REDACTED]"[0..4] == "sig=";
    Within("sig=[REDACTED]", 0, "sig=");
  }

  lemma CharsOf(s: string, x: string)
    requires Contains(s, x)
    ensures forall c | c in x :: c in s
  {
    var i := Place(s, x);
    assert forall j :: 0 <= j < |x| ==> x[j] == s[i + j];
  }

  lemma SigIsSafe()
    ensures Safe("sig=") && !Contains("SIG=x", "sig=")
  {
    hide Contains;
    assert "sig="[0] == 's' && 's' !in MARKER && BracketFree("sig=");
    if Contains(MARKER, "sig=") {
      CharsOf(MARKER, "sig=");
    }
    var s := "SIG=x";
    assert 's' !in s;
    if Contains(s, "sig=") {
      CharsOf(s, "sig=");
    }
  }

  lemma TooLong(s: string, q: string)
    requires |s| < |q|
    ensures !Somewhere(s, q)
  {
  }

  lemma SigPass()
    ensures Pass("SIG=x", "sig=") == "sig=[REDACTED]"
  {
    var s := "SIG=x";
    assert Occurs(s, 0, "sig=");
    assert FirstFrom(s, "sig=", 0) == Some(0) && FirstEnd(s, "sig=", 0) == 5;
    PassUnfolds(s, "sig=", 0);
    PassEnds("", "sig=");
    assert s[5..] == "" && s[..0] == "";
  }

  lemma SasPass()
    ensures Pass("sig=[REDACTED]", "\"sas\":\"") == "sig=[REDACTED]"
  {
    var s, q := "sig=[REDACTED]", "\"sas\":\"";
    forall i ensures !Occurs(s, i, q) {
      if Occurs(s, i, q) {
        BracketNeverLower(s[i], q[0]);
      }
    }
    PassEnds(s, q);
  }

  lemma SigPasses()
    requires NonEmpty(LABELS)
    ensures PassAll("SIG=x", LABELS) == "sig=[REDACTED]"
  {
    hide GoodLabel, Pass, PassAll, Somewhere;
    var before, last := LABELS[..21], LABELS[22];
    forall k | 0 <= k < 21 ensures !Somewhere("SIG=x", before[k]) {
      TooLong("SIG=x", before[k]);
    }
    CleanTextKept("SIG=x", before);
    PassAllConcat("SIG=x", before, "sig=");
    SigPass();
    PassAllConcat("SIG=x", before + ["sig="], last);
    SasPass();
    assert before + ["sig="] + [last] == LABELS;
  }
}

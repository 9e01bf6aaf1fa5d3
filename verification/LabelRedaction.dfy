/** The label pass: the value behind each credential label gives way to the marker. */
module LabelRedaction {
  import opened Common
  import opened Redaction

  function FirstFrom(s: string, q: string, i: nat): (r: Option<nat>)
    requires i <= |s|
    ensures r.Some? ==> i <= r.value && Occurs(s, r.value, q) && forall k :: i <= k < r.value ==> !Occurs(s, k, q)
    ensures r.None? ==> forall k :: i <= k ==> !Occurs(s, k, q)
    decreases |s| - i
  {
    if Occurs(s, i, q) then Some(i) else if i == |s| then None else FirstFrom(s, q, i + 1)
  }

  function NextDelimiter(s: string, i: nat): (k: nat)
    requires i <= |s|
    ensures i <= k <= |s| && (k < |s| ==> IsDelimiter(s[k]))
    ensures forall j :: i <= j < k ==> !IsDelimiter(s[j])
    decreases |s| - i
  {
    if i == |s| || IsDelimiter(s[i]) then i else NextDelimiter(s, i + 1)
  }

  /** What one label's pass makes of a text. */
  function Pass(s: string, q: string): (r: string)
    requires q != ""
    decreases |s|
  {
    match FirstFrom(s, q, 0)
    case None => s
    case Some(idx) => s[..idx] + q + MARKER + Pass(s[NextDelimiter(s, idx + |q|)..], q)
  }

  predicate NonEmpty(labels: seq<string>) { forall k :: 0 <= k < |labels| ==> labels[k] != "" }

  function PassAll(s: string, labels: seq<string>): (r: string)
    requires NonEmpty(labels)
    decreases |labels|
  {
    if labels == [] then s else PassAll(Pass(s, labels[0]), labels[1..])
  }

  /** Every occurrence of `p` is followed at once by the marker, and then by a delimiter or the end. */
  ghost predicate Redacted(s: string, p: string)
  {
    forall i :: Occurs(s, i, p) ==> Follows(s, i + |p|)
  }

  predicate Follows(s: string, e: int)
  {
    0 <= e <= |s| - 10 && s[e..e + 10] == MARKER && (e + 10 < |s| ==> IsDelimiter(s[e + 10]))
  }

  /** What the code needs of a label: no bracket in it, and no reading of the marker as it. */
  ghost predicate GoodLabel(q: string) { q != "" && BracketFree(q) && OutsideMarker(q) }

  // ----- one step of a pass

  /** `r` is `s` after the first label is rewritten and the rest is `tail`. */
  ghost predicate Step(s: string, q: string, idx: nat, tail: string, r: string)
  {
    && Occurs(s, idx, q)
    && r == s[..idx] + q + MARKER + tail
    && (tail != "" ==> IsDelimiter(tail[0]))
  }

  lemma BracketNeverLower(c: char, d: char)
    requires LowerChar(c) == LowerChar(d) && !IsUpper(d) && !IsLower(d)
    ensures c == d
  {
  }

  /** Text inside a ten-character stretch occurs in that stretch. */
  lemma InSlice(s: string, m: nat, i: int, p: string)
    requires m + 10 <= |s| && m <= i <= m + 10 - |p| && Occurs(s, i, p)
    ensures Occurs(s[m..m + 10], i - m, p)
  {
    var t := s[m..m + 10];
    forall j | 0 <= j < |p| ensures LowerChar(t[i - m + j]) == LowerChar(p[j]) {
      assert t[i - m + j] == s[i + j];
    }
  }

  /** Bracket-free text in a rewritten text lies before the marker or behind it. */
  lemma Placed(s: string, q: string, idx: nat, tail: string, r: string, p: string, i: int)
    requires Step(s, q, idx, tail, r) && GoodLabel(p) && Occurs(r, i, p)
    ensures i + |p| <= idx + |q| || idx + |q| + 10 <= i
  {
    var m := idx + |q|;
    assert r[m] == '[' && r[m + 9] == ']' by { assert r[m..m + 10] == MARKER; }
    if i <= m < i + |p| {
      BracketNeverLower(p[m - i], r[m]);
    } else if i <= m + 9 < i + |p| {
      BracketNeverLower(p[m + 9 - i], r[m + 9]);
    } else if m < i && i + |p| <= m + 9 {
      assert r[m..m + 10] == MARKER;
      InSlice(r, m, i, p);
    }
  }

  /** Before the marker nothing but letter case has changed. */
  lemma BeforeMarker(s: string, q: string, idx: nat, tail: string, r: string, p: string, i: int)
    requires Step(s, q, idx, tail, r) && Occurs(r, i, p) && i + |p| <= idx + |q|
    ensures Occurs(s, i, p)
  {
    assert forall k :: 0 <= k < idx + |q| ==> LowerChar(r[k]) == LowerChar(s[k]);
  }

  lemma OccursBehind(head: string, tail: string, i: int, p: string)
    requires Occurs(head + tail, i, p) && |head| <= i
    ensures Occurs(tail, i - |head|, p)
  {
    forall j | 0 <= j < |p| ensures LowerChar(tail[i - |head| + j]) == LowerChar(p[j]) {
      assert (head + tail)[i + j] == tail[i - |head| + j];
    }
  }

  lemma FollowsBehind(head: string, tail: string, e: int)
    requires Follows(tail, e)
    ensures Follows(head + tail, |head| + e)
  {
    assert (head + tail)[|head| + e..|head| + e + 10] == tail[e..e + 10];
  }

  lemma BehindMarker(s: string, q: string, idx: nat, tail: string, r: string, p: string, i: int)
    requires Step(s, q, idx, tail, r) && Occurs(r, i, p) && idx + |q| + 10 <= i
    ensures Occurs(tail, i - (idx + |q| + 10), p)
    ensures Follows(tail, i - (idx + |q| + 10) + |p|) ==> Follows(r, i + |p|)
  {
    assert idx <= |s| by { OccursBounds(s, idx, q); }
    hide Occurs, Follows;
    var head := s[..idx] + q + MARKER;
    OccursBehind(head, tail, i, p);
    if Follows(tail, i - |head| + |p|) {
      FollowsBehind(head, tail, i - |head| + |p|);
    }
  }

  lemma AtMarker(s: string, q: string, idx: nat, tail: string, r: string)
    requires Step(s, q, idx, tail, r)
    ensures Follows(r, idx + |q|)
  {
    var m := idx + |q|;
    assert r[m..m + 10] == MARKER;
    if m + 10 < |r| {
      assert r[m + 10] == tail[0];
    }
  }

  /** A marker that stood before the rewritten label stands there still. */
  lemma EarlierMarker(s: string, q: string, idx: nat, tail: string, r: string, e: int)
    requires Step(s, q, idx, tail, r) && GoodLabel(q) && Follows(s, e) && e < idx + |q|
    ensures Follows(r, e)
  {
    assert s[e] == '[' && s[e + 9] == ']' by { assert s[e..e + 10][0] == '[' && s[e..e + 10][9] == ']'; }
    OutsideOldMarker(s, q, idx, e);
    assert r[e..e + 10] == s[e..e + 10];
    if e + 10 == idx {
      BracketNeverLower(q[0], s[idx]);
      assert r[idx] == q[0];
    } else {
      assert r[e + 10] == s[e + 10];
    }
  }

  lemma OutsideOldMarker(s: string, q: string, idx: nat, e: int)
    requires Occurs(s, idx, q) && GoodLabel(q) && Follows(s, e) && e < idx + |q|
    requires s[e] == '[' && s[e + 9] == ']'
    ensures e + 10 <= idx
  {
    if idx <= e {
      BracketNeverLower(q[e - idx], s[e]);
    } else if idx <= e + 9 < idx + |q| {
      BracketNeverLower(q[e + 9 - idx], s[e + 9]);
    } else if idx < e + 10 {
      InSlice(s, e, idx, q);
    }
  }

  /** One step keeps every label redacted that was, and the rewritten label's occurrence is. */
  lemma StepKeeps(s: string, q: string, idx: nat, tail: string, r: string, p: string)
    requires Step(s, q, idx, tail, r) && GoodLabel(q) && GoodLabel(p) && Redacted(tail, p)
    requires Redacted(s, p) || (p == q && forall k :: 0 <= k < idx ==> !Occurs(s, k, q))
    ensures Redacted(r, p)
  {
    hide GoodLabel, Step, Follows, Occurs;
    forall i | Occurs(r, i, p) ensures Follows(r, i + |p|) {
      Placed(s, q, idx, tail, r, p, i);
      if idx + |q| + 10 <= i {
        BehindMarker(s, q, idx, tail, r, p, i);
      } else {
        BeforeMarker(s, q, idx, tail, r, p, i);
        if i + |p| == idx + |q| {
          AtMarker(s, q, idx, tail, r);
        } else {
          assert 0 <= i by { OccursBounds(s, i, p); }
          EarlierMarker(s, q, idx, tail, r, i + |p|);
        }
      }
    }
  }

  lemma OccursBounds(s: string, i: int, p: string)
    requires Occurs(s, i, p)
    ensures 0 <= i <= |s| - |p|
  {
  }

  // ----- a whole pass

  lemma SuffixRedacted(s: string, k: nat, p: string)
    requires k <= |s| && Redacted(s, p)
    ensures Redacted(s[k..], p)
  {
    forall i | Occurs(s[k..], i, p) ensures Follows(s[k..], i + |p|) {
      forall j | 0 <= j < |p| ensures LowerChar(s[k + i + j]) == LowerChar(p[j]) {
        assert s[k + i + j] == s[k..][i + j];
      }
      assert Occurs(s, k + i, p);
      var e := k + i + |p|;
      assert s[k..][i + |p|..i + |p| + 10] == s[e..e + 10];
    }
  }

  lemma {:induction false} PassStartsAlike(s: string, q: string)
    requires q != "" && (s != "" ==> IsDelimiter(s[0]))
    ensures Pass(s, q) != "" ==> IsDelimiter(Pass(s, q)[0])
  {
    if s != "" && FirstFrom(s, q, 0) == Some(0) {
      BracketNeverLower(q[0], s[0]);
    }
  }

  /** Where the value behind a label at `idx` ends */
  function FirstEnd(s: string, q: string, idx: nat): (end: nat)
    requires Occurs(s, idx, q)
    ensures idx + |q| <= end <= |s|
  {
    NextDelimiter(s, idx + |q|)
  }

  lemma PassUnfolds(s: string, q: string, idx: nat)
    requires q != "" && FirstFrom(s, q, 0) == Some(idx)
    ensures Occurs(s, idx, q) && Pass(s, q) == s[..idx] + q + MARKER + Pass(s[FirstEnd(s, q, idx)..], q)
  {
    hide Occurs, FirstFrom, NextDelimiter;
  }

  lemma PassSteps(s: string, q: string, idx: nat)
    requires q != "" && FirstFrom(s, q, 0) == Some(idx)
    ensures Occurs(s, idx, q) && Step(s, q, idx, Pass(s[FirstEnd(s, q, idx)..], q), Pass(s, q))
  {
    hide Pass, FirstFrom, Occurs;
    PassUnfolds(s, q, idx);
    PassStartsAlike(s[FirstEnd(s, q, idx)..], q);
  }

  lemma PassEnds(s: string, q: string)
    requires q != ""
    ensures FirstFrom(s, q, 0).None? || s == "" ==> Pass(s, q) == s
  {
  }

  lemma NowhereRedacted(s: string, q: string)
    requires FirstFrom(s, q, 0).None?
    ensures Redacted(s, q)
  {
    hide Occurs, Follows;
    forall i | Occurs(s, i, q) ensures Follows(s, i + |q|) {
      OccursBounds(s, i, q);
    }
  }

  /** A pass redacts its own label, and keeps every other label redacted that was. */
  lemma {:induction false} PassKeeps(s: string, q: string, p: string)
    requires GoodLabel(q) && GoodLabel(p) && (p == q || Redacted(s, p))
    ensures Redacted(Pass(s, q), p)
    decreases |s|
  {
    hide GoodLabel, Pass, FirstFrom, NextDelimiter, Occurs, Redacted;
    assert q != "" by { LabelNonEmpty(q); }
    var first := FirstFrom(s, q, 0);
    if first.Some? {
      var idx := first.value;
      var end := FirstEnd(s, q, idx);
      if p != q {
        SuffixRedacted(s, end, p);
      }
      PassKeeps(s[end..], q, p);
      PassSteps(s, q, idx);
      StepKeeps(s, q, idx, Pass(s[end..], q), Pass(s, q), p);
    } else {
      PassEnds(s, q);
      if p == q {
        NowhereRedacted(s, q);
      }
    }
  }

  lemma LabelNonEmpty(q: string)
    requires GoodLabel(q)
    ensures q != ""
  {
  }

  ghost predicate GoodLabels(labels: seq<string>)
    ensures GoodLabels(labels) ==> NonEmpty(labels)
  {
    forall k :: 0 <= k < |labels| ==> GoodLabel(labels[k])
  }

  lemma {:induction false} PassAllKeeps(s: string, labels: seq<string>, p: string)
    requires GoodLabels(labels) && GoodLabel(p) && (p in labels || Redacted(s, p))
    ensures Redacted(PassAll(s, labels), p)
    decreases |labels|
  {
    hide GoodLabel, Redacted, Pass;
    if labels != [] {
      var q := labels[0];
      if p == q || Redacted(s, p) {
        PassKeeps(s, q, p);
      }
      PassAllKeeps(Pass(s, q), labels[1..], p);
    }
  }

  // ----- a second run

  lemma NoDelimiterInMarker(j: nat)
    requires j < 10
    ensures !IsDelimiter(MARKER[j])
  {
  }

  lemma MarkerHasNoDelimiter(s: string, e: nat)
    requires Follows(s, e)
    ensures NextDelimiter(s, e) == e + 10
  {
    forall j | e <= j < e + 10 ensures !IsDelimiter(s[j]) {
      assert s[j] == s[e..e + 10][j - e];
      NoDelimiterInMarker(j - e);
    }
  }

  /** On text where its label is redacted already, a pass changes letter case at most. */
  lemma {:induction false} PassAgain(s: string, q: string)
    requires q != "" && Redacted(s, q)
    ensures Lower(Pass(s, q)) == Lower(s)
    decreases |s|
  {
    var first := FirstFrom(s, q, 0);
    if first.Some? {
      var idx := first.value;
      var after := idx + |q|;
      assert Follows(s, after);
      MarkerHasNoDelimiter(s, after);
      SuffixRedacted(s, after + 10, q);
      PassAgain(s[after + 10..], q);
      LowerParts(s, q, idx, Pass(s[after + 10..], q));
    }
  }

  lemma LowerParts(s: string, q: string, idx: nat, tail: string)
    requires Occurs(s, idx, q) && Follows(s, idx + |q|) && Lower(tail) == Lower(s[idx + |q| + 10..])
    ensures Lower(s[..idx] + q + MARKER + tail) == Lower(s)
  {
    var m := idx + |q| + 10;
    var r := s[..idx] + q + MARKER + tail;
    assert |tail| == |Lower(tail)| == |s| - m;
    forall k | 0 <= k < |s| ensures LowerChar(r[k]) == LowerChar(s[k]) {
      if idx <= k < idx + |q| {
        assert LowerChar(s[idx + (k - idx)]) == LowerChar(q[k - idx]);
      } else if idx + |q| <= k < m {
        assert s[k] == s[idx + |q|..m][k - (idx + |q|)];
      } else if m <= k {
        assert Lower(tail)[k - m] == Lower(s[m..])[k - m];
      }
    }
  }

  lemma {:induction false} PassAllAgain(s: string, labels: seq<string>)
    requires GoodLabels(labels) && forall k :: 0 <= k < |labels| ==> Redacted(s, labels[k])
    ensures Lower(PassAll(s, labels)) == Lower(s)
    decreases |labels|
  {
    hide GoodLabel, Redacted, Pass;
    if labels != [] {
      var q, rest := labels[0], labels[1..];
      PassAgain(s, q);
      forall k | 0 <= k < |rest| ensures Redacted(Pass(s, q), rest[k]) {
        assert rest[k] == labels[k + 1];
        PassKeeps(s, q, rest[k]);
      }
      PassAllAgain(Pass(s, q), rest);
    }
  }

  // ----- the method

  lemma {:induction false} PassAllConcat(s: string, a: seq<string>, x: string)
    requires NonEmpty(a) && x != ""
    ensures NonEmpty(a + [x]) && PassAll(s, a + [x]) == Pass(PassAll(s, a), x)
    decreases |a|
  {
    hide Pass;
    if a == [] {
      assert a + [x] == [x] && [x][1..] == [];
    } else {
      assert (a + [x])[1..] == a[1..] + [x];
      PassAllConcat(Pass(s, a[0]), a[1..], x);
    }
  }

  /** One turn of the inner loop: what lies behind the cursor grows, the whole stays. */
  lemma PassMoves(done: string, tail: string, q: string, rel: nat)
    requires q != "" && FirstFrom(tail, q, 0) == Some(rel) && Occurs(tail, rel, q)
    ensures done + Pass(tail, q) == done + tail[..rel] + q + MARKER + Pass(tail[FirstEnd(tail, q, rel)..], q)
  {
    hide Pass, FirstFrom, FirstEnd, Occurs;
    PassUnfolds(tail, q, rel);
  }

  lemma Split(a: string, b: string)
    ensures (a + b)[..|a|] == a && (a + b)[|a|..] == b
  {
  }

  lemma DelimiterShift(s: string, from: nat, i: nat)
    requires from <= i <= |s|
    ensures NextDelimiter(s, i) - from == NextDelimiter(s[from..], i - from)
  {
    var k, l := NextDelimiter(s, i), NextDelimiter(s[from..], i - from);
  }

  /** The nested loops of `redact_credentials`, over any labels. */
  method RedactLabels(s: string, labels: seq<string>) returns (result: string)
    requires NonEmpty(labels)
    ensures result == PassAll(s, labels)
  {
    hide Pass, FirstFrom, NextDelimiter;
    result := s;
    for k := 0 to |labels|
      invariant result == PassAll(s, labels[..k])
    {
      var q := labels[k];
      ghost var goal := Pass(result, q);
      var from := 0;
      assert result[0..] == result && result[..0] + goal == goal;
      var found := FirstFrom(result[from..], q, 0);
      while found.Some?
        invariant from <= |result| && goal == result[..from] + Pass(result[from..], q)
        invariant found == FirstFrom(result[from..], q, 0)
        decreases |result| - from
      {
        var idx := from + found.value;
        var after := idx + |q|;
        var end := NextDelimiter(result, after);
        ghost var done, tail := result[..from], result[from..];
        DelimiterShift(result, from, after);
        PassMoves(done, tail, q, found.value);
        assert done + tail[..found.value] == result[..idx] && tail[end - from..] == result[end..];
        Split(result[..idx] + q + MARKER, result[end..]);
        result := result[..idx] + q + MARKER + result[end..];
        from := after + |MARKER|;
        found := FirstFrom(result[from..], q, 0);
        if from >= |result| {
          break;
        }
      }
      PassEnds(result[from..], q);
      assert result[..from] + result[from..] == result;
      PassAllConcat(s, labels[..k], q);
      assert labels[..k] + [q] == labels[..k + 1];
    }
    assert labels[..|labels|] == labels;
  }

  // ----- the label pass creates nothing

  ghost predicate Somewhere(s: string, x: string) { exists i :: Occurs(s, i, x) }

  lemma {:induction false} PassCreatesNothing(s: string, q: string, x: string)
    requires GoodLabel(q) && GoodLabel(x) && Somewhere(Pass(s, q), x)
    ensures Somewhere(s, x)
    decreases |s|
  {
    hide GoodLabel, Pass, FirstFrom, NextDelimiter, Occurs, FirstEnd;
    LabelNonEmpty(q);
    var first := FirstFrom(s, q, 0);
    if first.Some? {
      var idx := first.value;
      PassSteps(s, q, idx);
      var end, r := FirstEnd(s, q, idx), Pass(s, q);
      var tail := Pass(s[end..], q);
      var i :| Occurs(r, i, x);
      Placed(s, q, idx, tail, r, x, i);
      if i + |x| <= idx + |q| {
        BeforeMarker(s, q, idx, tail, r, x, i);
      } else {
        BehindMarker(s, q, idx, tail, r, x, i);
        PassCreatesNothing(s[end..], q, x);
        InSuffix(s, end, x);
      }
    } else {
      PassEnds(s, q);
    }
  }

  lemma InSuffix(s: string, k: nat, x: string)
    requires k <= |s| && Somewhere(s[k..], x)
    ensures Somewhere(s, x)
  {
    var i :| Occurs(s[k..], i, x);
    forall j | 0 <= j < |x| ensures LowerChar(s[k + i + j]) == LowerChar(x[j]) {
      assert s[k + i + j] == s[k..][i + j];
    }
    assert Occurs(s, k + i, x);
  }

  /** A bracket-free text outside the marker is in the output only if, letter case aside, it was in the input. */
  lemma {:induction false} PassAllCreatesNothing(s: string, labels: seq<string>, x: string)
    requires GoodLabels(labels) && GoodLabel(x) && Somewhere(PassAll(s, labels), x)
    ensures Somewhere(s, x)
    decreases |labels|
  {
    hide GoodLabel, Pass, Somewhere;
    if labels != [] {
      PassAllCreatesNothing(Pass(s, labels[0]), labels[1..], x);
      PassCreatesNothing(s, labels[0], x);
    }
  }

  /** Text in which no label occurs is left alone. */
  lemma {:induction false} CleanTextKept(s: string, labels: seq<string>)
    requires NonEmpty(labels) && forall k :: 0 <= k < |labels| ==> !Somewhere(s, labels[k])
    ensures PassAll(s, labels) == s
    decreases |labels|
  {
    hide Pass, Occurs;
    if labels != [] {
      PassEnds(s, labels[0]);
      CleanTextKept(s, labels[1..]);
    }
  }

  // ----- what a pass takes out, and what it leaves

  /** The characters that end a value */
  predicate EndsValue(c: char) { c in ['\"', '\'', ' ', '\n', ',', '&', '\r'] }

  lemma DelimitersExactly(c: char)
    ensures IsDelimiter(c) <==> EndsValue(c)
  {
  }

  /** A label as it stands in some letter case, and behind it all that does not end a value */
  ghost predicate IsCredential(c: string, q: string)
  {
    Occurs(c, 0, q) && forall i :: |q| <= i < |c| ==> !EndsValue(c[i])
  }

  lemma DelimiterFound(s: string, from: nat, end: nat)
    requires from <= end <= |s| && (end < |s| ==> EndsValue(s[end]))
    requires forall i :: from <= i < end ==> !EndsValue(s[i])
    ensures NextDelimiter(s, from) == end
  {
    forall i | 0 <= i < |s| ensures IsDelimiter(s[i]) <==> EndsValue(s[i]) { DelimitersExactly(s[i]); }
    var k := NextDelimiter(s, from);
    assert !(k < end) && !(end < k);
  }

  /**
   Where the label first stands, it is written in its own letter case, its value gives way to the
   marker up to the first of the seven characters, and the pass goes on from there.
   */
  lemma PassCutsValue(pre: string, credential: string, rest: string, q: string)
    requires q != "" && IsCredential(credential, q) && (rest != "" ==> EndsValue(rest[0]))
    requires forall i :: 0 <= i < |pre| ==> !Occurs(pre + credential + rest, i, q)
    ensures Pass(pre + credential + rest, q) == pre + q + MARKER + Pass(rest, q)
  {
    hide Pass, NextDelimiter, FirstFrom, Occurs, EndsValue, IsCredential;
    var s, idx, end := pre + credential + rest, |pre|, |pre| + |credential|;
    CredentialStands(pre, credential, rest, q);
    FoundFirst(s, q, idx);
    DelimiterFound(s, idx + |q|, end);
    PassUnfolds(s, q, idx);
    assert s[..idx] == pre && s[end..] == rest;
  }

  lemma CredentialStands(pre: string, credential: string, rest: string, q: string)
    requires IsCredential(credential, q) && (rest != "" ==> EndsValue(rest[0]))
    ensures var s, end := pre + credential + rest, |pre| + |credential|;
      && |q| <= |credential| && Occurs(s, |pre|, q)
      && (forall i :: |pre| + |q| <= i < end ==> !EndsValue(s[i])) && (end < |s| ==> EndsValue(s[end]))
  {
    hide EndsValue;
    var s := pre + credential + rest;
    assert forall i :: 0 <= i < |credential| ==> s[|pre| + i] == credential[i];
    forall i | |pre| + |q| <= i < |pre| + |credential| ensures !EndsValue(s[i]) {
      assert s[i] == credential[i - |pre|];
    }
  }

  lemma FoundFirst(s: string, q: string, idx: nat)
    requires Occurs(s, idx, q) && forall i :: 0 <= i < idx ==> !Occurs(s, i, q)
    ensures FirstFrom(s, q, 0) == Some(idx)
  {
    hide Occurs, FirstFrom;
    assert idx <= |s| by { OccursBounds(s, idx, q); }
    var first := FirstFrom(s, q, 0);
  }

  /** The credentials a pass takes out of a text, in order */
  function Removed(s: string, q: string): (r: seq<string>)
    requires q != ""
    decreases |s|
  {
    match FirstFrom(s, q, 0)
    case None => []
    case Some(idx) =>
      var end := NextDelimiter(s, idx + |q|);
      [s[idx..end]] + Removed(s[end..], q)
  }

  /** The place of the first bracket */
  function Bracket(s: string): (k: nat)
    ensures k <= |s| && (k < |s| ==> s[k] == '[') && forall i :: 0 <= i < k ==> s[i] != '['
  {
    if s == "" || s[0] == '[' then 0 else 1 + Bracket(s[1..])
  }

  /** The credentials put back, each for a label and its marker */
  function PutBack(r: string, q: string, credentials: seq<string>): (s: string)
    decreases |credentials|
  {
    var k := Bracket(r);
    if credentials == [] || k < |q| || |r| < k + 10 then r
    else r[..k - |q|] + credentials[0] + PutBack(r[k + 10..], q, credentials[1..])
  }

  lemma BracketAt(a: string, rest: string)
    requires forall i :: 0 <= i < |a| ==> a[i] != '['
    ensures Bracket(a + MARKER + rest) == |a|
  {
    var s := a + MARKER + rest;
    assert s[|a|] == '[';
    var k := Bracket(s);
    assert forall i :: 0 <= i < |a| ==> s[i] == a[i];
    assert !(k < |a|) && !(|a| < k);
  }

  lemma PutBackStep(a: string, q: string, tail: string, c: string, more: seq<string>)
    requires BracketFree(a) && BracketFree(q)
    ensures PutBack(a + q + MARKER + tail, q, [c] + more) == a + c + PutBack(tail, q, more)
  {
    var r, k := a + q + MARKER + tail, |a + q|;
    BracketAt(a + q, tail);
    assert r[..k - |q|] == a && r[k + 10..] == tail;
    assert ([c] + more)[1..] == more;
  }

  lemma RemovedUnfolds(s: string, q: string, idx: nat)
    requires q != "" && FirstFrom(s, q, 0) == Some(idx)
    ensures Occurs(s, idx, q)
    ensures Removed(s, q) == [s[idx..FirstEnd(s, q, idx)]] + Removed(s[FirstEnd(s, q, idx)..], q)
  {
    hide Occurs, FirstFrom, NextDelimiter;
  }

  /**
   A pass takes out credentials and nothing else: each is a label with its value, and in text without
   brackets putting them back for the labels and markers restores the text.
   */
  lemma {:induction false} PassUndone(s: string, q: string)
    requires q != "" && BracketFree(q) && BracketFree(s)
    ensures PutBack(Pass(s, q), q, Removed(s, q)) == s
    ensures forall c | c in Removed(s, q) :: IsCredential(c, q)
    decreases |s|
  {
    hide FirstFrom, NextDelimiter, Occurs, IsCredential, Pass, Removed, PutBack;
    var first := FirstFrom(s, q, 0);
    if first.Some? {
      var idx := first.value;
      RemovedUnfolds(s, q, idx);
      PassUnfolds(s, q, idx);
      var end := FirstEnd(s, q, idx);
      var tail, c := s[end..], s[idx..end];
      PassUndone(tail, q);
      CredentialTaken(s, q, idx);
      PutBackStep(s[..idx], q, Pass(tail, q), c, Removed(tail, q));
      assert s == s[..idx] + c + tail;
    } else {
      PassEnds(s, q);
      NothingRemoved(s, q);
    }
  }

  lemma NothingRemoved(s: string, q: string)
    requires q != "" && FirstFrom(s, q, 0).None?
    ensures Removed(s, q) == [] && PutBack(s, q, []) == s
  {
  }

  lemma CredentialTaken(s: string, q: string, idx: nat)
    requires q != "" && Occurs(s, idx, q)
    ensures IsCredential(s[idx..FirstEnd(s, q, idx)], q)
  {
    var end := FirstEnd(s, q, idx);
    var c := s[idx..end];
    forall j | 0 <= j < |q| ensures LowerChar(c[j]) == LowerChar(q[j]) {
      assert c[j] == s[idx + j];
    }
    forall i | |q| <= i < |c| ensures !EndsValue(c[i]) {
      DelimitersExactly(c[i]);
      assert c[i] == s[idx + i];
    }
  }

  // ----- the labels of the code

  /** A label without brackets that holds a letter foreign to the marker is a good label. */
  lemma ForeignLetter(q: string, j: nat)
    requires BracketFree(q) && j < |q| && LowerChar(q[j]) !in "[redacted]"
    ensures GoodLabel(q)
  {
    forall i ensures !Occurs(MARKER, i, q) {
      if Occurs(MARKER, i, q) {
        MarkerLetters(i + j);
      }
    }
  }

  lemma MarkerLetters(k: nat)
    requires k < 10
    ensures LowerChar(MARKER[k]) in "[redacted]"
  {
    var low := "[redacted]";
    assert LowerChar(MARKER[k]) == low[k];
  }

  lemma ConnectionLabels(k: nat)
    requires k < 6
    ensures GoodLabel(LABELS[k])
  {
    ForeignLetter(LABELS[k], [4, 0, 0, 0, 2, 0][k]);
  }

  lemma StoreLabels(k: nat)
    requires 6 <= k < 12
    ensures GoodLabel(LABELS[k])
  {
    ForeignLetter(LABELS[k], [0, 0, 1, 0, 0, 0][k - 6]);
  }

  lemma AwsLabels(k: nat)
    requires 12 <= k < 18
    ensures GoodLabel(LABELS[k])
  {
    ForeignLetter(LABELS[k], [1, 1, 1, 3, 0, 2][k - 12]);
  }

  lemma AzureLabels(k: nat)
    requires 18 <= k < 23
    ensures GoodLabel(LABELS[k])
  {
    ForeignLetter(LABELS[k], [2, 1, 1, 0, 0][k - 18]);
  }

  lemma LabelsAreGood()
    ensures GoodLabels(LABELS)
  {
    hide GoodLabel;
    forall k | 0 <= k < 23 ensures GoodLabel(LABELS[k]) {
      if k < 6 {
        ConnectionLabels(k);
      } else if k < 12 {
        StoreLabels(k);
      } else if k < 18 {
        AwsLabels(k);
      } else {
        AzureLabels(k);
      }
    }
  }

  /** The labels a credential can follow: of connections, of object stores, of AWS and of Azure */
  predicate IsKnownLabel(q: string)
  {
    || q in ["access_key", "secret_key", "session_token", "oauth_token", "client_secret", "s3.access-key-id"]
    || q in ["s3.secret-access-key", "s3.session-token", "Authorization", "Bearer ", "X-Amz-Security-Token"]
    || q in ["X-Amz-Credential", "AWS_ACCESS_KEY_ID", "AWS_SECRET_ACCESS_KEY", "AWS_SESSION_TOKEN", "account_key"]
    || q in ["sas_token", "adls.account-key", "adls.sas-token", "azure_storage_access_key"]
    || q in ["azure_storage_sas_key", "sig=", "\"sas\":\""]
  }

  /** The code's list holds these labels and no others. */
  lemma LabelsAreKnown(q: string)
    ensures q in LABELS <==> IsKnownLabel(q)
  {
  }

  /** `redact_credentials` */
  method RedactCredentials(s: string) returns (result: string)
    ensures NonEmpty(LABELS) && result == PassAll(s, LABELS)
    ensures forall q | IsKnownLabel(q) :: Redacted(result, q)
    ensures forall k :: 0 <= k < |LABELS| ==> Redacted(result, LABELS[k])
    ensures Lower(PassAll(result, LABELS)) == Lower(result)
  {
    hide GoodLabel, Redacted, Pass, PassAll, IsKnownLabel;
    LabelsAreGood();
    result := RedactLabels(s, LABELS);
    LabelPassIsComplete(s);
    forall q | IsKnownLabel(q) ensures Redacted(result, q) {
      LabelsAreKnown(q);
    }
  }

  /**
   Every occurrence of every label, letter case aside, is followed at once by the marker and
   then by a delimiter or the end; a second run changes letter case at most.
   */
  lemma LabelPassIsComplete(s: string)
    ensures NonEmpty(LABELS)
    ensures forall k :: 0 <= k < |LABELS| ==> Redacted(PassAll(s, LABELS), LABELS[k])
    ensures Lower(PassAll(PassAll(s, LABELS), LABELS)) == Lower(PassAll(s, LABELS))
  {
    hide GoodLabel, Redacted, Pass, PassAll;
    LabelsAreGood();
    forall k | 0 <= k < |LABELS| ensures Redacted(PassAll(s, LABELS), LABELS[k]) {
      PassAllKeeps(s, LABELS, LABELS[k]);
    }
    PassAllAgain(PassAll(s, LABELS), LABELS);
  }
}

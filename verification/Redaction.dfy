/**
 Error-text redaction: secrets by value, then whatever follows a credential label. Each pass
 rewrites the whole text, so the point is that no pass undoes what an earlier one did.
 */
module Redaction {
  import opened Common

  const MARKER := "[REDACTED]"

  predicate IsDelimiter(c: char)
  {
    c == '\"' || c == '\'' || c == ' ' || c == '\n' || c == ',' || c == '&' || c == '\r'
  }

  const LABELS: seq<string> := [
    "access_key", "secret_key", "session_token", "oauth_token", "client_secret", "s3.access-key-id",
    "s3.secret-access-key", "s3.session-token", "Authorization", "Bearer ", "X-Amz-Security-Token",
    "X-Amz-Credential", "AWS_ACCESS_KEY_ID", "AWS_SECRET_ACCESS_KEY", "AWS_SESSION_TOKEN", "account_key",
    "sas_token", "adls.account-key", "adls.sas-token", "azure_storage_access_key", "azure_storage_sas_key",
    "sig=", "\"sas\":\""]

  // ----- occurrences

  /** `p` stands at `i`, letter case aside. */
  predicate Occurs(s: string, i: int, p: string)
  {
    0 <= i <= |s| - |p| && forall j :: 0 <= j < |p| ==> LowerChar(s[i + j]) == LowerChar(p[j])
  }

  predicate Holds(s: string, i: int, p: string)
  {
    0 <= i <= |s| - |p| && s[i..i + |p|] == p
  }

  predicate Contains(s: string, p: string) { exists i :: 0 <= i <= |s| && Holds(s, i, p) }

  predicate BracketFree(p: string) { forall i :: 0 <= i < |p| ==> p[i] != '[' && p[i] != ']' }

  /** The marker's own letters never read as `p`, letter case aside. */
  ghost predicate OutsideMarker(p: string) { forall i :: !Occurs(MARKER, i, p) }

  // ----- the value pass

  /** `str::replace` of a non-empty pattern by the marker */
  function Replace(s: string, p: string): (r: string)
    requires p != ""
    decreases |s|
  {
    if |s| < |p| then s
    else if s[..|p|] == p then MARKER + Replace(s[|p|..], p)
    else [s[0]] + Replace(s[1..], p)
  }

  /** `p` put back for each marker */
  function Restored(s: string, p: string): (r: string)
    decreases |s|
  {
    if |s| < 10 then s
    else if s[..10] == MARKER then p + Restored(s[10..], p)
    else [s[0]] + Restored(s[1..], p)
  }

  /** A replacement touches nothing but the replaced text: in text without brackets it can be undone. */
  lemma {:induction false} ReplaceUndone(s: string, p: string)
    requires p != "" && BracketFree(s)
    ensures Restored(Replace(s, p), p) == s
    decreases |s|
  {
    var r := Replace(s, p);
    if |s| < |p| {
      RestoredAlone(s, p);
    } else if s[..|p|] == p {
      ReplaceUndone(s[|p|..], p);
      assert r[..10] == MARKER && r[10..] == Replace(s[|p|..], p);
      assert s == p + s[|p|..];
    } else {
      ReplaceUndone(s[1..], p);
      assert r[1..] == Replace(s[1..], p) && r[0] == s[0] != '[';
      RestoredStep(r, p);
      assert s == [s[0]] + s[1..];
    }
  }

  lemma RestoredStep(r: string, p: string)
    requires r != "" && r[0] != '['
    ensures Restored(r, p) == [r[0]] + Restored(r[1..], p)
  {
    if |r| < 10 {
      assert r == [r[0]] + r[1..];
    } else {
      assert r[..10][0] == r[0];
    }
  }

  lemma {:induction false} RestoredAlone(s: string, p: string)
    requires BracketFree(s)
    ensures Restored(s, p) == s
  {
    if s != "" {
      RestoredStep(s, p);
      RestoredAlone(s[1..], p);
      assert s == [s[0]] + s[1..];
    }
  }

  function ValuesRedacted(s: string, secrets: seq<string>): (r: string)
    decreases |secrets|
  {
    if secrets == [] then s
    else ValuesRedacted(if secrets[0] == "" then s else Replace(s, secrets[0]), secrets[1..])
  }

  lemma {:induction false} ReplaceNothing(s: string, p: string)
    requires p != "" && !Contains(s, p)
    ensures Replace(s, p) == s
    decreases |s|
  {
    if |s| >= |p| {
      assert !Holds(s, 0, p);
      forall i ensures !Holds(s[1..], i, p) {
        assert !Holds(s, i + 1, p);
        if 0 <= i <= |s| - 1 - |p| {
          assert s[1..][i..i + |p|] == s[i + 1..i + 1 + |p|];
        }
      }
      ReplaceNothing(s[1..], p);
    }
  }

  lemma ValuesConcat(s: string, a: seq<string>, x: string)
    ensures ValuesRedacted(s, a + [x]) == ValuesRedacted(ValuesRedacted(s, a), [x])
    decreases |a|
  {
    if a == [] {
      assert a + [x] == [x];
    } else {
      assert (a + [x])[1..] == a[1..] + [x];
      ValuesConcat(if a[0] == "" then s else Replace(s, a[0]), a[1..], x);
    }
  }

  /** `redact_secret_values` */
  method RedactSecretValues(s: string, secrets: seq<string>) returns (result: string)
    ensures result == ValuesRedacted(s, secrets)
  {
    result := s;
    for k := 0 to |secrets|
      invariant result == ValuesRedacted(s, secrets[..k])
    {
      ValuesConcat(s, secrets[..k], secrets[k]);
      assert secrets[..k] + [secrets[k]] == secrets[..k + 1];
      assert [secrets[k]][1..] == [];
      ghost var before := result;
      if secrets[k] != "" && Contains(result, secrets[k]) {
        result := Replace(result, secrets[k]);
      } else if secrets[k] != "" {
        ReplaceNothing(result, secrets[k]);
      }
    }
    assert secrets[..|secrets|] == secrets;
  }

  /** Text without a bracket at the head of a replaced text was at the head before. */
  lemma {:induction false} PrefixKept(s: string, p: string, x: string)
    requires p != "" && BracketFree(x) && x <= Replace(s, p)
    ensures x <= s
    decreases |s|
  {
    if x != "" && |s| >= |p| {
      assert x[0] == Replace(s, p)[0];
      assert s[..|p|] != p;
      assert x[1..] <= Replace(s[1..], p);
      PrefixKept(s[1..], p, x[1..]);
      assert s == [s[0]] + s[1..] && x == [x[0]] + x[1..];
    }
  }

  /** Behind a marker nothing of `x` reaches back into it. */
  lemma AfterMarker(tail: string, i: int, x: string)
    requires x != "" && BracketFree(x) && !Contains(MARKER, x) && Holds(MARKER + tail, i, x)
    ensures 10 <= i && Holds(tail, i - 10, x)
  {
    hide Contains;
    if i < 10 {
      MarkerBlocks(MARKER + tail, i, x);
      SliceInside(MARKER, tail, i, x);
      Within(MARKER, i, x);
      assert false;
    }
    SliceBehind(MARKER, tail, i, x);
  }

  lemma SliceInside(a: string, b: string, i: int, x: string)
    requires Holds(a + b, i, x) && i + |x| <= |a|
    ensures Holds(a, i, x)
  {
    assert (a + b)[i..i + |x|] == a[i..i + |x|];
  }

  lemma SliceBehind(a: string, b: string, i: int, x: string)
    requires Holds(a + b, i, x) && |a| <= i
    ensures Holds(b, i - |a|, x)
  {
    assert (a + b)[i..i + |x|] == b[i - |a|..i - |a| + |x|];
  }

  lemma AtHead(c: char, s: string, p: string, x: string)
    requires p != "" && x != "" && BracketFree(x) && Holds([c] + Replace(s, p), 0, x)
    ensures Contains([c] + s, x)
  {
    hide Replace;
    var r := [c] + Replace(s, p);
    assert x == r[..|x|] == [c] + r[1..|x|] && r[1..|x|] <= Replace(s, p);
    PrefixKept(s, p, x[1..]);
    assert ([c] + s)[0..|x|] == x;
    assert Holds([c] + s, 0, x);
  }

  /** No replacement makes a bracket-free text that is not part of the marker. */
  lemma {:induction false} ReplaceCreatesNothing(s: string, p: string, x: string, i: int)
    requires p != "" && x != "" && BracketFree(x) && !Contains(MARKER, x)
    requires Holds(Replace(s, p), i, x)
    ensures Contains(s, x) && x != p
    decreases |s|
  {
    hide BracketFree, Contains;
    if |s| < |p| {
      Within(s, i, x);
    } else if s[..|p|] == p {
      AfterMarker(Replace(s[|p|..], p), i, x);
      ReplaceCreatesNothing(s[|p|..], p, x, i - 10);
      SuffixContains(s, |p|, x);
    } else if i == 0 {
      AtHead(s[0], s[1..], p, x);
      assert [s[0]] + s[1..] == s;
      HeadDiffers(s, p, x);
    } else {
      var tail := Replace(s[1..], p);
      assert tail[i - 1..i - 1 + |x|] == ([s[0]] + tail)[i..i + |x|];
      ReplaceCreatesNothing(s[1..], p, x, i - 1);
      SuffixContains(s, 1, x);
    }
  }

  lemma Within(s: string, i: int, x: string)
    requires Holds(s, i, x)
    ensures Contains(s, x)
  {
  }

  lemma HeadDiffers(s: string, p: string, x: string)
    requires p != "" && BracketFree(x) && x <= Replace(s, p) && |s| >= |p| && s[..|p|] != p
    ensures x != p
  {
    PrefixKept(s, p, x);
  }

  /** Bracket-free text that starts inside a marker ends inside it. */
  lemma MarkerBlocks(r: string, i: int, x: string)
    requires MARKER <= r && Holds(r, i, x) && 0 <= i < 10 && x != "" && BracketFree(x)
    ensures i + |x| <= 9
  {
    assert r[9] == MARKER[9] == ']';
    assert forall k :: i <= k < i + |x| ==> r[k] == x[k - i];
  }

  lemma SuffixContains(s: string, n: nat, x: string)
    requires n <= |s| && Contains(s[n..], x)
    ensures Contains(s, x)
  {
    var k :| 0 <= k <= |s[n..]| && Holds(s[n..], k, x);
    assert s[k + n..k + n + |x|] == s[n..][k..k + |x|];
    assert Holds(s, k + n, x);
  }

  predicate Safe(x: string) { x == "" || (BracketFree(x) && !Contains(MARKER, x)) }

  lemma {:induction false} ValuesStayGone(s: string, secrets: seq<string>, x: string)
    requires Safe(x) && x != "" && (!Contains(s, x) || x in secrets)
    ensures !Contains(ValuesRedacted(s, secrets), x)
    decreases |secrets|
  {
    if secrets != [] {
      var p := secrets[0];
      var t := if p == "" then s else Replace(s, p);
      if p != "" && (!Contains(s, x) || x == p) {
        forall i ensures !Holds(t, i, x) {
          if Holds(t, i, x) {
            ReplaceCreatesNothing(s, p, x, i);
          }
        }
      }
      ValuesStayGone(t, secrets[1..], x);
    }
  }

  lemma {:induction false} ReplaceLeavesMarker(s: string, p: string)
    requires p != "" && Contains(s, p)
    ensures Contains(Replace(s, p), MARKER)
    decreases |s|
  {
    var r := Replace(s, p);
    var k :| 0 <= k <= |s| && Holds(s, k, p);
    assert s[0..|p|] == s[..|p|];
    if s[..|p|] == p {
      assert r[0..10] == MARKER;
      assert Holds(r, 0, MARKER);
    } else {
      assert k > 0;
      assert s[1..][k - 1..k - 1 + |p|] == s[k..k + |p|];
      assert Holds(s[1..], k - 1, p);
      ReplaceLeavesMarker(s[1..], p);
      var tail := Replace(s[1..], p);
      var i :| 0 <= i <= |tail| && Holds(tail, i, MARKER);
      assert r[i + 1..i + 1 + 10] == tail[i..i + 10];
      assert Holds(r, i + 1, MARKER);
    }
  }

  lemma ContainsTrans(s: string, a: string, b: string)
    requires Contains(s, a) && Contains(a, b)
    ensures Contains(s, b)
  {
    var i :| 0 <= i <= |s| && Holds(s, i, a);
    var j :| 0 <= j <= |a| && Holds(a, j, b);
    assert forall k :: 0 <= k < |a| ==> a[k] == s[i + k];
    assert forall k :: 0 <= k < |b| ==> b[k] == a[j + k];
    assert s[i + j..i + j + |b|] == b;
    assert Holds(s, i + j, b);
  }

  /** A secret that the marker contains is never removed: once the marker is in, it stays in. */
  lemma {:induction false} MarkerStays(s: string, secrets: seq<string>, x: string)
    requires x != "" && Contains(MARKER, x)
    requires Contains(s, MARKER) || (Contains(s, x) && x in secrets)
    ensures Contains(ValuesRedacted(s, secrets), MARKER)
    decreases |secrets|
  {
    if secrets != [] {
      var p := secrets[0];
      var t := if p == "" then s else Replace(s, p);
      if p != "" {
        if Contains(s, p) {
          ReplaceLeavesMarker(s, p);
        } else {
          ReplaceNothing(s, p);
        }
      }
      MarkerStays(t, secrets[1..], x);
    }
  }

  lemma MarkerPartSurvives(secrets: seq<string>, x: string)
    requires x in secrets && x != "" && Contains(MARKER, x)
    ensures Contains(ValuesRedacted(x, secrets), x)
  {
    assert x[0..|x|] == x;
    assert Holds(x, 0, x);
    MarkerStays(x, secrets, x);
    ContainsTrans(ValuesRedacted(x, secrets), MARKER, x);
  }

  /** No listed secret is left in `s`. */
  predicate Cleared(s: string, secrets: seq<string>)
  {
    forall x | x in secrets :: x == "" || !Contains(s, x)
  }

  /**
   The value pass over bracket-free secrets leaves none of them in any text exactly if no
   non-empty secret is part of the marker itself.
   */
  lemma ValuePassIsComplete(secrets: seq<string>)
    requires forall x | x in secrets :: BracketFree(x)
    ensures (forall s: string :: Cleared(ValuesRedacted(s, secrets), secrets)) <==> forall x | x in secrets :: Safe(x)
  {
    hide ValuesRedacted, Contains, BracketFree;
    if forall x | x in secrets :: Safe(x) {
      forall s: string ensures Cleared(ValuesRedacted(s, secrets), secrets) {
        forall x | x in secrets && x != "" ensures !Contains(ValuesRedacted(s, secrets), x) {
          ValuesStayGone(s, secrets, x);
        }
      }
    } else {
      var x :| x in secrets && !Safe(x);
      MarkerPartSurvives(secrets, x);
      assert !Cleared(ValuesRedacted(x, secrets), secrets);
      assert exists s: string :: !Cleared(ValuesRedacted(s, secrets), secrets);
    }
  }

  /** A secret that reads like the marker's own word stays in the text it was to be removed from. */
  lemma MarkerWordSurvives()
    ensures Contains(ValuesRedacted("REDACTED", ["REDACTED"]), "REDACTED")
  {
    assert MARKER[1..9] == "REDACTED";
    assert Holds(MARKER, 1, "REDACTED");
    MarkerPartSurvives(["REDACTED"], "REDACTED");
  }
}

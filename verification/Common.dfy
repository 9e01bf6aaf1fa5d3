/** Values and text helpers shared by the models of the catalog client and of the SQL translator. */
module Common {

  datatype Option<+T> = None | Some(value: T)

  datatype Result<+T> = Ok(value: T) | Err

  predicate IsDigit(c: char) { '0' <= c <= '9' }

  predicate IsUpper(c: char) { 'A' <= c <= 'Z' }

  predicate IsLower(c: char) { 'a' <= c <= 'z' }

  /** ASCII lower-casing of one character (`char::to_ascii_lowercase`). */
  function LowerChar(c: char): (r: char)
  {
    if IsUpper(c) then ((c as int) + 32) as char else c
  }

  /** ASCII upper-casing of one character (`char::to_ascii_uppercase`). */
  function UpperChar(c: char): (r: char)
  {
    if IsLower(c) then ((c as int) - 32) as char else c
  }

  function Lower(s: string): (r: string)
  {
    seq(|s|, i requires 0 <= i < |s| => LowerChar(s[i]))
  }

  function Upper(s: string): (r: string)
  {
    seq(|s|, i requires 0 <= i < |s| => UpperChar(s[i]))
  }

  /** The decimal digits of a number, as Rust's `Display` prints an unsigned integer. */
  function NatText(n: nat): (r: string)
    ensures r != "" && forall i :: 0 <= i < |r| ==> IsDigit(r[i])
  {
    if n < 10 then [DigitChar(n)] else NatText(n / 10) + [DigitChar(n % 10)]
  }

  function DigitChar(d: nat): (c: char)
    requires d < 10
    ensures IsDigit(c) && DigitValue(c) == d
  {
    ((d as int) + ('0' as int)) as char
  }

  function DigitValue(c: char): (d: int)
  {
    (c as int) - ('0' as int)
  }

  /** The number a run of digits denotes. */
  function NatValue(s: string): (n: int)
  {
    if s == "" then 0 else 10 * NatValue(s[..|s| - 1]) + DigitValue(s[|s| - 1])
  }

  /** Printing a number and reading it back gives that number, so printing is injective. */
  lemma {:induction false} NatTextReadsBack(n: nat)
    ensures NatValue(NatText(n)) == n
  {
    if n < 10 {
      assert NatText(n)[..0] == "";
    } else {
      NatTextReadsBack(n / 10);
      assert NatText(n)[..|NatText(n)| - 1] == NatText(n / 10);
    }
  }

  /** The order of strings, and so of a sorted map's keys */
  predicate Less(a: string, b: string)
  {
    b != "" && (a == "" || a[0] < b[0] || (a[0] == b[0] && Less(a[1..], b[1..])))
  }

  /** `a` and `b` are alike up to `k`, where `a` has the smaller character. */
  predicate SmallerAt(a: string, b: string, k: nat)
  {
    k < |a| && k < |b| && a[..k] == b[..k] && a[k] < b[k]
  }

  lemma SmallerLater(a: string, b: string, k: nat)
    requires a != "" && b != "" && a[0] == b[0]
    ensures SmallerAt(a, b, k + 1) <==> SmallerAt(a[1..], b[1..], k)
  {
    if k + 1 < |a| && k + 1 < |b| {
      assert a[..k + 1] == [a[0]] + a[1..][..k] && b[..k + 1] == [b[0]] + b[1..][..k];
      assert a[1..][..k] == a[..k + 1][1..] && b[1..][..k] == b[..k + 1][1..];
    }
  }

  lemma AlikeFirst(a: string, b: string, k: nat)
    requires SmallerAt(a, b, k) && k > 0
    ensures a != "" && b != "" && a[0] == b[0]
  {
    assert a[..k][0] == a[0] && b[..k][0] == b[0];
  }

  /** A proper beginning, or a smaller character at the first place where they differ */
  lemma {:induction false} LessExactly(a: string, b: string)
    ensures Less(a, b) <==> a < b || exists k: nat :: SmallerAt(a, b, k)
    decreases |a|
  {
    hide SmallerAt;
    if a != "" && b != "" {
      if a[0] == b[0] {
        LessExactly(a[1..], b[1..]);
        assert a == [a[0]] + a[1..] && b == [b[0]] + b[1..];
        SmallerStart(a, b);
        if k: nat :| SmallerAt(a, b, k) {
          SmallerLater(a, b, k - 1);
        }
        if k: nat :| SmallerAt(a[1..], b[1..], k) {
          SmallerLater(a, b, k);
        }
      } else {
        forall k: nat | SmallerAt(a, b, k) ensures k == 0 {
          if k > 0 {
            AlikeFirst(a, b, k);
          }
        }
        SmallerStart(a, b);
      }
    } else {
      forall k: nat ensures !SmallerAt(a, b, k) { NothingSmaller(a, b, k); }
    }
  }

  lemma SmallerStart(a: string, b: string)
    requires a != "" && b != ""
    ensures SmallerAt(a, b, 0) <==> a[0] < b[0]
  {
    assert a[..0] == b[..0];
  }

  lemma NothingSmaller(a: string, b: string, k: nat)
    requires a == "" || b == ""
    ensures !SmallerAt(a, b, k)
  {
  }

  lemma LowerSame(a: string, b: string)
    ensures Lower(a) == Lower(b) <==> |a| == |b| && forall k :: 0 <= k < |a| ==> LowerChar(a[k]) == LowerChar(b[k])
  {
    assert |Lower(a)| == |a| && |Lower(b)| == |b|;
    if Lower(a) == Lower(b) {
      forall k | 0 <= k < |a| ensures LowerChar(a[k]) == LowerChar(b[k]) {
        assert Lower(a)[k] == Lower(b)[k];
      }
    }
  }

  lemma PrefixExactly(p: string, s: string)
    ensures p <= s <==> |p| <= |s| && forall k :: 0 <= k < |p| ==> p[k] == s[k]
  {
    if |p| <= |s| {
      assert s[..|p|] == p <==> forall k :: 0 <= k < |p| ==> p[k] == s[k];
    }
  }

  lemma {:induction false} LessTotal(a: string, b: string)
    ensures Less(a, b) || a == b || Less(b, a)
    ensures !(Less(a, b) && Less(b, a)) && !Less(a, a)
    decreases |a|
  {
    if a != "" && b != "" && a[0] == b[0] {
      LessTotal(a[1..], b[1..]);
      assert a == [a[0]] + a[1..] && b == [b[0]] + b[1..];
    }
    if a != "" {
      LessIrreflexive(a);
    }
  }

  lemma {:induction false} LessIrreflexive(a: string)
    ensures !Less(a, a)
  {
    if a != "" {
      LessIrreflexive(a[1..]);
    }
  }

  lemma {:induction false} LessTransitive(a: string, b: string, c: string)
    requires Less(a, b) && Less(b, c)
    ensures Less(a, c)
    decreases |a|
  {
    if a != "" && a[0] == b[0] == c[0] {
      LessTransitive(a[1..], b[1..], c[1..]);
    }
  }

  function Map<A, B>(f: A -> B, xs: seq<A>): (r: seq<B>)
    ensures |r| == |xs|
    ensures forall i :: 0 <= i < |xs| ==> r[i] == f(xs[i])
  {
    seq(|xs|, i requires 0 <= i < |xs| => f(xs[i]))
  }
}

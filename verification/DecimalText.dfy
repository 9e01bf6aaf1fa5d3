/**
 Exasol's shortest-form DECIMAL-to-text conversion, which the translator builds from two nested
 regular-expression replacements over DataFusion's full-scale text.
 */
module DecimalText {
  import opened Common

  /** A decimal numeral: sign, integer digits, and fraction digits if it has a point. */
  datatype Numeral = Numeral(neg: bool, whole: string, frac: Option<string>)

  predicate AllDigits(s: string) { forall i :: 0 <= i < |s| ==> IsDigit(s[i]) }

  predicate Valid(n: Numeral)
  {
    && n.whole != "" && AllDigits(n.whole)
    && (n.frac.Some? ==> n.frac.value != "" && AllDigits(n.frac.value))
  }

  function Text(n: Numeral): (r: string)
  {
    (if n.neg then "-" else "") + n.whole + (if n.frac.Some? then "." + n.frac.value else "")
  }

  // ----- the replacements, on any text

  function DigitTail(s: string): (k: nat)
    ensures k <= |s|
  {
    if s == "" || !IsDigit(s[|s| - 1]) then 0 else DigitTail(s[..|s| - 1]) + 1
  }

  /** The text before and the digits behind a point that only digits follow up to the end. */
  function Fractional(s: string): (r: Option<(string, string)>)
  {
    var k := DigitTail(s);
    if 0 < k < |s| && s[|s| - k - 1] == '.' then Some((s[..|s| - k - 1], s[|s| - k..])) else None
  }

  function TrimZeros(f: string): (r: string)
    ensures |r| <= |f| && r == f[..|r|]
    ensures r != "" ==> r[|r| - 1] != '0'
  {
    if f != "" && f[|f| - 1] == '0' then TrimZeros(f[..|f| - 1]) else f
  }

  /** `regexp_replace(s, '(\.[0-9]*[1-9])0+$', '\1')` */
  function DropTrailingZeros(s: string): (r: string)
  {
    match Fractional(s)
    case None => s
    case Some((before, f)) => if TrimZeros(f) == "" then s else before + "." + TrimZeros(f)
  }

  /** `regexp_replace(s, '\.0+$', '')` */
  function DropZeroFraction(s: string): (r: string)
  {
    match Fractional(s)
    case None => s
    case Some((before, f)) => if TrimZeros(f) == "" then before else s
  }

  /** The two replacements as the translator nests them. */
  function ExasolStyle(s: string): (r: string)
  {
    DropZeroFraction(DropTrailingZeros(s))
  }

  // ----- what they do to a numeral

  function Short(n: Numeral): (r: Numeral)
    ensures Valid(n) ==> Valid(r)
  {
    match n.frac
    case None => n
    case Some(f) => n.(frac := if TrimZeros(f) == "" then None else Some(TrimZeros(f)))
  }

  lemma {:induction false} DigitTailOf(a: string, c: char, f: string)
    requires !IsDigit(c) && AllDigits(f)
    ensures DigitTail(a + [c] + f) == |f|
  {
    var s := a + [c] + f;
    if f != "" {
      assert s[..|s| - 1] == a + [c] + f[..|f| - 1];
      DigitTailOf(a, c, f[..|f| - 1]);
    }
  }

  lemma {:induction false} DigitTailAll(f: string)
    requires AllDigits(f)
    ensures DigitTail(f) == |f|
  {
    if f != "" {
      DigitTailAll(f[..|f| - 1]);
    }
  }

  lemma FractionalText(n: Numeral)
    requires Valid(n)
    ensures Fractional(Text(n)) ==
            if n.frac.Some? then Some((Text(n.(frac := None)), n.frac.value)) else None
  {
    var head := (if n.neg then "-" else "") + n.whole;
    if n.frac.Some? {
      var s := head + ['.'] + n.frac.value;
      DigitTailOf(head, '.', n.frac.value);
      assert Text(n) == s;
      assert Text(n.(frac := None)) == head;
      assert s[|head|] == '.' && s[..|head|] == head && s[|head| + 1..] == n.frac.value;
    } else if n.neg {
      DigitTailOf("", '-', n.whole);
      assert Text(n) == "" + ['-'] + n.whole;
    } else {
      DigitTailAll(n.whole);
      assert Text(n) == n.whole;
    }
  }

  /** On a numeral the nested replacements drop the fraction's trailing zeros and an empty point. */
  lemma ExasolStyleOf(n: Numeral)
    requires Valid(n)
    ensures ExasolStyle(Text(n)) == Text(Short(n))
  {
    hide Fractional, TrimZeros, Text;
    FractionalText(n);
    if n.frac.Some? && TrimZeros(n.frac.value) != "" {
      var m := Short(n);
      TextOfFraction(m);
      assert m.(frac := None) == n.(frac := None);
      FractionalText(m);
      TrimmedStays(n.frac.value);
    }
  }

  lemma TextOfFraction(n: Numeral)
    requires n.frac.Some?
    ensures Text(n) == Text(n.(frac := None)) + "." + n.frac.value
  {
    var head := (if n.neg then "-" else "") + n.whole;
    assert Text(n.(frac := None)) == head + "" == head;
    assert Text(n) == head + ("." + n.frac.value);
  }

  lemma TrimmedStays(f: string)
    ensures TrimZeros(TrimZeros(f)) == TrimZeros(f)
  {
  }

  // ----- value

  function FracValue(f: string): (v: real)
  {
    if f == "" then 0.0 else (DigitValue(f[0]) as real + FracValue(f[1..])) / 10.0
  }

  function Value(n: Numeral): (v: real)
  {
    var m := NatValue(n.whole) as real + (if n.frac.Some? then FracValue(n.frac.value) else 0.0);
    if n.neg then -m else m
  }

  lemma {:induction false} TrailingZeroValue(f: string)
    ensures FracValue(f + "0") == FracValue(f)
  {
    if f == "" {
      assert (f + "0")[1..] == "";
    } else {
      assert (f + "0")[1..] == f[1..] + "0";
      TrailingZeroValue(f[1..]);
    }
  }

  lemma {:induction false} TrimZerosValue(f: string)
    ensures FracValue(TrimZeros(f)) == FracValue(f)
  {
    if f != "" && f[|f| - 1] == '0' {
      TrimZerosValue(f[..|f| - 1]);
      TrailingZeroValue(f[..|f| - 1]);
      assert f == f[..|f| - 1] + "0";
    }
  }

  lemma {:induction false} FracValueRange(f: string)
    requires AllDigits(f)
    ensures 0.0 <= FracValue(f) < 1.0
  {
    if f != "" {
      FracValueRange(f[1..]);
    }
  }

  predicate Trimmed(f: string) { f != "" ==> f[|f| - 1] != '0' }

  lemma {:induction false} TrimmedNotZero(f: string)
    requires AllDigits(f) && Trimmed(f) && FracValue(f) == 0.0
    ensures f == ""
  {
    if f != "" {
      FracValueRange(f[1..]);
      TrimmedNotZero(f[1..]);
    }
  }

  /** Two fractions of one value agree once their trailing zeros are gone. */
  lemma {:induction false} TrimmedUnique(f: string, g: string)
    requires AllDigits(f) && AllDigits(g) && Trimmed(f) && Trimmed(g)
    requires FracValue(f) == FracValue(g)
    ensures f == g
  {
    if f == "" {
      TrimmedNotZero(g);
    } else if g == "" {
      TrimmedNotZero(f);
    } else {
      FracValueRange(f[1..]);
      FracValueRange(g[1..]);
      assert 10.0 * FracValue(f) == DigitValue(f[0]) as real + FracValue(f[1..]);
      assert 10.0 * FracValue(g) == DigitValue(g[0]) as real + FracValue(g[1..]);
      assert DigitValue(f[0]) == DigitValue(g[0]);
      TrimmedUnique(f[1..], g[1..]);
      assert f == [f[0]] + f[1..] && g == [g[0]] + g[1..];
    }
  }

  lemma ShortKeepsValue(n: Numeral)
    ensures Value(Short(n)) == Value(n)
  {
    if n.frac.Some? {
      TrimZerosValue(n.frac.value);
    }
  }

  /** Equal values with the same sign and integer digits have one shortest text. */
  lemma ShortIsCanonical(n: Numeral, m: Numeral)
    requires Valid(n) && Valid(m) && n.neg == m.neg && n.whole == m.whole && Value(n) == Value(m)
    ensures Short(n) == Short(m)
  {
    var f := if n.frac.Some? then n.frac.value else "";
    var g := if m.frac.Some? then m.frac.value else "";
    TrimZerosValue(f);
    TrimZerosValue(g);
    TrimmedUnique(TrimZeros(f), TrimZeros(g));
  }

  /**
   The conversion of any decimal text: the value stays, the result ends in no fractional zero and
   in no point, integers stay untouched, a second run changes nothing, and no other text of the
   same value, sign and integer digits is shorter or converts differently.
   */
  lemma ExasolStyleIsShortestForm(n: Numeral, other: Numeral)
    requires Valid(n) && Valid(other)
    ensures ExasolStyle(Text(n)) == Text(Short(n)) && Value(Short(n)) == Value(n)
    ensures Short(n).frac.Some? ==> Trimmed(Short(n).frac.value) && Short(n).frac.value != ""
    ensures n.frac.None? ==> ExasolStyle(Text(n)) == Text(n)
    ensures ExasolStyle(ExasolStyle(Text(n))) == ExasolStyle(Text(n))
    ensures n.neg == other.neg && n.whole == other.whole && Value(n) == Value(other) ==>
              ExasolStyle(Text(n)) == ExasolStyle(Text(other)) && |ExasolStyle(Text(n))| <= |Text(other)|
  {
    ExasolStyleOf(n);
    ExasolStyleOf(other);
    ExasolStyleOf(Short(n));
    ShortKeepsValue(n);
    ShortTwice(n);
    if n.neg == other.neg && n.whole == other.whole && Value(n) == Value(other) {
      ShortIsCanonical(n, other);
    }
  }

  lemma ShortTwice(n: Numeral)
    requires Valid(n)
    ensures Short(Short(n)) == Short(n)
  {
  }

  /** The short form is the text itself exactly if no fraction ends in zero. */
  lemma ShortKeepsText(n: Numeral)
    requires Valid(n)
    ensures Text(Short(n)) == Text(n) <==> !('.' in Text(n) && Text(n)[|Text(n)| - 1] == '0')
  {
    hide TrimZeros;
    if n.frac.Some? {
      var f, t := n.frac.value, TrimZeros(n.frac.value);
      TextOfFraction(n);
      var head := Text(n.(frac := None));
      assert Text(n)[|head|] == '.' && Text(n)[|Text(n)| - 1] == f[|f| - 1];
      TrimmedExactly(f);
      if t != "" {
        TextOfFraction(Short(n));
        assert Short(n).(frac := None) == n.(frac := None);
        assert |Text(Short(n))| == |head| + 1 + |t|;
      } else {
        assert Text(Short(n)) == head;
      }
    } else {
      assert '.' !in Text(n) by { NoPoint(n); }
    }
  }

  lemma NoPoint(n: Numeral)
    requires Valid(n) && n.frac.None?
    ensures '.' !in Text(n)
  {
    assert Text(n) == (if n.neg then "-" else "") + n.whole;
  }

  lemma TrimmedExactly(f: string)
    requires f != ""
    ensures TrimZeros(f) == f <==> f[|f| - 1] != '0'
    ensures TrimZeros(f) != f ==> |TrimZeros(f)| < |f|
  {
  }
}

/** The backoff wait between two attempts of a catalog request. Durations are nanoseconds. */
module Backoff {

  const U32_MAX: nat := 0xFFFF_FFFF
  const U64_MAX: nat := 0xFFFF_FFFF_FFFF_FFFF
  const U128_MAX: nat := 0xFFFF_FFFF_FFFF_FFFF_FFFF_FFFF_FFFF_FFFF

  /** The longest `Duration`: all the seconds of 64 bits and one nanosecond short of one more. */
  const LONGEST: nat := U64_MAX * 1_000_000_000 + 999_999_999

  function Min(a: nat, b: nat): (r: nat) { if a < b then a else b }

  function Pow2(e: nat): (r: nat)
    ensures r >= 1
  {
    if e == 0 then 1 else 2 * Pow2(e - 1)
  }

  /** `base` doubled for each retry after the first, in saturating arithmetic */
  function Ceiling(base: nat, retry: nat): (r: nat)
  {
    Min(base * Min(Pow2(if retry == 0 then 0 else retry - 1), U32_MAX), LONGEST)
  }

  /** The product the code forms in 128 bits */
  function Product(base: nat, retry: nat, jitter: nat): (r: nat)
  {
    (Ceiling(base, retry) - Ceiling(base, retry) / 2) * jitter
  }

  /** `backoff_wait` */
  function BackoffWait(base: nat, retry: nat, jitter: nat): (r: nat)
    requires jitter <= U32_MAX
  {
    var floor := Ceiling(base, retry) / 2;
    Min(floor + Min(Product(base, retry, jitter) / U32_MAX, U64_MAX), LONGEST)
  }

  lemma MulMonotone(a: nat, b: nat, c: nat)
    requires a <= b
    ensures a * c <= b * c && c * a <= c * b
  {
  }

  lemma QuotientBound(room: nat, jitter: nat)
    requires jitter <= U32_MAX
    ensures room * jitter / U32_MAX <= room
  {
    MulMonotone(jitter, U32_MAX, room);
    QuotientMonotone(room * jitter, room * U32_MAX);
    QuotientExact(room);
  }

  lemma QuotientMonotone(a: nat, b: nat)
    requires a <= b
    ensures a / U32_MAX <= b / U32_MAX
  {
  }

  lemma QuotientExact(room: nat)
    ensures room * U32_MAX / U32_MAX == room
  {
  }

  /** The wait lies between half the saturated ceiling and the ceiling. */
  lemma WaitInRange(base: nat, retry: nat, jitter: nat)
    requires jitter <= U32_MAX
    ensures Ceiling(base, retry) / 2 <= BackoffWait(base, retry, jitter) <= Ceiling(base, retry) <= LONGEST
    ensures BackoffWait(base, retry, 0) == Ceiling(base, retry) / 2
  {
    hide Ceiling;
    var ceiling := Ceiling(base, retry);
    assert ceiling <= LONGEST by { CeilingSaturates(base, retry); }
    QuotientBound(ceiling - ceiling / 2, jitter);
    assert Product(base, retry, 0) == 0;
  }

  lemma CeilingSaturates(base: nat, retry: nat)
    ensures Ceiling(base, retry) <= LONGEST
  {
  }

  lemma WaitGrowsWithJitter(base: nat, retry: nat, j: nat, k: nat)
    requires j <= k <= U32_MAX
    ensures BackoffWait(base, retry, j) <= BackoffWait(base, retry, k)
  {
    hide Ceiling;
    var room := Ceiling(base, retry) - Ceiling(base, retry) / 2;
    MulMonotone(j, k, room);
    QuotientMonotone(room * j, room * k);
  }

  lemma {:induction false} Pow2Grows(a: nat, b: nat)
    requires a <= b
    ensures Pow2(a) <= Pow2(b)
    decreases b
  {
    if a < b {
      Pow2Grows(a, b - 1);
    }
  }

  lemma CeilingGrows(base: nat, r: nat, s: nat)
    requires r <= s
    ensures Ceiling(base, r) <= Ceiling(base, s)
  {
    var a, b := if r == 0 then 0 else r - 1, if s == 0 then 0 else s - 1;
    Pow2Grows(a, b);
    MulMonotone(Min(Pow2(a), U32_MAX), Min(Pow2(b), U32_MAX), base);
  }

  lemma {:induction false} Pow2Bound(e: nat)
    requires e <= 31
    ensures Pow2(e) <= 0x8000_0000
  {
    Pow2Grows(e, 31);
    assert Pow2(8) == 256;
    assert Pow2(16) == 65536;
    assert Pow2(24) == 0x100_0000;
    assert Pow2(31) == 0x8000_0000;
  }

  /** The first ceiling is the base; each retry doubles it, up to the longest duration and 2^31 times the base. */
  lemma CeilingDoubles(base: nat, retry: nat)
    requires base <= LONGEST
    ensures Ceiling(base, 0) == Ceiling(base, 1) == base
    ensures 1 <= retry <= 31 ==> Ceiling(base, retry + 1) == Min(2 * Ceiling(base, retry), LONGEST)
  {
    if 1 <= retry <= 31 {
      Pow2Bound(retry - 1);
      Pow2Bound(retry);
      DoubleProduct(base, Pow2(retry - 1));
    }
  }

  lemma DoubleProduct(base: nat, p: nat)
    ensures base * (2 * p) == 2 * (base * p)
  {
  }

  /** The nanosecond product fits in 128 bits, even at the longest duration. */
  lemma ProductFits(base: nat, retry: nat, jitter: nat)
    requires jitter <= U32_MAX
    ensures Product(base, retry, jitter) <= U128_MAX
  {
    hide Ceiling;
    CeilingSaturates(base, retry);
    var room := Ceiling(base, retry) - Ceiling(base, retry) / 2;
    MulMonotone(jitter, U32_MAX, room);
    MulMonotone(room, LONGEST, U32_MAX);
  }

  /** The largest jitter reaches the ceiling exactly if the spread fits in 64 bits of nanoseconds. */
  lemma LargestJitter(base: nat, retry: nat)
    ensures BackoffWait(base, retry, U32_MAX) == Ceiling(base, retry)
       <==> Ceiling(base, retry) - Ceiling(base, retry) / 2 <= U64_MAX
  {
    hide Ceiling;
    CeilingSaturates(base, retry);
    QuotientExact(Ceiling(base, retry) - Ceiling(base, retry) / 2);
  }

  /** With the longest base the largest jitter stays short of the ceiling. */
  lemma LargestJitterCanFallShort()
    ensures BackoffWait(LONGEST, 1, U32_MAX) < Ceiling(LONGEST, 1) == LONGEST
  {
    LargestJitter(LONGEST, 1);
    WaitInRange(LONGEST, 1, U32_MAX);
  }
}

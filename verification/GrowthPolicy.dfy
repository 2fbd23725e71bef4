/**
 The power-of-two growth policy of the array-hash: bucket counts are powers of
 two, so that a bit mask selects the bucket of a hash.
 */
module GrowthPolicy {
  import opened Options

  const GROWTH_FACTOR := 4
  /** The largest power of two a 64-bit size can hold. */
  const MAX_BUCKET_COUNT: nat := 0x8000_0000_0000_0000

  /** How many pointers a vector can hold: a signed 64-bit number of bytes, eight for each. */
  const MAX_VECTOR_SIZE: nat := 0x0FFF_FFFF_FFFF_FFFF

  /** The largest number of buckets that the policy and the vector of buckets both admit. */
  const MAX_BUCKETS: nat := 0x0800_0000_0000_0000

  function Pow2(k: nat): (p: nat)
    ensures p > 0
  {
    if k == 0 then 1 else 2 * Pow2(k - 1)
  }

  // ---------------------------------------------------------------------------
  // Bits of a natural number
  // ---------------------------------------------------------------------------

  predicate Bit(v: nat, k: nat) {
    if k == 0 then v % 2 == 1 else Bit(v / 2, k - 1)
  }

  function And(a: nat, b: nat): (r: nat)
    ensures r <= b
  {
    if a == 0 || b == 0 then 0
    else 2 * And(a / 2, b / 2) + if a % 2 == 1 && b % 2 == 1 then 1 else 0
  }

  function Or(a: nat, b: nat): (r: nat)
    ensures r >= a && r >= b
  {
    if a == 0 then b else if b == 0 then a
    else 2 * Or(a / 2, b / 2) + if a % 2 == 1 || b % 2 == 1 then 1 else 0
  }

  function Shr(v: nat, i: nat): (r: nat)
    ensures r <= v
  {
    if i == 0 then v else Shr(v / 2, i - 1)
  }

  lemma {:induction false} ZeroBit(k: nat)
    ensures !Bit(0, k)
  {
    if k > 0 { ZeroBit(k - 1); }
  }

  lemma AndHalf(a: nat, b: nat, r: nat)
    requires a > 0 && b > 0 && r == And(a, b)
    ensures r / 2 == And(a / 2, b / 2) && (r % 2 == 1 <==> a % 2 == 1 && b % 2 == 1)
  {
  }

  lemma {:induction false} AndBit(a: nat, b: nat, k: nat)
    ensures Bit(And(a, b), k) <==> Bit(a, k) && Bit(b, k)
    decreases k
  {
    if a == 0 || b == 0 {
      ZeroBit(k);
    } else {
      AndHalf(a, b, And(a, b));
      if k > 0 { AndBit(a / 2, b / 2, k - 1); }
    }
  }

  lemma OrHalf(a: nat, b: nat, r: nat)
    requires a > 0 && b > 0 && r == Or(a, b)
    ensures r / 2 == Or(a / 2, b / 2) && (r % 2 == 1 <==> a % 2 == 1 || b % 2 == 1)
  {
  }

  lemma {:induction false} OrBit(a: nat, b: nat, k: nat)
    ensures Bit(Or(a, b), k) <==> Bit(a, k) || Bit(b, k)
    decreases k
  {
    if a == 0 || b == 0 {
      ZeroBit(k);
    } else {
      OrHalf(a, b, Or(a, b));
      if k > 0 { OrBit(a / 2, b / 2, k - 1); }
    }
  }

  lemma {:induction false} ShrBit(v: nat, i: nat, k: nat)
    ensures Bit(Shr(v, i), k) <==> Bit(v, k + i)
    decreases i
  {
    if i > 0 { ShrBit(v / 2, i - 1, k); }
  }

  lemma {:induction false} OrBelow(a: nat, b: nat, n: nat)
    requires a < Pow2(n) && b < Pow2(n)
    ensures Or(a, b) < Pow2(n)
    decreases n
  {
    if n > 0 { OrBelow(a / 2, b / 2, n - 1); }
  }

  lemma {:induction false} TopBit(v: nat, n: nat)
    requires n > 0 && Pow2(n - 1) <= v < Pow2(n)
    ensures Bit(v, n - 1)
    decreases n
  {
    if n > 1 { TopBit(v / 2, n - 1); }
  }

  lemma {:induction false} AllOnes(v: nat, n: nat)
    requires v < Pow2(n) && forall k :: 0 <= k < n ==> Bit(v, k)
    ensures v == Pow2(n) - 1
    decreases n
  {
    if n > 0 {
      assert Bit(v, 0);
      forall k | 0 <= k < n - 1
        ensures Bit(v / 2, k)
      {
        assert Bit(v, k + 1);
      }
      AllOnes(v / 2, n - 1);
    }
  }

  lemma {:induction false} Pow2Monotone(j: nat, k: nat)
    requires j <= k
    ensures Pow2(j) <= Pow2(k)
    decreases k - j
  {
    if j < k { Pow2Monotone(j + 1, k); }
  }

  /** Every positive number lies between two neighbouring powers of two. */
  lemma {:induction false} BitLength(v: nat) returns (n: nat)
    requires v > 0
    ensures n > 0 && Pow2(n - 1) <= v < Pow2(n)
  {
    if v == 1 {
      n := 1;
    } else {
      n := BitLength(v / 2);
      n := n + 1;
    }
  }

  // ---------------------------------------------------------------------------
  // Powers of two
  // ---------------------------------------------------------------------------

  /** `bucket_for_hash`: masking with a power of two less one is the remainder. */
  lemma {:induction false} MaskIsRemainder(hash: nat, k: nat)
    ensures And(hash, Pow2(k) - 1) == hash % Pow2(k)
    decreases k
  {
    if k > 0 {
      var m := Pow2(k - 1);
      MaskIsRemainder(hash / 2, k - 1);
      assert (Pow2(k) - 1) / 2 == m - 1;
      assert hash % (2 * m) == 2 * (hash / 2 % m) + hash % 2 by {
        RemainderOfHalf(hash, m);
      }
    }
  }

  lemma RemainderOfHalf(h: nat, m: nat)
    requires m > 0
    ensures h % (2 * m) == 2 * (h / 2 % m) + h % 2
  {
    var q, r := h / 2 / m, h / 2 % m;
    assert h == (2 * m) * q + (2 * r + h % 2) by {
      assert h / 2 == m * q + r;
    }
    Remainder(h, 2 * m, q, 2 * r + h % 2);
  }

  lemma Remainder(h: nat, d: nat, q: nat, r: nat)
    requires 0 <= r < d && h == d * q + r
    ensures h % d == r
  {
    QuotientUnique(d, q, r, h / d, h % d);
  }

  lemma QuotientUnique(d: nat, q: nat, r: nat, q': nat, r': nat)
    requires r < d && r' < d && d * q + r == d * q' + r'
    ensures r == r'
  {
    if q < q' {
      AtLeastOnce(d, q, q');
    } else if q' < q {
      AtLeastOnce(d, q', q);
    }
  }

  lemma AtLeastOnce(d: nat, q: nat, q': nat)
    requires q < q'
    ensures d * q + d <= d * q'
  {
    assert d * q' == d * q + d * (q' - q);
    assert d * (q' - q) == d + d * (q' - q - 1);
  }

  predicate IsPowerOfTwo(v: nat) {
    v != 0 && And(v, v - 1) == 0
  }

  /** The bit trick recognises exactly the powers of two. */
  lemma {:induction false} PowerOfTwoIff(v: nat)
    ensures IsPowerOfTwo(v) <==> exists k: nat :: v == Pow2(k)
  {
    if v > 0 {
      var n := BitLength(v);
      Pow2Trick(v, n - 1);
      if exists k: nat :: v == Pow2(k) {
        var k: nat :| v == Pow2(k);
        if k < n - 1 { Pow2Monotone(k + 1, n - 1); }
        if k > n - 1 { Pow2Monotone(n, k); }
      }
    }
  }

  lemma {:induction false} Pow2Trick(v: nat, k: nat)
    requires Pow2(k) <= v < Pow2(k + 1)
    ensures And(v, v - 1) == 0 <==> v == Pow2(k)
    decreases k
  {
    if k > 0 {
      Pow2Trick(v / 2, k - 1);
      if v % 2 == 1 {
        assert (v - 1) / 2 == v / 2;
        AndSelf(v / 2);
      } else {
        assert (v - 1) / 2 == v / 2 - 1;
      }
    }
  }

  lemma {:induction false} AndSelf(v: nat)
    ensures And(v, v) == v
  {
    if v > 0 { AndSelf(v / 2); }
  }

  /** `r` is the least power of two that is not below `v`. */
  ghost predicate LeastPowerAbove(v: nat, r: nat) {
    && r >= v
    && (exists k: nat :: r == Pow2(k))
    && forall k: nat :: Pow2(k) >= v ==> Pow2(k) >= r
  }

  lemma LeastPower(v: nat, n: nat)
    requires n > 0 && Pow2(n - 1) < v <= Pow2(n)
    ensures LeastPowerAbove(v, Pow2(n))
  {
    forall k: nat | Pow2(k) >= v
      ensures Pow2(k) >= Pow2(n)
    {
      if k < n {
        Pow2Monotone(k, n - 1);
      } else {
        Pow2Monotone(n, k);
      }
    }
  }

  lemma Pow2At63()
    ensures Pow2(63) == MAX_BUCKET_COUNT
  {
    assert Pow2(8) == 0x100;
    assert Pow2(16) == 0x1_0000;
    assert Pow2(24) == 0x100_0000;
    assert Pow2(32) == 0x1_0000_0000;
    assert Pow2(40) == 0x100_0000_0000;
    assert Pow2(48) == 0x1_0000_0000_0000;
    assert Pow2(56) == 0x100_0000_0000_0000;
  }

  /** `round_up_to_power_of_two`: smearing the top bit over all lower ones. */
  method RoundUpToPowerOfTwo(value: nat) returns (r: nat)
    requires value <= MAX_BUCKET_COUNT
    ensures LeastPowerAbove(value, r)
  {
    PowerOfTwoIff(value);
    if IsPowerOfTwo(value) {
      return value;
    }
    if value == 0 {
      assert Pow2(0) == 1;
      return 1;
    }
    assert Pow2(0) == 1;
    var v := value - 1;
    ghost var n := BitLength(v);
    assert n <= 63 by {
      Pow2At63();
      if n > 63 { Pow2Monotone(63, n - 1); }
    }
    TopBit(v, n);
    var i := 1;
    while i < 64
      invariant 0 < i <= 64
      invariant i == 1 || i == 2 || i == 4 || i == 8 || i == 16 || i == 32 || i == 64
      invariant value - 1 <= v < Pow2(n)
      invariant forall k: nat :: n - i <= k < n ==> Bit(v, k)
    {
      SmearStep(v, n, i);
      v := Or(v, Shr(v, i));
      i := 2 * i;
    }
    AllOnes(v, n);
    LeastPower(value, n);
    r := v + 1;
  }

  lemma SmearStep(v: nat, n: nat, i: nat)
    requires v < Pow2(n) && forall k: nat :: n - i <= k < n ==> Bit(v, k)
    ensures Or(v, Shr(v, i)) < Pow2(n)
    ensures forall k: nat :: n - 2 * i <= k < n ==> Bit(Or(v, Shr(v, i)), k)
  {
    OrBelow(v, Shr(v, i), n);
    forall k: nat | n - 2 * i <= k < n
      ensures Bit(Or(v, Shr(v, i)), k)
    {
      OrBit(v, Shr(v, i), k);
      ShrBit(v, i, k);
      if k < n - i {
        assert n - i <= k + i < n;
      }
    }
  }

  // ---------------------------------------------------------------------------
  // The policy
  // ---------------------------------------------------------------------------

  /** The mask goes with a table of this many buckets. */
  ghost predicate MaskFor(mask: nat, count: nat) {
    if count == 0 then mask == 0
    else mask == count - 1 && exists k: nat :: count == Pow2(k)
  }

  /** The constructor: rounds the wanted count up and keeps the mask; `None` is a length error. */
  method NewPolicy(wanted: nat) returns (mask: Option<nat>, count: nat)
    ensures mask.None? <==> wanted > MAX_BUCKET_COUNT
    ensures mask.Some? ==> MaskFor(mask.value, count)
    ensures mask.Some? ==> if wanted == 0 then count == 0 else LeastPowerAbove(wanted, count)
  {
    if wanted > MAX_BUCKET_COUNT {
      return None, wanted;
    }
    if wanted > 0 {
      count := RoundUpToPowerOfTwo(wanted);
      mask := Some(count - 1);
    } else {
      mask, count := Some(0), 0;
    }
  }

  lemma Pow2At59()
    ensures Pow2(59) == MAX_BUCKETS && Pow2(60) == MAX_VECTOR_SIZE + 1
  {
    assert Pow2(8) == 0x100;
    assert Pow2(16) == 0x1_0000;
    assert Pow2(24) == 0x100_0000;
    assert Pow2(32) == 0x1_0000_0000;
    assert Pow2(40) == 0x100_0000_0000;
    assert Pow2(48) == 0x1_0000_0000_0000;
    assert Pow2(56) == 0x100_0000_0000_0000;
  }

  lemma LeastPowerUnique(wanted: nat, a: nat, b: nat)
    requires LeastPowerAbove(wanted, a)
    ensures LeastPowerAbove(wanted, b) <==> a == b
  {
  }

  /** The rounded count fits the vector of buckets exactly if the wanted one is not above the largest. */
  lemma RoundedFits(wanted: nat, count: nat)
    requires LeastPowerAbove(wanted, count)
    ensures count <= MAX_VECTOR_SIZE <==> wanted <= MAX_BUCKETS
  {
    Pow2At59();
    var k: nat :| count == Pow2(k);
    if wanted <= MAX_BUCKETS {
      assert Pow2(59) >= wanted;
    }
    if k >= 60 {
      Pow2Monotone(60, k);
    } else {
      Pow2Monotone(k, 59);
    }
  }

  /** Every hash selects a bucket of the table; a table without buckets uses the shared empty one. */
  lemma BucketInRange(hash: nat, mask: nat, count: nat)
    requires MaskFor(mask, count)
    ensures count > 0 ==> And(hash, mask) == hash % count < count
    ensures count == 0 ==> And(hash, mask) == 0
  {
    if count > 0 {
      var k: nat :| count == Pow2(k);
      MaskIsRemainder(hash, k);
    }
  }

  /** `next_bucket_count`: four times as many buckets, or a length error. */
  function NextBucketCount(mask: nat): (r: Option<nat>)
    ensures r.Some? <==> (mask + 1) * GROWTH_FACTOR <= MAX_BUCKET_COUNT
  {
    if mask + 1 > MAX_BUCKET_COUNT / GROWTH_FACTOR then None else Some((mask + 1) * GROWTH_FACTOR)
  }

  /** Growing keeps a power of two, so the rounding of the constructor leaves it alone. */
  lemma GrowthIsExact(mask: nat, count: nat, next: nat, rounded: nat)
    requires MaskFor(mask, count) && NextBucketCount(mask) == Some(next) && LeastPowerAbove(next, rounded)
    ensures rounded == next == if count == 0 then GROWTH_FACTOR else count * GROWTH_FACTOR
  {
    var k: nat :| mask + 1 == Pow2(k) by {
      if count == 0 { assert Pow2(0) == 1; }
    }
    assert Pow2(k + 1) == 2 * Pow2(k) && Pow2(k + 2) == 2 * Pow2(k + 1);
    assert Pow2(k + 2) == next;
  }
}

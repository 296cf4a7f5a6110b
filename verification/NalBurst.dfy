/**
 Burst sizing (tools/pms_nal_stats.cpp): the largest burst in a sliding window,
 and the next power of two of a 64-bit size.
 */
module NalBurst {

  datatype NalSample = NalSample(tUs: nat, bytes: nat)

  // ------------------------------------------------------------------ the burst

  /** The bytes of samples l to r - 1. */
  function Sum(ss: seq<NalSample>, l: nat, r: nat): nat
    requires l <= r <= |ss|
  {
    if l == r then 0 else Sum(ss, l, r - 1) + ss[r - 1].bytes
  }

  ghost predicate NonDecreasing(ss: seq<NalSample>) {
    forall i, j :: 0 <= i <= j < |ss| ==> ss[i].tUs <= ss[j].tUs
  }

  /** Samples l to r - 1 are a range that spans at most the window. */
  predicate InWindow(ss: seq<NalSample>, window: nat, l: nat, r: nat) {
    l < r <= |ss| && ss[r - 1].tUs - ss[l].tUs <= window
  }

  /** `best` is the largest byte sum of a range within the window that ends at or before sample `n`. */
  ghost predicate IsMaxBurst(ss: seq<NalSample>, window: nat, n: nat, best: nat) {
    n <= |ss| &&
    (forall l: nat, r: nat :: l < r <= n && ss[r - 1].tUs - ss[l].tUs <= window ==> Sum(ss, l, r) <= best) &&
    (if n == 0 then best == 0 else exists l: nat, r: nat :: l < r <= n && ss[r - 1].tUs - ss[l].tUs <= window && Sum(ss, l, r) == best)
  }

  /** The samples before `left` are out of the window that ends with sample r - 1. */
  ghost predicate TooOld(ss: seq<NalSample>, window: nat, left: nat, r: nat) {
    1 <= r <= |ss| && forall l :: 0 <= l < left && l < |ss| ==> ss[r - 1].tUs - ss[l].tUs > window
  }

  lemma {:induction false} SumSplit(ss: seq<NalSample>, l: nat, m: nat, r: nat)
    requires l <= m <= r <= |ss|
    ensures Sum(ss, l, r) == Sum(ss, l, m) + Sum(ss, m, r)
    decreases r - m
  {
    if m < r {
      SumSplit(ss, l, m, r - 1);
    }
  }

  /** Of the ranges that end with sample r - 1, the longest one in the window is the largest. */
  lemma LongestIsLargest(ss: seq<NalSample>, window: nat, left: nat, l: nat, r: nat)
    requires left < r && TooOld(ss, window, left, r) && InWindow(ss, window, l, r)
    ensures Sum(ss, l, r) <= Sum(ss, left, r)
  {
    assert left <= l;
    SumSplit(ss, left, l, r);
  }

  lemma BestGrows(ss: seq<NalSample>, window: nat, left: nat, n: nat, best: nat, best': nat)
    requires n < |ss| && IsMaxBurst(ss, window, n, best) && left <= n
    requires TooOld(ss, window, left, n + 1) && InWindow(ss, window, left, n + 1)
    requires best' == if Sum(ss, left, n + 1) > best then Sum(ss, left, n + 1) else best
    ensures IsMaxBurst(ss, window, n + 1, best')
  {
    forall l: nat, r: nat | l < r <= n + 1 && ss[r - 1].tUs - ss[l].tUs <= window ensures Sum(ss, l, r) <= best' {
      if r == n + 1 {
        LongestIsLargest(ss, window, left, l, r);
      }
    }
    if best' == best && n > 0 {
      var l: nat, r: nat :| l < r <= n && ss[r - 1].tUs - ss[l].tUs <= window && Sum(ss, l, r) == best;
      assert r <= n + 1;
    } else {
      assert Sum(ss, left, n + 1) == best';
    }
  }

  lemma OlderStaysTooOld(ss: seq<NalSample>, window: nat, left: nat, r: nat)
    requires NonDecreasing(ss) && r < |ss| && (r > 0 ==> TooOld(ss, window, left, r)) && (r == 0 ==> left == 0)
    ensures TooOld(ss, window, left, r + 1)
  {
  }

  lemma SumDropsFirst(ss: seq<NalSample>, l: nat, r: nat)
    requires l < r <= |ss|
    ensures Sum(ss, l, r) == ss[l].bytes + Sum(ss, l + 1, r)
  {
    SumSplit(ss, l, l + 1, r);
    assert Sum(ss, l, l) == 0;
    assert Sum(ss, l, l + 1) == ss[l].bytes;
  }

  /** maxBurstBytes: for timestamps in order, the maximum over all ranges within the window. */
  method MaxBurstBytes(ss: seq<NalSample>, window: nat) returns (best: nat)
    requires forall i, j :: 0 <= i <= j < |ss| ==> ss[i].tUs <= ss[j].tUs
    ensures forall l: nat, r: nat :: l < r <= |ss| && ss[r - 1].tUs - ss[l].tUs <= window ==> Sum(ss, l, r) <= best
    ensures ss == [] ==> best == 0
    ensures ss != [] ==>
              exists l: nat, r: nat :: l < r <= |ss| && ss[r - 1].tUs - ss[l].tUs <= window && Sum(ss, l, r) == best
  {
    best := 0;
    var cur, left := 0, 0;
    for right := 0 to |ss|
      invariant left <= right && cur == Sum(ss, left, right) && IsMaxBurst(ss, window, right, best)
      invariant right > 0 ==> TooOld(ss, window, left, right)
    {
      cur := cur + ss[right].bytes;
      OlderStaysTooOld(ss, window, left, right);
      while left < right && ss[right].tUs - ss[left].tUs > window
        invariant left <= right && cur == Sum(ss, left, right + 1) && TooOld(ss, window, left, right + 1)
      {
        SumDropsFirst(ss, left, right + 1);
        cur := cur - ss[left].bytes;
        left := left + 1;
      }
      ghost var was := best;
      best := if cur > best then cur else best;
      BestGrows(ss, window, left, right, was, best);
    }
  }

  // ------------------------------------------------------------------ bits

  function Pow2(n: nat): (p: nat)
    ensures p >= 1
  {
    if n == 0 then 1 else 2 * Pow2(n - 1)
  }

  /** x >> s */
  function Shr(x: nat, s: nat): nat { if s == 0 then x else Shr(x / 2, s - 1) }

  /** x | y */
  function Or(x: nat, y: nat): nat {
    if x == 0 then y
    else if y == 0 then x
    else (if x % 2 == 1 || y % 2 == 1 then 1 else 0) + 2 * Or(x / 2, y / 2)
  }

  /** Bit i of x is set. */
  predicate Bit(x: nat, i: nat) { if i == 0 then x % 2 == 1 else Bit(x / 2, i - 1) }

  lemma {:induction false} BitOfZero(i: nat)
    ensures !Bit(0, i)
  {
    if i > 0 {
      BitOfZero(i - 1);
    }
  }

  lemma {:induction false} BitOfShr(x: nat, s: nat, i: nat)
    ensures Bit(Shr(x, s), i) <==> Bit(x, s + i)
  {
    if s > 0 {
      BitOfShr(x / 2, s - 1, i);
    }
  }

  lemma {:induction false} BitOfOr(x: nat, y: nat, i: nat)
    ensures Bit(Or(x, y), i) <==> Bit(x, i) || Bit(y, i)
    decreases i
  {
    BitOfZero(i);
    if x != 0 && y != 0 && i > 0 {
      BitOfOr(x / 2, y / 2, i - 1);
    }
  }

  lemma {:induction false} OrBelow(x: nat, y: nat, n: nat)
    requires x < Pow2(n) && y < Pow2(n)
    ensures Or(x, y) < Pow2(n)
    decreases n
  {
    if x != 0 && y != 0 {
      OrBelow(x / 2, y / 2, n - 1);
    }
  }

  lemma {:induction false} ShrShrinks(x: nat, s: nat)
    ensures Shr(x, s) <= x
  {
    if s > 0 {
      ShrShrinks(x / 2, s - 1);
    }
  }

  lemma {:induction false} AllOnes(x: nat, n: nat)
    requires x < Pow2(n) && forall i :: 0 <= i < n ==> Bit(x, i)
    ensures x == Pow2(n) - 1
  {
    if n > 0 {
      assert Bit(x, 0);
      forall i | 0 <= i < n - 1 ensures Bit(x / 2, i) {
        assert Bit(x, i + 1);
      }
      AllOnes(x / 2, n - 1);
    }
  }

  lemma {:induction false} TopBit(x: nat) returns (k: nat)
    requires x > 0
    ensures Bit(x, k) && Pow2(k) <= x < Pow2(k + 1)
  {
    if x == 1 {
      k := 0;
    } else {
      k := TopBit(x / 2);
      k := k + 1;
    }
  }

  lemma {:induction false} Pow2Grows(m: nat, n: nat)
    requires m <= n
    ensures Pow2(m) <= Pow2(n)
    decreases n
  {
    if m < n {
      Pow2Grows(m, n - 1);
    }
  }

  // ------------------------------------------------------------------ the next power of two

  const U64 := 0x1_0000_0000_0000_0000

  /** The top `m` bits of x, from bit k down, are set, and nothing stands above bit k. */
  ghost predicate Smeared(x: nat, k: nat, m: nat) {
    x < Pow2(k + 1) && forall i :: 0 <= i <= k && i + m > k ==> Bit(x, i)
  }

  /** One round doubles the run of ones. */
  lemma SmearDoubles(x: nat, k: nat, m: nat)
    requires Smeared(x, k, m)
    ensures Smeared(Or(x, Shr(x, m)), k, 2 * m)
  {
    ShrShrinks(x, m);
    OrBelow(x, Shr(x, m), k + 1);
    forall i | 0 <= i <= k && i + 2 * m > k ensures Bit(Or(x, Shr(x, m)), i) {
      BitOfOr(x, Shr(x, m), i);
      BitOfShr(x, m, i);
    }
  }

  /** `r` is the least power of two that is not below `v`. */
  ghost predicate IsNextPow2(v: nat, r: nat) {
    r >= v && (exists j: nat :: r == Pow2(j)) && forall j: nat :: Pow2(j) >= v ==> Pow2(j) >= r
  }

  lemma NextIs(v: nat, k: nat)
    requires v > 1 && Pow2(k) <= v - 1 < Pow2(k + 1)
    ensures IsNextPow2(v, Pow2(k + 1))
  {
    forall j: nat | Pow2(j) >= v ensures Pow2(j) >= Pow2(k + 1) {
      if j <= k {
        Pow2Grows(j, k);
      } else {
        Pow2Grows(k + 1, j);
      }
    }
  }

  lemma Pow64()
    ensures Pow2(63) == U64 / 2 && Pow2(64) == U64
  {
    assert Pow2(4) == 16;
    Doubled(4, 16, 4, 16);
    Doubled(8, 0x100, 8, 0x100);
    Doubled(16, 0x1_0000, 16, 0x1_0000);
    Doubled(32, 0x1_0000_0000, 32, 0x1_0000_0000);
  }

  lemma {:induction false} Doubled(m: nat, p: nat, n: nat, q: nat)
    requires Pow2(m) == p && Pow2(n) == q
    ensures Pow2(m + n) == p * q
    decreases n
  {
    if n > 0 {
      Doubled(m, p, n - 1, q / 2);
      assert p * (2 * (q / 2)) == 2 * (p * (q / 2));
    }
  }

  lemma TopBelow64(x: nat, k: nat)
    requires Pow2(k) <= x < U64
    ensures k <= 63 && (k == 63 <==> x >= U64 / 2 && Pow2(k + 1) == U64)
    ensures k < 63 ==> Pow2(k + 1) <= U64 / 2
  {
    Pow64();
    if k >= 64 {
      Pow2Grows(64, k);
    } else if k < 63 {
      Pow2Grows(k + 1, 63);
    }
  }

  lemma SmearedAtFirst(x: nat, k: nat)
    requires Bit(x, k) && x < Pow2(k + 1)
    ensures Smeared(x, k, 1)
  {
  }

  lemma AllSmeared(x: nat, k: nat)
    requires Smeared(x, k, 64) && k < 64
    ensures x + 1 == Pow2(k + 1)
  {
    AllOnes(x, k + 1);
  }

  /** The shift loop: 1, 2, 4, 8, 16, 32. */
  method SmearAll(v: nat, ghost k: nat) returns (x: nat)
    requires Smeared(v, k, 1)
    ensures Smeared(x, k, 64)
  {
    x := v;
    var s: nat := 1;
    while s < 64
      invariant s in {1, 2, 4, 8, 16, 32, 64} && Smeared(x, k, s)
      decreases 64 - s
    {
      SmearDoubles(x, k, s);
      x := Or(x, Shr(x, s));
      s := 2 * s;
    }
  }

  /** nextPow2 on uint64_t: the least power of two not below v up to 2^63; above that the result wraps to 0. */
  method NextPow2(v: nat) returns (r: nat)
    requires v < U64
    ensures v <= U64 / 2 ==> r >= v && (exists j: nat :: r == Pow2(j)) && forall j: nat :: Pow2(j) >= v ==> Pow2(j) >= r
    ensures v > U64 / 2 ==> r == 0
  {
    if v <= 1 {
      assert Pow2(0) == 1;
      return 1;
    }
    var x: nat := v - 1;
    ghost var k := TopBit(x);
    SmearedAtFirst(x, k);
    x := SmearAll(x, k);
    TopBelow64(v - 1, k);
    AllSmeared(x, k);
    NextIs(v, k);
    r := (x + 1) % U64;
  }
}

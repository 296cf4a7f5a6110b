/**
 Display cadence (host/libmisterplex/cadence.hpp): which display ticks show a new
 content frame.
 */
module Cadence {
  import opened Division

  /** content_index_at */
  function ContentIndexAt(n: nat, fps: int, hz: int): nat {
    if fps <= 0 || hz <= 0 || fps >= hz then n else n * fps / hz
  }

  /** should_advance_unique */
  predicate ShouldAdvance(n: nat, fps: int, hz: int) {
    if fps <= 0 || hz <= 0 || fps >= hz then true
    else n == 0 || ContentIndexAt(n, fps, hz) != ContentIndexAt(n - 1, fps, hz)
  }

  /** The ticks in [a, b) that advance. */
  function Advances(a: nat, b: nat, fps: int, hz: int): nat
    requires a <= b
  {
    if a == b then 0 else Advances(a, b - 1, fps, hz) + if ShouldAdvance(b - 1, fps, hz) then 1 else 0
  }

  /** unique_frames_in */
  method UniqueFramesIn(ticks: int, fps: int, hz: int) returns (advances: int)
    ensures 0 < fps < hz && ticks >= 1 ==> advances == (ticks - 1) * fps / hz + 1
    ensures !(0 < fps < hz) || ticks < 1 ==> advances == if ticks < 0 then 0 else ticks
  {
    advances := 0;
    var n := 0;
    while n < ticks
      invariant 0 <= n && (n <= ticks || n == 0) && advances == Advances(0, n, fps, hz)
    {
      if ShouldAdvance(n, fps, hz) {
        advances := advances + 1;
      }
      n := n + 1;
    }
    if 0 < fps < hz {
      if n > 0 {
        AdvancesFromStart(n, fps, hz);
      }
    } else {
      EveryTickAdvances(n, fps, hz);
    }
  }

  /** The index of tick n: the k with k * hz <= n * fps < (k + 1) * hz. */
  lemma IndexIs(n: nat, fps: int, hz: int)
    requires 0 < fps < hz
    ensures var k := ContentIndexAt(n, fps, hz); k * hz <= n * fps < k * hz + hz
  {
    Product(n, fps);
    QuotientBounds(n * fps, hz);
  }

  /** Content that is not slower than the display, or a rate that makes no sense: a new frame at every tick. */
  lemma NotSlowerIsEveryTick(n: nat, fps: int, hz: int)
    requires fps <= 0 || hz <= 0 || fps >= hz
    ensures ContentIndexAt(n, fps, hz) == n && ShouldAdvance(n, fps, hz)
  {
  }

  // ------------------------------------------------------------------ no frame is skipped

  /** Each tick shows the same content frame as the one before, or the next one. */
  lemma NoIndexIsSkipped(n: nat, fps: int, hz: int)
    requires 0 < fps < hz
    ensures var k := ContentIndexAt(n, fps, hz);
            var k' := ContentIndexAt(n + 1, fps, hz);
            (k' == k || k' == k + 1) && (k' == k + 1 <==> ShouldAdvance(n + 1, fps, hz))
  {
    var k := ContentIndexAt(n, fps, hz);
    IndexIs(n, fps, hz);
    Product(n, fps);
    Distribute(n, 1, fps);
    Distribute(k, 1, hz);
    QuotientIs((n + 1) * fps, hz, if (n + 1) * fps < k * hz + hz then k else k + 1);
  }

  lemma {:induction false} AdvancesFromStart(n: nat, fps: int, hz: int)
    requires 0 < fps < hz && n >= 1
    ensures Advances(0, n, fps, hz) == ContentIndexAt(n - 1, fps, hz) + 1
  {
    if n == 1 {
      QuotientIs(0, hz, 0);
      assert Advances(0, 0, fps, hz) == 0;
    } else {
      AdvancesFromStart(n - 1, fps, hz);
      NoIndexIsSkipped(n - 2, fps, hz);
    }
  }

  lemma {:induction false} EveryTickAdvances(n: nat, fps: int, hz: int)
    requires !(0 < fps < hz)
    ensures Advances(0, n, fps, hz) == n
  {
    if n > 0 {
      EveryTickAdvances(n - 1, fps, hz);
    }
  }

  lemma {:induction false} AdvancesSplit(a: nat, b: nat, fps: int, hz: int)
    requires a <= b
    ensures Advances(0, b, fps, hz) == Advances(0, a, fps, hz) + Advances(a, b, fps, hz)
    decreases b
  {
    if a < b {
      AdvancesSplit(a, b - 1, fps, hz);
    }
  }

  /** The advances of a window that starts after the first tick. */
  lemma WindowIs(a: nat, ticks: nat, fps: int, hz: int)
    requires 0 < fps < hz && a >= 1
    ensures Advances(a, a + ticks, fps, hz)
            == ContentIndexAt(a + ticks - 1, fps, hz) - ContentIndexAt(a - 1, fps, hz)
  {
    AdvancesSplit(a, a + ticks, fps, hz);
    AdvancesFromStart(a, fps, hz);
    AdvancesFromStart(a + ticks, fps, hz);
  }

  // ------------------------------------------------------------------ windows

  /** d is x / h rounded down or up. */
  predicate FloorOrCeil(d: int, x: int, h: int)
    requires h > 0
  {
    x - h < d * h < x + h
  }

  /** That predicate is what it says. */
  lemma FloorOrCeilIs(d: int, x: nat, h: nat)
    requires h > 0
    ensures FloorOrCeil(d, x, h) <==> d == x / h || (x % h != 0 && d == x / h + 1)
  {
    var q := x / h;
    QuotientBounds(x, h);
    assert x == q * h + x % h;
    Distribute(q, 1, h);
    if d < q {
      Multiples(d, q, h);
    } else if d > q + 1 {
      Multiples(q + 1, d, h);
    }
  }

  /** Any run of ticks shows its share of frames, rounded down or up. */
  lemma AnyWindow(a: nat, ticks: nat, fps: int, hz: int)
    requires 0 < fps < hz
    ensures FloorOrCeil(Advances(a, a + ticks, fps, hz), ticks * fps, hz)
  {
    if ticks == 0 {
      assert Advances(a, a, fps, hz) == 0;
      assert 0 * fps == 0 && 0 * hz == 0;
    } else if a == 0 {
      FirstWindow(ticks, fps, hz);
    } else {
      LaterWindow(a, ticks, fps, hz);
    }
  }

  lemma FirstWindow(ticks: nat, fps: int, hz: int)
    requires 0 < fps < hz && ticks >= 1
    ensures FloorOrCeil(Advances(0, ticks, fps, hz), ticks * fps, hz)
  {
    var k := ContentIndexAt(ticks - 1, fps, hz);
    AdvancesFromStart(ticks, fps, hz);
    IndexIs(ticks - 1, fps, hz);
    Distribute(ticks, 1, fps);
    Distribute(k, 1, hz);
  }

  lemma LaterWindow(a: nat, ticks: nat, fps: int, hz: int)
    requires 0 < fps < hz && a >= 1
    ensures FloorOrCeil(Advances(a, a + ticks, fps, hz), ticks * fps, hz)
  {
    var k, l := ContentIndexAt(a - 1, fps, hz), ContentIndexAt(a + ticks - 1, fps, hz);
    WindowIs(a, ticks, fps, hz);
    IndexIs(a - 1, fps, hz);
    IndexIs(a + ticks - 1, fps, hz);
    Distribute(a - 1, ticks, fps);
    Distribute(l, k, hz);
    assert (a + ticks - 1) * fps == (a - 1 + ticks) * fps;
  }

  /** One second of display ticks, wherever it starts, shows exactly one second of content. */
  lemma EverySecondIsFull(a: nat, fps: int, hz: int)
    requires 0 < fps < hz
    ensures Advances(a, a + hz, fps, hz) == fps
  {
    AnyWindow(a, hz, fps, hz);
    var d := Advances(a, a + hz, fps, hz);
    if d < fps {
      Multiples(d, fps, hz);
    } else if d > fps {
      Multiples(fps, d, hz);
    }
  }

  // ------------------------------------------------------------------ gaps

  /** Tick n is the first one at which content frame k is due. */
  lemma AdvanceMeansDue(n: nat, fps: int, hz: int)
    requires 0 < fps < hz && ShouldAdvance(n, fps, hz)
    ensures var k := ContentIndexAt(n, fps, hz); k * hz <= n * fps < k * hz + fps
  {
    IndexIs(n, fps, hz);
    if n == 0 {
      QuotientIs(0, hz, 0);
    } else {
      var k := ContentIndexAt(n, fps, hz);
      NoIndexIsSkipped(n - 1, fps, hz);
      IndexIs(n - 1, fps, hz);
      Distribute(n, 1, fps);
      Distribute(k, 1, hz);
    }
  }

  lemma {:induction false} IndexHolds(a: nat, b: nat, fps: int, hz: int)
    requires 0 < fps < hz && a <= b && forall n :: a < n <= b ==> !ShouldAdvance(n, fps, hz)
    ensures ContentIndexAt(b, fps, hz) == ContentIndexAt(a, fps, hz)
    decreases b - a
  {
    if a < b {
      assert !ShouldAdvance(b, fps, hz);
      NoIndexIsSkipped(b - 1, fps, hz);
      IndexHolds(a, b - 1, fps, hz);
    }
  }

  /** Between one new frame and the next there are hz / fps ticks, rounded down or up. */
  lemma GapsAreEven(a: nat, b: nat, fps: int, hz: int)
    requires 0 < fps < hz && a < b && ShouldAdvance(a, fps, hz) && ShouldAdvance(b, fps, hz)
    requires forall n :: a < n < b ==> !ShouldAdvance(n, fps, hz)
    ensures FloorOrCeil(b - a, hz, fps)
  {
    var k := ContentIndexAt(a, fps, hz);
    IndexHolds(a, b - 1, fps, hz);
    NoIndexIsSkipped(b - 1, fps, hz);
    AdvanceMeansDue(a, fps, hz);
    AdvanceMeansDue(b, fps, hz);
    Distribute(k, 1, hz);
    Distribute(b, a, fps);
  }

  /** The 32-bit index and the 64-bit product do not overflow. */
  lemma FitsMachineWords(n: nat, fps: int, hz: int)
    requires n < 0x1_0000_0000 && fps < 0x8000_0000
    ensures ContentIndexAt(n, fps, hz) <= n
    ensures 0 < fps ==> n * fps < 0x1_0000_0000_0000_0000
  {
    if 0 < fps {
      Product(n, 0x8000_0000 - fps);
      assert n * (0x8000_0000 - fps) == n * 0x8000_0000 - n * fps;
    }
    if 0 < fps < hz {
      var k := ContentIndexAt(n, fps, hz);
      IndexIs(n, fps, hz);
      Product(n, hz - fps);
      assert n * (hz - fps) == n * hz - n * fps;
      if k > n {
        Multiples(n, k, hz);
      }
    }
  }
}

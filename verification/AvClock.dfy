/**
 The presentation clock (host/libmisterplex/av_clock.hpp): content time of a frame
 at a rational rate, in exact integer arithmetic.
 */
module AvClock {
  import opened Division

  const DEFAULT_NUM := 24
  const DEFAULT_DEN := 1

  /** Division of int64_t: truncation toward zero. */
  function Div(x: int, d: int): int
    requires d > 0
  {
    if x >= 0 then x / d else -((-x) / d)
  }

  function Num(num: int, den: int): (n: int)
    ensures n > 0
  {
    if num <= 0 || den <= 0 then DEFAULT_NUM else num
  }

  function Den(num: int, den: int): (d: int)
    ensures d > 0
  {
    if num <= 0 || den <= 0 then DEFAULT_DEN else den
  }

  /** frameContentMs */
  function FrameContentMs(frame: int, num: int, den: int): int {
    Div(frame * 1000 * Den(num, den), Num(num, den))
  }

  /** frameContentUs */
  function FrameContentUs(frame: int, num: int, den: int): int {
    Div(frame * 1000000 * Den(num, den), Num(num, den))
  }

  const BYTES_PER_SECOND := 48000 * 4

  /** audioClockMs */
  function AudioClockMs(bytes: int): int { if bytes <= 0 then 0 else Div(bytes * 1000, BYTES_PER_SECOND) }

  /** audioClockUs */
  function AudioClockUs(bytes: int): int { if bytes <= 0 then 0 else Div(bytes * 1000000, BYTES_PER_SECOND) }

  // ------------------------------------------------------------------ division

  lemma QuotientMonotone(x: int, y: int, d: int)
    requires 0 <= x <= y && d > 0
    ensures x / d <= y / d
  {
    QuotientBounds(x, d);
    QuotientBounds(y, d);
    if x / d > y / d {
      Multiples(y / d, x / d, d);
    }
  }

  lemma DivMonotone(x: int, y: int, d: int)
    requires x <= y && d > 0
    ensures Div(x, d) <= Div(y, d)
  {
    if x >= 0 {
      QuotientMonotone(x, y, d);
    } else if y < 0 {
      QuotientMonotone(-y, -x, d);
    } else {
      QuotientBounds(y, d);
      QuotientBounds(-x, d);
    }
  }

  /** Truncation is under one unit, toward zero. */
  lemma DivError(x: int, d: int)
    requires d > 0
    ensures x >= 0 ==> 0 <= x - Div(x, d) * d < d
    ensures x <= 0 ==> -d < x - Div(x, d) * d <= 0
  {
  }

  lemma QuotientInSteps(y: int, d: int)
    requires y >= 0 && d > 0
    ensures (1000 * y / d) / 1000 == y / d
  {
    var q, u := y / d, 1000 * y / d;
    QuotientBounds(y, d);
    QuotientBounds(1000 * y, d);
    assert (1000 * q) * d == 1000 * (q * d) && (1000 * q + 1000) * d == 1000 * (q * d) + 1000 * d;
    if u < 1000 * q {
      Multiples(u, 1000 * q, d);
    } else if u >= 1000 * q + 1000 {
      if u > 1000 * q + 1000 {
        Multiples(1000 * q + 1000, u, d);
      }
    }
    QuotientIs(u, 1000, q);
  }

  /** Dividing by d and then by 1000 loses nothing against dividing once. */
  lemma DivInSteps(y: int, d: int)
    requires d > 0
    ensures Div(Div(1000 * y, d), 1000) == Div(y, d)
  {
    if y >= 0 {
      QuotientInSteps(y, d);
      QuotientBounds(1000 * y, d);
    } else {
      QuotientInSteps(-y, d);
      QuotientBounds(-1000 * y, d);
      assert 1000 * (-y) == -(1000 * y);
    }
  }

  // ------------------------------------------------------------------ content time

  /** `q` is `x / n` cut off by less than one unit, toward zero, where `x` has the sign of `frame`. */
  predicate Truncates(frame: int, x: int, q: int, n: int) {
    (frame >= 0 ==> 0 <= x - q * n < n) && (frame <= 0 ==> -n < x - q * n <= 0)
  }

  /** A later frame is never earlier; the error of every frame is under one unit, so nothing accumulates. A rate
      with a part that is not positive counts as 24/1. */
  lemma ContentTimeIsExact(frame: int, next: int, num: int, den: int)
    requires frame <= next
    ensures FrameContentMs(frame, num, den) <= FrameContentMs(next, num, den)
    ensures FrameContentUs(frame, num, den) <= FrameContentUs(next, num, den)
    ensures var n, d := if num <= 0 || den <= 0 then 24 else num, if num <= 0 || den <= 0 then 1 else den;
            && Truncates(frame, frame * 1000 * d, FrameContentMs(frame, num, den), n)
            && Truncates(frame, frame * 1000000 * d, FrameContentUs(frame, num, den), n)
  {
    var n, d := Num(num, den), Den(num, den);
    Ordered(frame, next, d);
    DivMonotone(frame * 1000 * d, next * 1000 * d, n);
    DivMonotone(frame * 1000000 * d, next * 1000000 * d, n);
    DivError(frame * 1000 * d, n);
    DivError(frame * 1000000 * d, n);
    Signed(frame, d);
  }

  /** n seconds of 48 kHz stereo s16 audio, 192000 bytes each, are 1000 n ms; no bytes and fewer are 0. */
  lemma AudioSeconds(n: nat)
    ensures AudioClockMs(192000 * n) == 1000 * n && AudioClockUs(192000 * n) == 1000000 * n
    ensures AudioClockMs(-(192000 * n)) == 0 && AudioClockUs(-(192000 * n)) == 0
  {
    QuotientIs(192000 * n * 1000, 192000, 1000 * n);
    QuotientIs(192000 * n * 1000000, 192000, 1000000 * n);
  }

  /** The audio clock is cut off by less than one unit, and no audio is time 0. */
  lemma AudioTimeIsExact(bytes: int)
    ensures bytes >= 0 ==> Truncates(bytes, bytes * 1000, AudioClockMs(bytes), 192000)
    ensures bytes >= 0 ==> Truncates(bytes, bytes * 1000000, AudioClockUs(bytes), 192000)
    ensures bytes <= 0 ==> AudioClockMs(bytes) == 0 && AudioClockUs(bytes) == 0
  {
    DivError(bytes * 1000, 192000);
    DivError(bytes * 1000000, 192000);
  }

  lemma Ordered(a: int, b: int, d: int)
    requires a <= b && d > 0
    ensures a * 1000 * d <= b * 1000 * d && a * 1000000 * d <= b * 1000000 * d
  {
  }

  lemma Signed(a: int, d: int)
    requires d > 0
    ensures (a >= 0 ==> a * 1000 * d >= 0 && a * 1000000 * d >= 0) && (a <= 0 ==> a * 1000 * d <= 0 && a * 1000000 * d <= 0)
  {
  }

  /** The millisecond form is the microsecond form divided by 1000, for frames and for audio. */
  lemma MsIsUsOver1000(frame: int, num: int, den: int, bytes: int)
    ensures FrameContentMs(frame, num, den) == Div(FrameContentUs(frame, num, den), 1000)
    ensures AudioClockMs(bytes) == Div(AudioClockUs(bytes), 1000)
  {
    var n, d := Num(num, den), Den(num, den);
    assert frame * 1000000 * d == 1000 * (frame * 1000 * d);
    DivInSteps(frame * 1000 * d, n);
    DivInSteps(bytes * 1000, BYTES_PER_SECOND);
  }

  /** Pacing 24000/1001 content as 24/1 is off by one millisecond every 24 frames. */
  lemma DriftOfWrongRate(frame: nat)
    ensures var e := FrameContentMs(frame, 24000, 1001) - FrameContentMs(frame, 24, 1);
            e == frame / 24 || e == frame / 24 + 1
  {
  }

  /** Nine thousand million frames, at any rate with a denominator up to 1001, stay inside int64_t. */
  lemma NoOverflow(frame: int, den: int)
    requires -9_000_000_000 <= frame <= 9_000_000_000 && 0 < den <= 1001
    ensures -0x8000_0000_0000_0000 <= frame * 1000000 * den < 0x8000_0000_0000_0000
  {
    if frame >= 0 {
      ProductBound(frame * 1000000, 9_000_000_000_000_000, den);
    } else {
      ProductBound(-frame * 1000000, 9_000_000_000_000_000, den);
    }
  }

  lemma ProductBound(x: int, m: int, d: int)
    requires 0 <= x <= m && 0 < d <= 1001
    ensures 0 <= x * d <= m * 1001
  {
  }
}

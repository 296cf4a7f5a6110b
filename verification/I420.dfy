/**
 Comparing I420 frames (tools/score_i420_candidate.py): linear plane scores, and
 the search for the first divergent macroblock.
 */
module I420 {
  import opened Options
  import opened Division

  type Byte = x: int | 0 <= x < 256

  function FrameBytes(width: nat, height: nat): nat { width * height * 3 / 2 }

  function Diff(a: int, b: int): (d: nat)
    ensures d == a - b || d == b - a
  {
    if a < b then b - a else a - b
  }

  // ------------------------------------------------------------------ planes

  datatype Plane = Y | U | V

  /** Where a plane starts, how long its rows are and how many it has. */
  datatype View = View(off: nat, width: nat, height: nat)

  /** A plane's view, from the start of the frame (plane_views). */
  function ViewOf(p: Plane, base: nat, width: nat, height: nat): View {
    match p
    case Y => View(base, width, height)
    case U => View(base + width * height, width / 2, height / 2)
    case V => View(base + width * height + (width / 2) * (height / 2), width / 2, height / 2)
  }

  function Count(v: View): nat { v.width * v.height }

  function BlockSize(p: Plane): nat { if p == Y then 16 else 8 }

  ghost predicate Fits(v: View, s: seq<Byte>) { v.off + Count(v) <= |s| }

  function At(v: View, x: nat, y: nat): nat { v.off + (y * v.width + x) }

  lemma InPlane(v: View, x: nat, y: nat)
    requires x < v.width && y < v.height
    ensures y * v.width + x < Count(v)
  {
    Multiples(y, v.height, v.width);
  }

  lemma Quarter(w: nat, h: nat)
    ensures (2 * w) * (2 * h) == 4 * (w * h) && w * h >= 0
  {
    Product(w, h);
  }

  /** The three planes of a frame follow one another and fill it. */
  lemma PlanesFill(base: nat, width: nat, height: nat)
    requires width == 2 * (width / 2) && height == 2 * (height / 2)
    ensures var y, u, v := ViewOf(Y, base, width, height), ViewOf(U, base, width, height), ViewOf(V, base, width, height);
            y.off == base && u.off == y.off + Count(y) && v.off == u.off + Count(u) &&
            v.off + Count(v) == base + FrameBytes(width, height)
  {
    Quarter(width / 2, height / 2);
  }

  // ------------------------------------------------------------------ score_plane

  datatype BadPixel = BadPixel(x: nat, y: nat, got: Byte, ref: Byte, abs: nat)

  datatype PlaneScore = PlaneScore(exact: nat, total: nat, sumAbs: nat, maxAbs: nat, firstBad: Option<BadPixel>)

  predicate SameByte(c: seq<Byte>, g: seq<Byte>, i: nat) { i < |c| && i < |g| && c[i] == g[i] }

  ghost predicate SameRange(c: seq<Byte>, g: seq<Byte>, off: nat, count: nat) {
    forall i :: off <= i < off + count ==> SameByte(c, g, i)
  }

  function ExactIn(c: seq<Byte>, g: seq<Byte>, off: nat, count: nat): (n: nat)
    ensures n <= count
    ensures n == count <==> SameRange(c, g, off, count)
  {
    if count == 0 then 0
    else
      assert SameRange(c, g, off, count) <==> SameRange(c, g, off, count - 1) && SameByte(c, g, off + count - 1);
      ExactIn(c, g, off, count - 1) + if SameByte(c, g, off + count - 1) then 1 else 0
  }

  function SumAbs(c: seq<Byte>, g: seq<Byte>, off: nat, count: nat): nat
    requires off + count <= |c| && off + count <= |g|
  {
    if count == 0 then 0 else SumAbs(c, g, off, count - 1) + Diff(c[off + count - 1], g[off + count - 1])
  }

  /** The sum is over single pixels, each its absolute difference. */
  lemma {:induction false} SumAbsAdds(c: seq<Byte>, g: seq<Byte>, off: nat, m: nat, n: nat)
    requires off + m + n <= |c| && off + m + n <= |g|
    ensures SumAbs(c, g, off, m + n) == SumAbs(c, g, off, m) + SumAbs(c, g, off + m, n)
    ensures n == 1 ==> SumAbs(c, g, off + m, n) in {c[off + m] as int - g[off + m] as int, g[off + m] as int - c[off + m] as int}
    decreases n
  {
    if n > 0 {
      SumAbsAdds(c, g, off, m, n - 1);
    }
  }

  /** The first difference of a row-major range. */
  ghost predicate IsFirstBad(c: seq<Byte>, g: seq<Byte>, off: nat, width: nat, count: nat, b: BadPixel) {
    var i := b.y * width + b.x;
    b.x < width && i < count && off + i < |c| && off + i < |g| && SameRange(c, g, off, i) &&
    b.got == c[off + i] && b.ref == g[off + i] && b.got != b.ref && b.abs == Diff(b.got, b.ref)
  }

  lemma Position(i: nat, width: nat)
    requires width > 0
    ensures i % width < width && (i / width) * width + i % width == i
  {
  }

  /** The first differing index of a range. */
  ghost predicate IsFirstDiff(c: seq<Byte>, g: seq<Byte>, off: nat, count: nat, i: nat) {
    i < count && off + i < |c| && off + i < |g| && c[off + i] != g[off + i] && SameRange(c, g, off, i)
  }

  lemma FirstBadIs(c: seq<Byte>, g: seq<Byte>, off: nat, width: nat, count: nat, i: nat, b: BadPixel)
    requires width > 0 && IsFirstDiff(c, g, off, count, i)
    requires b == BadPixel(i % width, i / width, c[off + i], g[off + i], Diff(c[off + i], g[off + i]))
    ensures IsFirstBad(c, g, off, width, count, b)
  {
    Position(i, width);
  }

  /** The loop of score_plane. */
  method ScoreRange(c: seq<Byte>, g: seq<Byte>, off: nat, count: nat)
    returns (exact: nat, sumAbs: nat, maxAbs: nat, firstBad: Option<nat>)
    requires off + count <= |c| && off + count <= |g|
    ensures exact == ExactIn(c, g, off, count) && sumAbs == SumAbs(c, g, off, count)
    ensures firstBad.None? <==> SameRange(c, g, off, count)
    ensures firstBad.Some? ==> IsFirstDiff(c, g, off, count, firstBad.value)
    ensures forall i :: off <= i < off + count ==> Diff(c[i], g[i]) <= maxAbs
    ensures maxAbs == 0 || exists i :: off <= i < off + count && Diff(c[i], g[i]) == maxAbs
  {
    exact, sumAbs, maxAbs, firstBad := 0, 0, 0, None;
    for i := 0 to count
      invariant exact == ExactIn(c, g, off, i) && sumAbs == SumAbs(c, g, off, i)
      invariant firstBad.None? <==> SameRange(c, g, off, i)
      invariant firstBad.Some? ==> IsFirstDiff(c, g, off, i, firstBad.value)
      invariant forall k :: off <= k < off + i ==> Diff(c[k], g[k]) <= maxAbs
      invariant maxAbs == 0 || exists k :: off <= k < off + i && Diff(c[k], g[k]) == maxAbs
    {
      var diff := Diff(c[off + i], g[off + i]);
      if diff == 0 {
        exact := exact + 1;
      } else {
        assert !SameByte(c, g, off + i);
        if firstBad.None? {
          firstBad := Some(i);
        }
        sumAbs := sumAbs + diff;
        maxAbs := if diff > maxAbs then diff else maxAbs;
      }
    }
  }

  /** The coordinates of the first difference. */
  method PixelOf(c: seq<Byte>, g: seq<Byte>, off: nat, width: nat, count: nat, i: nat) returns (b: BadPixel)
    requires width > 0 && IsFirstDiff(c, g, off, count, i)
    ensures IsFirstBad(c, g, off, width, count, b)
  {
    var got, ref := c[off + i], g[off + i];
    b := BadPixel(i % width, i / width, got, ref, Diff(got, ref));
    FirstBadIs(c, g, off, width, count, i, b);
  }

  /** score_plane */
  method ScorePlane(c: seq<Byte>, g: seq<Byte>, off: nat, width: nat, count: nat) returns (r: PlaneScore)
    requires off + count <= |c| && off + count <= |g| && (width == 0 ==> count == 0)
    ensures r.exact == ExactIn(c, g, off, count) && r.total == count && r.sumAbs == SumAbs(c, g, off, count)
    ensures r.exact == r.total <==> SameRange(c, g, off, count)
    ensures r.firstBad.None? <==> SameRange(c, g, off, count)
    ensures r.firstBad.Some? ==> IsFirstBad(c, g, off, width, count, r.firstBad.value)
    ensures forall i :: off <= i < off + count ==> Diff(c[i], g[i]) <= r.maxAbs
    ensures r.maxAbs == 0 || exists i :: off <= i < off + count && Diff(c[i], g[i]) == r.maxAbs
  {
    var exact, sumAbs, maxAbs, first := ScoreRange(c, g, off, count);
    var firstBad: Option<BadPixel> := None;
    if first.Some? {
      var b := PixelOf(c, g, off, width, count, first.value);
      firstBad := Some(b);
    }
    r := PlaneScore(exact, count, sumAbs, maxAbs, firstBad);
  }

  // ------------------------------------------------------------------ blocks

  /** A block's place in its plane: column `mx`, row `my`, side `n`. */
  datatype Block = Block(v: View, n: nat, mx: nat, my: nat)

  predicate Placed(k: Block) { k.n > 0 && k.mx < k.v.width / k.n && k.my < k.v.height / k.n }

  /** The offset of the block's pixel (xx, yy). */
  function PixelAt(k: Block, xx: nat, yy: nat): nat { At(k.v, k.mx * k.n + xx, k.my * k.n + yy) }

  predicate SameIn(c: seq<Byte>, g: seq<Byte>, k: Block, xx: nat, yy: nat) { SameByte(c, g, PixelAt(k, xx, yy)) }

  ghost predicate SameBlock(c: seq<Byte>, g: seq<Byte>, k: Block) {
    forall yy, xx :: 0 <= yy < k.n && 0 <= xx < k.n ==> SameIn(c, g, k, xx, yy)
  }

  /** (yy, xx) comes before (y, x) in a row-major walk. */
  predicate Before(yy: nat, xx: nat, y: nat, x: nat) { yy < y || (yy == y && xx < x) }

  ghost predicate SameBefore(c: seq<Byte>, g: seq<Byte>, k: Block, y: nat, x: nat) {
    forall yy, xx :: 0 <= yy < k.n && 0 <= xx < k.n && Before(yy, xx, y, x) ==> SameIn(c, g, k, xx, yy)
  }

  lemma InSide(m: nat, w: nat, n: nat, xx: nat)
    requires n > 0 && m < w / n && xx < n
    ensures m * n + xx < w
  {
    QuotientBounds(w, n);
    Multiples(m, w / n, n);
  }

  /** A block lies in its plane. */
  lemma BlockInPlane(k: Block, xx: nat, yy: nat)
    requires Placed(k) && xx < k.n && yy < k.n
    ensures k.v.off <= PixelAt(k, xx, yy) < k.v.off + Count(k.v)
  {
    InSide(k.mx, k.v.width, k.n, xx);
    InSide(k.my, k.v.height, k.n, yy);
    AtInPlane(k.v, k.mx * k.n + xx, k.my * k.n + yy);
  }

  lemma AtInPlane(v: View, x: nat, y: nat)
    requires x < v.width && y < v.height
    ensures v.off <= At(v, x, y) < v.off + Count(v)
  {
    InPlane(v, x, y);
  }

  lemma WalkOn(c: seq<Byte>, g: seq<Byte>, k: Block, y: nat, x: nat)
    requires SameBefore(c, g, k, y, x) && x < k.n && SameIn(c, g, k, x, y)
    ensures SameBefore(c, g, k, y, x + 1) && (x + 1 == k.n ==> SameBefore(c, g, k, y + 1, 0))
  {
  }

  /** The inner loops of first_bad_mb: the first difference in a block, in a row-major walk. */
  method FirstBadInBlock(c: seq<Byte>, g: seq<Byte>, k: Block) returns (r: Option<(nat, nat)>)
    requires Fits(k.v, c) && Fits(k.v, g) && Placed(k)
    ensures r.None? <==> SameBlock(c, g, k)
    ensures r.Some? ==> r.value.0 < k.n && r.value.1 < k.n && !SameIn(c, g, k, r.value.0, r.value.1) &&
                        SameBefore(c, g, k, r.value.1, r.value.0)
  {
    for yy := 0 to k.n
      invariant SameBefore(c, g, k, yy, 0)
    {
      for xx := 0 to k.n
        invariant SameBefore(c, g, k, yy, xx)
      {
        BlockInPlane(k, xx, yy);
        var idx := PixelAt(k, xx, yy);
        if c[idx] != g[idx] {
          assert !SameIn(c, g, k, xx, yy);
          return Some((xx, yy));
        }
        WalkOn(c, g, k, yy, xx);
      }
    }
    return None;
  }

  // ------------------------------------------------------------------ macroblocks

  ghost predicate HoldsFrame(s: seq<Byte>, base: nat, width: nat, height: nat) {
    base + FrameBytes(width, height) <= |s|
  }

  /** Every plane lies in the frame, for odd sizes too. */
  lemma PlaneFits(p: Plane, s: seq<Byte>, base: nat, width: nat, height: nat)
    requires HoldsFrame(s, base, width, height)
    ensures Fits(ViewOf(p, base, width, height), s)
  {
    Quarter(width / 2, height / 2);
    Products(2 * (width / 2), 2 * (height / 2), width, height);
  }

  function BlockOf(p: Plane, base: nat, width: nat, height: nat, mx: nat, my: nat): Block {
    Block(ViewOf(p, base, width, height), BlockSize(p), mx, my)
  }

  /** The macroblock agrees in all three planes. */
  ghost predicate SameMb(c: seq<Byte>, g: seq<Byte>, base: nat, width: nat, height: nat, mx: nat, my: nat) {
    forall p :: SameBlock(c, g, BlockOf(p, base, width, height, mx, my))
  }

  lemma BlockIsPlaced(p: Plane, base: nat, width: nat, height: nat, mx: nat, my: nat)
    requires mx < width / 16 && my < height / 16
    ensures Placed(BlockOf(p, base, width, height, mx, my))
  {
  }

  lemma BlockFits(p: Plane, s: seq<Byte>, base: nat, width: nat, height: nat, mx: nat, my: nat)
    requires HoldsFrame(s, base, width, height) && mx < width / 16 && my < height / 16
    ensures var k := BlockOf(p, base, width, height, mx, my); Placed(k) && Fits(k.v, s)
  {
    PlaneFits(p, s, base, width, height);
    BlockIsPlaced(p, base, width, height, mx, my);
  }

  /** One pair of nested loops of mb_exact: luma alone, or both chroma planes at once. */
  method BlocksExact(c: seq<Byte>, g: seq<Byte>, k: Block, l: Block) returns (same: bool)
    requires Fits(k.v, c) && Fits(k.v, g) && Fits(l.v, c) && Fits(l.v, g) && Placed(k) && Placed(l) && k.n == l.n
    ensures same <==> SameBlock(c, g, k) && SameBlock(c, g, l)
  {
    for yy := 0 to k.n
      invariant SameBefore(c, g, k, yy, 0) && SameBefore(c, g, l, yy, 0)
    {
      for xx := 0 to k.n
        invariant SameBefore(c, g, k, yy, xx) && SameBefore(c, g, l, yy, xx)
      {
        BlockInPlane(k, xx, yy);
        BlockInPlane(l, xx, yy);
        var i, j := PixelAt(k, xx, yy), PixelAt(l, xx, yy);
        if c[i] != g[i] {
          assert !SameIn(c, g, k, xx, yy);
          return false;
        }
        if c[j] != g[j] {
          assert !SameIn(c, g, l, xx, yy);
          return false;
        }
        WalkOn(c, g, k, yy, xx);
        WalkOn(c, g, l, yy, xx);
      }
    }
    return true;
  }

  /** mb_exact */
  method MbExact(c: seq<Byte>, g: seq<Byte>, base: nat, width: nat, height: nat, mx: nat, my: nat) returns (same: bool)
    requires HoldsFrame(c, base, width, height) && HoldsFrame(g, base, width, height)
    requires mx < width / 16 && my < height / 16
    ensures same <==> SameMb(c, g, base, width, height, mx, my)
  {
    forall p
      ensures var k := BlockOf(p, base, width, height, mx, my); Placed(k) && Fits(k.v, c) && Fits(k.v, g)
    {
      BlockFits(p, c, base, width, height, mx, my);
      BlockFits(p, g, base, width, height, mx, my);
    }
    var y := BlockOf(Y, base, width, height, mx, my);
    var u, v := BlockOf(U, base, width, height, mx, my), BlockOf(V, base, width, height, mx, my);
    same := BlocksExact(c, g, y, y);
    if same {
      same := BlocksExact(c, g, u, v);
    }
    if same {
      forall p ensures SameBlock(c, g, BlockOf(p, base, width, height, mx, my)) {
        assert p == Y || p == U || p == V;
      }
    }
  }

  function Rank(p: Plane): nat { match p case Y => 0 case U => 1 case V => 2 }

  /** The first difference in a macroblock: by plane, then row-major in the block. */
  ghost predicate IsFirstInMb(c: seq<Byte>, g: seq<Byte>, base: nat, width: nat, height: nat, mx: nat, my: nat,
                              p: Plane, x: nat, y: nat) {
    var k := BlockOf(p, base, width, height, mx, my);
    x < k.n && y < k.n && !SameIn(c, g, k, x, y) && SameBefore(c, g, k, y, x) &&
    forall q :: Rank(q) < Rank(p) ==> SameBlock(c, g, BlockOf(q, base, width, height, mx, my))
  }

  /** The planes of one macroblock in order: Y, U, V. */
  method FirstBadPlane(c: seq<Byte>, g: seq<Byte>, base: nat, width: nat, height: nat, mx: nat, my: nat)
    returns (r: Option<(Plane, nat, nat)>)
    requires HoldsFrame(c, base, width, height) && HoldsFrame(g, base, width, height)
    requires mx < width / 16 && my < height / 16
    ensures r.None? <==> SameMb(c, g, base, width, height, mx, my)
    ensures r.Some? ==> IsFirstInMb(c, g, base, width, height, mx, my, r.value.0, r.value.1, r.value.2)
  {
    for rank := 0 to 3
      invariant forall q :: Rank(q) < rank ==> SameBlock(c, g, BlockOf(q, base, width, height, mx, my))
    {
      var p := if rank == 0 then Y else if rank == 1 then U else V;
      assert forall q :: Rank(q) == rank ==> q == p;
      BlockFits(p, c, base, width, height, mx, my);
      BlockFits(p, g, base, width, height, mx, my);
      var b := FirstBadInBlock(c, g, BlockOf(p, base, width, height, mx, my));
      if b.Some? {
        return Some((p, b.value.0, b.value.1));
      }
    }
    return None;
  }

  datatype BadMb = BadMb(frame: nat, plane: Plane, mbX: nat, mbY: nat, mbIndex: nat, x: nat, y: nat,
                         pixelX: nat, pixelY: nat, got: Byte, ref: Byte, abs: nat)

  ghost predicate MbsBefore(c: seq<Byte>, g: seq<Byte>, base: nat, width: nat, height: nat, my: nat, mx: nat) {
    forall y, x :: 0 <= y < height / 16 && 0 <= x < width / 16 && Before(y, x, my, mx) ==> SameMb(c, g, base, width, height, x, y)
  }

  ghost predicate AllMbs(c: seq<Byte>, g: seq<Byte>, base: nat, width: nat, height: nat) {
    forall y, x :: 0 <= y < height / 16 && 0 <= x < width / 16 ==> SameMb(c, g, base, width, height, x, y)
  }

  /** What first_bad_mb reports: the first divergent macroblock in raster order, and its first difference. */
  ghost predicate IsFirstBadMb(c: seq<Byte>, g: seq<Byte>, frame: nat, base: nat, width: nat, height: nat, b: BadMb) {
    b.frame == frame && b.mbX < width / 16 && b.mbY < height / 16 && b.mbIndex == b.mbY * (width / 16) + b.mbX &&
    MbsBefore(c, g, base, width, height, b.mbY, b.mbX) &&
    IsFirstInMb(c, g, base, width, height, b.mbX, b.mbY, b.plane, b.pixelX, b.pixelY) &&
    Describes(c, g, BlockOf(b.plane, base, width, height, b.mbX, b.mbY), b)
  }

  /** The reported coordinates and values are those of the differing pixel. */
  predicate Describes(c: seq<Byte>, g: seq<Byte>, k: Block, b: BadMb) {
    var i := At(k.v, b.x, b.y);
    b.x == k.mx * k.n + b.pixelX && b.y == k.my * k.n + b.pixelY &&
    i < |c| && i < |g| && b.got == c[i] && b.ref == g[i] && b.abs == Diff(b.got, b.ref) && b.abs > 0
  }

  /** A report in bytes: the pixel it names differs in the frame's own planes, and every macroblock above it, or left
      of it in its row, agrees. */
  lemma ReportInBytes(c: seq<Byte>, g: seq<Byte>, frame: nat, base: nat, width: nat, height: nat, b: BadMb)
    requires IsFirstBadMb(c, g, frame, base, width, height, b)
    ensures b.frame == frame && b.got != b.ref && b.abs in {b.got as int - b.ref as int, b.ref as int - b.got as int}
    ensures var n := if b.plane == Y then 16 else 8;
            var w := if b.plane == Y then width else width / 2;
            var off := if b.plane == Y then 0 else if b.plane == U then width * height
                       else width * height + (width / 2) * (height / 2);
            var i := base + off + b.y * w + b.x;
            && b.x == n * b.mbX + b.pixelX && b.y == n * b.mbY + b.pixelY && b.pixelX < n && b.pixelY < n
            && i < |c| && i < |g| && c[i] == b.got && g[i] == b.ref
    ensures forall y, x :: 0 <= y < height / 16 && 0 <= x < width / 16 && (y < b.mbY || (y == b.mbY && x < b.mbX)) ==>
              SameMb(c, g, base, width, height, x, y)
  {
    forall y, x | 0 <= y < height / 16 && 0 <= x < width / 16 && (y < b.mbY || (y == b.mbY && x < b.mbX))
      ensures SameMb(c, g, base, width, height, x, y)
    {
      assert Before(y, x, b.mbY, b.mbX);
    }
  }

  /** Likewise of one plane's score: the first differing byte, at its row and column. */
  lemma FirstBadInBytes(c: seq<Byte>, g: seq<Byte>, off: nat, width: nat, count: nat, b: BadPixel)
    requires IsFirstBad(c, g, off, width, count, b)
    ensures var i := off + b.y * width + b.x;
            && b.x < width && i < off + count && i < |c| && i < |g|
            && c[i] == b.got && g[i] == b.ref && b.got != b.ref
            && forall j :: off <= j < i ==> c[j] == g[j]
  {
    var i := b.y * width + b.x;
    forall j | off <= j < off + i ensures c[j] == g[j] {
      assert SameByte(c, g, off + (j - off));
    }
  }

  lemma NextMb(c: seq<Byte>, g: seq<Byte>, base: nat, width: nat, height: nat, my: nat, mx: nat)
    requires MbsBefore(c, g, base, width, height, my, mx) && mx < width / 16 && SameMb(c, g, base, width, height, mx, my)
    ensures MbsBefore(c, g, base, width, height, my, mx + 1)
    ensures mx + 1 == width / 16 ==> MbsBefore(c, g, base, width, height, my + 1, 0)
  {
  }

  /** first_bad_mb */
  method FirstBadMb(c: seq<Byte>, g: seq<Byte>, frame: nat, width: nat, height: nat) returns (r: Option<BadMb>)
    requires HoldsFrame(c, frame * FrameBytes(width, height), width, height)
    requires HoldsFrame(g, frame * FrameBytes(width, height), width, height)
    ensures r.None? <==> AllMbs(c, g, frame * FrameBytes(width, height), width, height)
    ensures r.Some? ==> IsFirstBadMb(c, g, frame, frame * FrameBytes(width, height), width, height, r.value)
  {
    var base := frame * FrameBytes(width, height);
    r := FirstBadMbAt(c, g, frame, base, width, height);
  }

  method FirstBadMbAt(c: seq<Byte>, g: seq<Byte>, frame: nat, base: nat, width: nat, height: nat) returns (r: Option<BadMb>)
    requires HoldsFrame(c, base, width, height) && HoldsFrame(g, base, width, height)
    ensures r.None? <==> AllMbs(c, g, base, width, height)
    ensures r.Some? ==> IsFirstBadMb(c, g, frame, base, width, height, r.value)
  {
    for my := 0 to height / 16
      invariant MbsBefore(c, g, base, width, height, my, 0)
    {
      for mx := 0 to width / 16
        invariant MbsBefore(c, g, base, width, height, my, mx)
      {
        var same := MbExact(c, g, base, width, height, mx, my);
        if same {
          NextMb(c, g, base, width, height, my, mx);
          continue;
        }
        var b := FirstBadPlane(c, g, base, width, height, mx, my);
        var bad := Report(c, g, frame, base, width, height, mx, my, b.value.0, b.value.1, b.value.2);
        return Some(bad);
      }
    }
    return None;
  }

  method Report(c: seq<Byte>, g: seq<Byte>, frame: nat, base: nat, width: nat, height: nat, mx: nat, my: nat,
                p: Plane, xx: nat, yy: nat) returns (b: BadMb)
    requires HoldsFrame(c, base, width, height) && HoldsFrame(g, base, width, height)
    requires mx < width / 16 && my < height / 16 && xx < BlockSize(p) && yy < BlockSize(p)
    requires !SameIn(c, g, BlockOf(p, base, width, height, mx, my), xx, yy)
    ensures b.frame == frame && b.plane == p && b.mbX == mx && b.mbY == my && b.mbIndex == my * (width / 16) + mx
    ensures b.pixelX == xx && b.pixelY == yy && Describes(c, g, BlockOf(p, base, width, height, mx, my), b)
  {
    var k := BlockOf(p, base, width, height, mx, my);
    BlockFits(p, c, base, width, height, mx, my);
    BlockFits(p, g, base, width, height, mx, my);
    var x, y, i := Locate(c, g, k, xx, yy);
    b := BadMb(frame, p, mx, my, my * (width / 16) + mx, x, y, xx, yy, c[i], g[i], Diff(c[i], g[i]));
  }

  /** The differing pixel's place in its plane and in the data. */
  method Locate(c: seq<Byte>, g: seq<Byte>, k: Block, xx: nat, yy: nat) returns (x: nat, y: nat, i: nat)
    requires Fits(k.v, c) && Fits(k.v, g) && Placed(k) && xx < k.n && yy < k.n && !SameIn(c, g, k, xx, yy)
    ensures x == k.mx * k.n + xx && y == k.my * k.n + yy && i == At(k.v, x, y)
    ensures i < |c| && i < |g| && c[i] != g[i]
  {
    BlockInPlane(k, xx, yy);
    x, y := k.mx * k.n + xx, k.my * k.n + yy;
    i := At(k.v, x, y);
  }

  // ------------------------------------------------------------------ tiling

  lemma Rows(v: View, i: nat)
    requires i < Count(v)
    ensures v.width > 0 && i % v.width < v.width && i / v.width < v.height && (i / v.width) * v.width + i % v.width == i
  {
    assert v.width > 0;
    QuotientBounds(i, v.width);
    Position(i, v.width);
    if i / v.width >= v.height {
      Products(v.height, v.width, i / v.width, v.width);
    }
  }

  lemma InBlock(x: nat, w: nat, n: nat)
    requires n > 0 && w % n == 0 && x < w
    ensures x / n < w / n && (x / n) * n + x % n == x
  {
    Position(x, n);
    Position(w, n);
    if x / n >= w / n {
      Products(w / n, n, x / n, n);
    }
  }

  ghost predicate SameBlocks(c: seq<Byte>, g: seq<Byte>, v: View, n: nat, cols: nat, rows: nat) {
    forall my, mx :: 0 <= my < rows && 0 <= mx < cols ==> SameBlock(c, g, Block(v, n, mx, my))
  }

  /** Blocks tile a plane whose sides they divide. */
  lemma BlocksTile(c: seq<Byte>, g: seq<Byte>, v: View, n: nat)
    requires n > 0 && v.width % n == 0 && v.height % n == 0
    ensures SameRange(c, g, v.off, Count(v)) <==> SameBlocks(c, g, v, n, v.width / n, v.height / n)
  {
    if SameRange(c, g, v.off, Count(v)) {
      forall my, mx | 0 <= my < v.height / n && 0 <= mx < v.width / n ensures SameBlock(c, g, Block(v, n, mx, my)) {
        RangeHasBlock(c, g, Block(v, n, mx, my));
      }
    }
    if SameBlocks(c, g, v, n, v.width / n, v.height / n) {
      forall i | v.off <= i < v.off + Count(v) ensures SameByte(c, g, i) {
        PixelInBlock(c, g, v, n, i - v.off);
      }
    }
  }

  lemma RangeHasBlock(c: seq<Byte>, g: seq<Byte>, k: Block)
    requires Placed(k) && SameRange(c, g, k.v.off, Count(k.v))
    ensures SameBlock(c, g, k)
  {
    forall yy, xx | 0 <= yy < k.n && 0 <= xx < k.n ensures SameIn(c, g, k, xx, yy) {
      BlockInPlane(k, xx, yy);
    }
  }

  lemma PixelInBlock(c: seq<Byte>, g: seq<Byte>, v: View, n: nat, i: nat)
    requires n > 0 && v.width % n == 0 && v.height % n == 0 && i < Count(v)
    requires SameBlocks(c, g, v, n, v.width / n, v.height / n)
    ensures SameByte(c, g, v.off + i)
  {
    Rows(v, i);
    var x, y := i % v.width, i / v.width;
    InBlock(x, v.width, n);
    InBlock(y, v.height, n);
    SameInBlocks(c, g, Block(v, n, x / n, y / n), v.width / n, v.height / n, x % n, y % n, x, y);
  }

  lemma SameInBlocks(c: seq<Byte>, g: seq<Byte>, k: Block, cols: nat, rows: nat, xx: nat, yy: nat, x: nat, y: nat)
    requires SameBlocks(c, g, k.v, k.n, cols, rows) && k.mx < cols && k.my < rows && xx < k.n && yy < k.n
    requires x == k.mx * k.n + xx && y == k.my * k.n + yy
    ensures SameByte(c, g, At(k.v, x, y))
  {
    assert SameBlock(c, g, Block(k.v, k.n, k.mx, k.my));
    assert SameIn(c, g, k, xx, yy);
  }

  ghost predicate PlaneScoresExact(c: seq<Byte>, g: seq<Byte>, base: nat, width: nat, height: nat) {
    forall p :: ExactPlane(c, g, p, base, width, height)
  }

  /** The plane's score: as many exact pixels as pixels. */
  predicate ExactPlane(c: seq<Byte>, g: seq<Byte>, p: Plane, base: nat, width: nat, height: nat) {
    var v := ViewOf(p, base, width, height); ExactIn(c, g, v.off, Count(v)) == Count(v)
  }

  /** The macroblocks agree exactly when the three plane scores are exact. */
  lemma MbsAreScores(c: seq<Byte>, g: seq<Byte>, base: nat, width: nat, height: nat)
    requires width % 16 == 0 && height % 16 == 0
    ensures AllMbs(c, g, base, width, height) <==> PlaneScoresExact(c, g, base, width, height)
  {
    forall p
      ensures ExactPlane(c, g, p, base, width, height) <==>
              SameBlocks(c, g, ViewOf(p, base, width, height), BlockSize(p), width / 16, height / 16)
    {
      GridOf(p, base, width, height);
      BlocksTile(c, g, ViewOf(p, base, width, height), BlockSize(p));
    }
    MbsByPlane(c, g, base, width, height);
  }

  lemma MbsByPlane(c: seq<Byte>, g: seq<Byte>, base: nat, width: nat, height: nat)
    ensures AllMbs(c, g, base, width, height) <==>
            forall p :: SameBlocks(c, g, ViewOf(p, base, width, height), BlockSize(p), width / 16, height / 16)
  {
    if AllMbs(c, g, base, width, height) {
      forall p, y, x | 0 <= y < height / 16 && 0 <= x < width / 16
        ensures SameBlock(c, g, Block(ViewOf(p, base, width, height), BlockSize(p), x, y))
      {
        assert SameMb(c, g, base, width, height, x, y);
        assert SameBlock(c, g, BlockOf(p, base, width, height, x, y));
      }
    }
    if forall p :: SameBlocks(c, g, ViewOf(p, base, width, height), BlockSize(p), width / 16, height / 16) {
      forall y, x | 0 <= y < height / 16 && 0 <= x < width / 16 ensures SameMb(c, g, base, width, height, x, y) {
        forall p ensures SameBlock(c, g, BlockOf(p, base, width, height, x, y)) {
          assert SameBlocks(c, g, ViewOf(p, base, width, height), BlockSize(p), width / 16, height / 16);
          assert SameBlock(c, g, Block(ViewOf(p, base, width, height), BlockSize(p), x, y));
        }
      }
    }
  }

  lemma GridOf(p: Plane, base: nat, width: nat, height: nat)
    requires width % 16 == 0 && height % 16 == 0
    ensures var v := ViewOf(p, base, width, height);
            v.width % BlockSize(p) == 0 && v.height % BlockSize(p) == 0 &&
            v.width / BlockSize(p) == width / 16 && v.height / BlockSize(p) == height / 16
  {
  }

  /** The three plane scores are exact exactly when every byte of the frame agrees. */
  lemma ScoresAreBytes(c: seq<Byte>, g: seq<Byte>, base: nat, width: nat, height: nat)
    requires width == 2 * (width / 2) && height == 2 * (height / 2)
    ensures PlaneScoresExact(c, g, base, width, height) <==> SameRange(c, g, base, FrameBytes(width, height))
  {
    PlanesFill(base, width, height);
    var y, u, v := ViewOf(Y, base, width, height), ViewOf(U, base, width, height), ViewOf(V, base, width, height);
    if PlaneScoresExact(c, g, base, width, height) {
      assert ExactPlane(c, g, Y, base, width, height) && ExactPlane(c, g, U, base, width, height);
      assert ExactPlane(c, g, V, base, width, height);
      assert SameRange(c, g, y.off, Count(y)) && SameRange(c, g, u.off, Count(u)) && SameRange(c, g, v.off, Count(v));
    }
    if SameRange(c, g, base, FrameBytes(width, height)) {
      assert SameRange(c, g, y.off, Count(y)) && SameRange(c, g, u.off, Count(u)) && SameRange(c, g, v.off, Count(v));
      forall p ensures ExactPlane(c, g, p, base, width, height) {
        assert p == Y || p == U || p == V;
      }
    }
  }

  lemma Halved(w: nat)
    requires w % 16 == 0
    ensures w == 2 * (w / 2)
  {
    QuotientIs(w, 2, 8 * (w / 16));
  }

  /** Nothing found, all bytes equal, three exact scores: the same thing, for whole frames of macroblocks. */
  lemma NoBadMbIffFrameAgrees(c: seq<Byte>, g: seq<Byte>, base: nat, width: nat, height: nat)
    requires width % 16 == 0 && height % 16 == 0
    ensures AllMbs(c, g, base, width, height) <==> SameRange(c, g, base, FrameBytes(width, height))
    ensures AllMbs(c, g, base, width, height) <==> PlaneScoresExact(c, g, base, width, height)
  {
    Halved(width);
    Halved(height);
    MbsAreScores(c, g, base, width, height);
    ScoresAreBytes(c, g, base, width, height);
  }
}

/**
 The line routine of the pixel buffer driver: integer arithmetic only, in all octants.
 */
module LineDrawing {
  const INT_MAX := 0x7fff_ffff

  type Int32 = x: int | -INT_MAX - 1 <= x <= INT_MAX

  datatype Pixel = Pixel(x: int, y: int)

  function Abs(x: int): (r: int)
    ensures r >= 0 && (r == x || r == -x)
  {
    if x >= 0 then x else -x
  }

  function Max(a: int, b: int): int { if a > b then a else b }

  predicate Fits(v: int) { -INT_MAX - 1 <= v <= INT_MAX }

  /**
   A line from (a, b) to (a1, b1), the first coordinate being along the longer axis, can be
   plotted in `int`s: after the last pixel the loop takes one more step along that axis, and one
   along the other if that is more than half as long.
   */
  predicate CanPlot(a: int, b: int, a1: int, b1: int) {
    && a1 - a <= INT_MAX && a1 + 1 <= INT_MAX
    && (Abs(b1 - b) > (a1 - a) / 2 ==> Fits(if b < b1 then b1 + 1 else b1 - 1))
  }

  function Swapped(p: Pixel): Pixel { Pixel(p.y, p.x) }

  /** The differences fit an `int`, and so do the steps beyond the last endpoint. */
  predicate NoOverflow(p: Pixel, q: Pixel) {
    && Abs(q.x - p.x) <= INT_MAX && Abs(q.y - p.y) <= INT_MAX
    && var steep := Abs(q.y - p.y) > Abs(q.x - p.x);
       var p', q' := if steep then Swapped(p) else p, if steep then Swapped(q) else q;
       if p'.x > q'.x then CanPlot(q'.x, q'.y, p'.x, p'.y) else CanPlot(p'.x, p'.y, q'.x, q'.y)
  }

  // ---------------------------------------------------------------- what a line is

  /** Twice the distance to the ideal line, along the axis in which the line is shorter, scaled by the line's length. */
  function Offset(p: Pixel, from: Pixel, to: Pixel): int {
    2 * ((p.x - from.x) * (to.y - from.y) - (p.y - from.y) * (to.x - from.x))
  }

  function Length(from: Pixel, to: Pixel): int { Max(Abs(to.x - from.x), Abs(to.y - from.y)) }

  predicate Between(v: int, a: int, b: int) { a <= v <= b || b <= v <= a }

  /** Inside the box the endpoints span, and at most half a pixel from the ideal line. */
  predicate OnLine(p: Pixel, from: Pixel, to: Pixel) {
    && Between(p.x, from.x, to.x) && Between(p.y, from.y, to.y)
    && Abs(Offset(p, from, to)) <= Length(from, to)
  }

  predicate Neighbours(p: Pixel, q: Pixel) { p != q && Abs(q.x - p.x) <= 1 && Abs(q.y - p.y) <= 1 }

  predicate IsLine(pixels: seq<Pixel>, from: Pixel, to: Pixel) {
    && |pixels| == Length(from, to) + 1
    && pixels[0] == from && pixels[|pixels| - 1] == to
    && (forall i | 0 <= i < |pixels| :: OnLine(pixels[i], from, to))
    && (forall i | 0 < i < |pixels| :: Neighbours(pixels[i - 1], pixels[i]))
  }

  // ---------------------------------------------------------------- along the longer axis

  /** The pixel `k` steps along the longer axis and `s` along the other. */
  function At(steep: bool, a: int, b: int, ystep: int, k: int, s: int): Pixel {
    var c := Aside(b, ystep, s);
    if steep then Pixel(c, a + k) else Pixel(a + k, c)
  }

  /** `s` steps from `b`. */
  function Aside(b: int, ystep: int, s: int): int { if ystep > 0 then b + s else b - s }

  /** `ystep` leads from `b` to `b1`. */
  predicate Towards(b: int, b1: int, ystep: int) {
    if b < b1 then ystep == 1 else ystep == -1
  }

  /** What the error term keeps: after `k` steps along, `s` steps aside are within half a step of `k * dy / dx`. */
  predicate Good(dx: int, dy: int, k: int, s: int) {
    -dx < 2 * (k * dy - s * dx) <= dx || (dx == 0 && s == 0 && k == 0)
  }

  predicate Climb(dx: int, dy: int, s: seq<int>) {
    && s != [] && s[0] == 0
    && (forall k | 0 <= k < |s| :: Good(dx, dy, k, s[k]))
    && (forall k | 0 < k < |s| :: s[k - 1] <= s[k] <= s[k - 1] + 1)
  }

  lemma NextProducts(k: int, s: int, dx: int, dy: int)
    ensures (k + 1) * dy == k * dy + dy && (s + 1) * dx == s * dx + dx
  { }

  /** One turn of the loop keeps the error between -dx and 0. */
  lemma ErrorTurn(dx: int, dy: int, k: int, s: int, error: int)
    requires 0 <= dy <= dx && -dx < error <= 0 && error == k * dy - s * dx - dx / 2
    ensures var e := error + dy;
            if e > 0 then -dx < e - dx <= 0 && e - dx == (k + 1) * dy - (s + 1) * dx - dx / 2
            else -dx < e && e == (k + 1) * dy - s * dx - dx / 2
  {
    NextProducts(k, s, dx, dy);
  }

  lemma ErrorIsGood(dx: int, dy: int, k: int, s: int, error: int)
    requires -dx < error <= 0 && error == k * dy - s * dx - dx / 2
    ensures Good(dx, dy, k, s)
  { }

  /** The error term after `k` steps along and `s` steps aside. */
  predicate ErrorOk(dx: int, dy: int, k: int, s: int, error: int) {
    if dx > 0 then -dx < error <= 0 && error == k * dy - s * dx - dx / 2 else error == 0 && s == 0
  }

  predicate Climbing(dx: int, dy: int, s: seq<int>, aside: int) {
    if s == [] then aside == 0 else Climb(dx, dy, s) && s[|s| - 1] <= aside <= s[|s| - 1] + 1
  }

  /** One turn of the loop, which also cannot leave the range of the shorter axis by more than one step. */
  lemma Turn(dx: int, dy: int, s: seq<int>, aside: int, error: int)
    requires 0 <= dy <= dx && |s| <= dx && ErrorOk(dx, dy, |s|, aside, error) && Climbing(dx, dy, s, aside)
    ensures Climbing(dx, dy, s + [aside], if error + dy > 0 then aside + 1 else aside)
    ensures if error + dy > 0 then ErrorOk(dx, dy, |s| + 1, aside + 1, error + dy - dx)
            else ErrorOk(dx, dy, |s| + 1, aside, error + dy)
    ensures 0 <= aside <= dy
  {
    if dx > 0 {
      ErrorIsGood(dx, dy, |s|, aside, error);
      ErrorTurn(dx, dy, |s|, aside, error);
      AsideStays(dx, dy, |s|, aside, error);
    }
    var s' := s + [aside];
    forall k | 0 <= k < |s'| ensures Good(dx, dy, k, s'[k]) { }
  }

  lemma AsideStays(dx: int, dy: int, k: int, s: int, error: int)
    requires 0 <= dy <= dx && 0 <= k <= dx && ErrorOk(dx, dy, k, s, error) && dx > 0
    ensures 0 <= s <= dy
  {
    MoreRows(0, k, dy);
    MoreRows(k, dx, dy);
    var far := k * dy;
    assert 0 <= far <= dx * dy;
    if s > dy { TooFar(dx, dy, far, s, error); }
    if s < 0 { TooNear(dx, far, s, error); }
  }

  /** A step beyond the end of the shorter axis is taken only when it is more than half as long as the longer one. */
  lemma OneTooFar(dx: int, dy: int, k: int, s: int, error: int)
    requires 0 <= dy <= dx && 0 <= k <= dx && ErrorOk(dx, dy, k, s, error)
    ensures s == dy && error + dy > 0 ==> dy > dx / 2
  {
    MoreRows(k, dx, dy);
    assert dx * dy == dy * dx;
  }

  lemma TooFar(dx: int, dy: int, far: int, s: int, error: int)
    requires dx > 0 && s > dy && far <= dx * dy && error == far - s * dx - dx / 2
    ensures error <= -dx
  {
    MoreRows(dy + 1, s, dx);
    NextProducts(0, dy, dx, dy);
  }

  lemma TooNear(dx: int, far: int, s: int, error: int)
    requires dx > 0 && s < 0 && far >= 0 && error == far - s * dx - dx / 2
    ensures error > 0
  {
    MoreRows(s, -1, dx);
  }

  lemma MoreRows(m: int, n: int, width: int)
    requires m <= n && width >= 0
    ensures m * width <= n * width
  { }

  /** At the end of the longer axis the other one has been covered, too. */
  lemma EndsThere(dx: int, dy: int, s: int)
    requires dx > 0 && Good(dx, dy, dx, s)
    ensures s == dy
  {
    assert dx * dy - s * dx == dx * (dy - s) == -(dx * (s - dy));
    if dy - s >= 1 { Product(dx, dy - s, 1); }
    if s - dy >= 1 { Product(dx, s - dy, 1); }
  }

  lemma Product(a: int, b: int, c: int)
    requires a >= 0 && b >= c
    ensures a * b >= a * c
  { }

  lemma {:induction false} ClimbIsUp(dx: int, dy: int, s: seq<int>, j: nat, k: nat)
    requires Climb(dx, dy, s) && j <= k < |s|
    ensures s[j] <= s[k]
    decreases k - j
  {
    if j < k { ClimbIsUp(dx, dy, s, j, k - 1); }
  }

  // ---------------------------------------------------------------- back to both axes

  lemma OffsetAlong(steep: bool, a: int, b: int, a1: int, b1: int, ystep: int, k: int, s: int, d: int, e: int)
    requires d == b1 - b && e == Aside(b, ystep, s) - b
    ensures var p := At(steep, a, b, ystep, k, s);
            var from, to := At(steep, a, b, ystep, 0, 0), At(steep, a1, b1, ystep, 0, 0);
            Offset(p, from, to) == if steep then 2 * (e * (a1 - a) - k * d) else 2 * (k * d - e * (a1 - a))
  { }

  /** The offset of a pixel, in steps along the two axes. */
  lemma OffsetIs(steep: bool, a: int, b: int, a1: int, b1: int, ystep: int, k: int, s: int)
    requires Towards(b, b1, ystep)
    ensures var p := At(steep, a, b, ystep, k, s);
            var from, to := At(steep, a, b, ystep, 0, 0), At(steep, a1, b1, ystep, 0, 0);
            Abs(Offset(p, from, to)) == Abs(2 * (k * Abs(b1 - b) - s * (a1 - a)))
  {
    var dx, dy := a1 - a, Abs(b1 - b);
    if ystep > 0 {
      OffsetAlong(steep, a, b, a1, b1, ystep, k, s, dy, s);
    } else {
      OffsetAlong(steep, a, b, a1, b1, ystep, k, s, -dy, -s);
      Negated(k, dy);
      Negated(dx, s);
    }
  }

  lemma Negated(x: int, y: int)
    ensures x * -y == -(x * y) && -y * x == -(x * y)
  { }

  lemma PixelInBox(steep: bool, a: int, b: int, a1: int, b1: int, ystep: int, k: int, s: int)
    requires Towards(b, b1, ystep)
    requires 0 <= k <= a1 - a && 0 <= s <= Abs(b1 - b)
    ensures var p := At(steep, a, b, ystep, k, s);
            var from, to := At(steep, a, b, ystep, 0, 0), At(steep, a1, b1, ystep, 0, 0);
            Between(p.x, from.x, to.x) && Between(p.y, from.y, to.y)
  { }

  lemma GoodIsNear(dx: int, dy: int, k: int, s: int)
    requires Good(dx, dy, k, s) && 0 <= dx
    ensures Abs(2 * (k * dy - s * dx)) <= dx
  { }

  lemma PixelOnLine(steep: bool, a: int, b: int, a1: int, b1: int, ystep: int, k: int, s: int)
    requires Towards(b, b1, ystep) && Abs(b1 - b) <= a1 - a
    requires 0 <= k <= a1 - a && 0 <= s <= Abs(b1 - b) && Good(a1 - a, Abs(b1 - b), k, s)
    ensures OnLine(At(steep, a, b, ystep, k, s), At(steep, a, b, ystep, 0, 0), At(steep, a1, b1, ystep, 0, 0))
  {
    var p, from, to := At(steep, a, b, ystep, k, s), At(steep, a, b, ystep, 0, 0), At(steep, a1, b1, ystep, 0, 0);
    PixelInBox(steep, a, b, a1, b1, ystep, k, s);
    OffsetIs(steep, a, b, a1, b1, ystep, k, s);
    GoodIsNear(a1 - a, Abs(b1 - b), k, s);
    assert Length(from, to) == a1 - a;
  }

  lemma ClimbStays(dx: int, dy: int, s: seq<int>, k: nat)
    requires 0 <= dy <= dx && Climb(dx, dy, s) && |s| == dx + 1 && k <= dx
    ensures s[dx] == dy && 0 <= s[k] <= dy
  {
    if dx > 0 { EndsThere(dx, dy, s[dx]); }
    ClimbIsUp(dx, dy, s, 0, k);
    ClimbIsUp(dx, dy, s, k, dx);
  }

  lemma ClimbIsLine(steep: bool, a: int, b: int, a1: int, b1: int, ystep: int, s: seq<int>, pixels: seq<Pixel>)
    requires Towards(b, b1, ystep) && Abs(b1 - b) <= a1 - a
    requires Climb(a1 - a, Abs(b1 - b), s) && |s| == |pixels| == a1 - a + 1
    requires forall k | 0 <= k < |s| :: pixels[k] == At(steep, a, b, ystep, k, s[k])
    ensures IsLine(pixels, At(steep, a, b, ystep, 0, 0), At(steep, a1, b1, ystep, 0, 0))
  {
    var from, to := At(steep, a, b, ystep, 0, 0), At(steep, a1, b1, ystep, 0, 0);
    LineEnds(steep, a, b, a1, b1, ystep, s[a1 - a], pixels[a1 - a]) by {
      ClimbStays(a1 - a, Abs(b1 - b), s, 0);
    }
    forall k | 0 <= k < |pixels| ensures OnLine(pixels[k], from, to) {
      ClimbStays(a1 - a, Abs(b1 - b), s, k);
      PixelOnLine(steep, a, b, a1, b1, ystep, k, s[k]);
    }
    forall k | 0 < k < |pixels| ensures Neighbours(pixels[k - 1], pixels[k]) {
      StepIsNeighbour(steep, a, b, ystep, k, s[k - 1], s[k]);
    }
  }

  lemma LineEnds(steep: bool, a: int, b: int, a1: int, b1: int, ystep: int, s: int, last: Pixel)
    requires Towards(b, b1, ystep) && Abs(b1 - b) <= a1 - a
    requires s == Abs(b1 - b) && last == At(steep, a, b, ystep, a1 - a, s)
    ensures last == At(steep, a1, b1, ystep, 0, 0)
    ensures Length(At(steep, a, b, ystep, 0, 0), At(steep, a1, b1, ystep, 0, 0)) == a1 - a
  { }

  lemma StepIsNeighbour(steep: bool, a: int, b: int, ystep: int, k: int, s: int, s': int)
    requires (ystep == 1 || ystep == -1) && s <= s' <= s + 1
    ensures Neighbours(At(steep, a, b, ystep, k - 1, s), At(steep, a, b, ystep, k, s'))
  { }

  // ---------------------------------------------------------------- the code

  /** alt_up_pixel_buffer_dma_draw_line: the pixels it plots, in order. */
  method DrawLine(x0: Int32, y0: Int32, x1: Int32, y1: Int32) returns (pixels: seq<Pixel>)
    requires NoOverflow(Pixel(x0, y0), Pixel(x1, y1))
    ensures IsLine(pixels, Pixel(x0, y0), Pixel(x1, y1)) || IsLine(pixels, Pixel(x1, y1), Pixel(x0, y0))
  {
    var x_0, y_0, x_1, y_1 := x0, y0, x1, y1;
    var dx: Int32, dy: Int32 := Abs(x_1 - x_0), Abs(y_1 - y_0);
    var steep := dy > dx;
    var error: Int32;
    if steep {
      error := x_0;
      x_0 := y_0;
      y_0 := error;
      error := x_1;
      x_1 := y_1;
      y_1 := error;
    }
    if x_0 > x_1 {
      error := x_0;
      x_0 := x_1;
      x_1 := error;
      error := y_0;
      y_0 := y_1;
      y_1 := error;
    }
    pixels := PlotAlong(steep, x_0, y_0, x_1, y_1);
  }

  /** The loop, along the axis in which the line is longer; steep lines have their coordinates swapped. */
  method PlotAlong(steep: bool, x_0: Int32, y_0: Int32, x_1: Int32, y_1: Int32) returns (pixels: seq<Pixel>)
    requires Abs(y_1 - y_0) <= x_1 - x_0 && CanPlot(x_0, y_0, x_1, y_1)
    ensures IsLine(pixels, if steep then Pixel(y_0, x_0) else Pixel(x_0, y_0),
                   if steep then Pixel(y_1, x_1) else Pixel(x_1, y_1))
  {
    hide IsLine;
    var deltax: Int32 := x_1 - x_0;
    var deltay: Int32 := Abs(y_1 - y_0);
    var error: Int32 := -(deltax / 2);
    var y: Int32 := y_0;
    var ystep: Int32 := if y_0 < y_1 then 1 else -1;
    var x: Int32 := x_0;
    pixels := [];
    ghost var s: seq<int>, aside := [], 0;
    while x <= x_1
      invariant x_0 <= x <= x_1 + 1 && y == Aside(y_0, ystep, aside)
      invariant |pixels| == |s| == x - x_0
      invariant forall k | 0 <= k < |s| :: pixels[k] == At(steep, x_0, y_0, ystep, k, s[k])
      invariant ErrorOk(deltax, deltay, x - x_0, aside, error)
      invariant Climbing(deltax, deltay, s, aside)
      decreases x_1 + 1 - x
    {
      pixels := pixels + [if steep then Pixel(y, x) else Pixel(x, y)];
      Turn(deltax, deltay, s, aside, error);
      s := s + [aside];
      OneTooFar(deltax, deltay, x - x_0, aside, error);
      error := error + deltay;
      if error > 0 {
        y := y + ystep;
        error := error - deltax;
        aside := aside + 1;
      }
      x := x + 1;
    }
    ClimbIsLine(steep, x_0, y_0, x_1, y_1, ystep, s, pixels);
  }
}

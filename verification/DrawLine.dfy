/** Line drawing in VGA mode 13h (vga_draw_line in vga_graphics.c): the integer error-term loop, proved
    against the geometric definition of the line it is meant to approximate.
 */
module DrawLine {

  const VGA_WIDTH := 320
  const VGA_HEIGHT := 200
  const INT32_MAX := 0x7fff_ffff

  datatype Point = Point(x: int, y: int)

  function Abs(n: int): int {
    if n < 0 then -n else n
  }

  function Max(a: int, b: int): int {
    if a < b then b else a
  }

  function Sign(from: int, to: int): int {
    if from < to then 1 else -1
  }

  predicate OnScreen(p: Point) {
    0 <= p.x < VGA_WIDTH && 0 <= p.y < VGA_HEIGHT
  }

  function Offset(p: Point): int {
    p.y * 320 + p.x
  }

  /** Twice the area of the triangle of `p` and the endpoints: 0 on the ideal line; divided by the
      length of the major axis, the distance from the ideal line along the minor axis. */
  function Cross(a: Point, b: Point, p: Point): int {
    (p.x - a.x) * (b.y - a.y) - (p.y - a.y) * (b.x - a.x)
  }

  /** `Cross` with the sign that makes a step in x increase it and a step in y decrease it. */
  function Signed(a: Point, b: Point, p: Point): int {
    if Sign(a.x, b.x) == Sign(a.y, b.y) then Cross(a, b, p) else -Cross(a, b, p)
  }

  /** The length of the line in steps along its major axis. */
  function Steps(a: Point, b: Point): nat {
    Max(Abs(b.x - a.x), Abs(b.y - a.y))
  }

  /** `p` is at most half a pixel away from the ideal line. */
  predicate Near(a: Point, b: Point, p: Point) {
    2 * Abs(Cross(a, b, p)) <= Steps(a, b)
  }

  predicate XMajor(a: Point, b: Point) {
    Abs(b.x - a.x) >= Abs(b.y - a.y)
  }

  /** From `p` to `q` is one step towards `b` on the major axis and at most one on the minor axis. */
  predicate OneStep(a: Point, b: Point, p: Point, q: Point) {
    var dx, dy := q.x - p.x, q.y - p.y;
    && (dx == Sign(a.x, b.x) || (dx == 0 && !XMajor(a, b)))
    && (dy == Sign(a.y, b.y) || (dy == 0 && XMajor(a, b)))
  }

  ghost predicate IsLine(a: Point, b: Point, pts: seq<Point>) {
    && |pts| == Steps(a, b) + 1 && pts[0] == a && pts[Steps(a, b)] == b
    && (forall i :: 0 <= i < |pts| ==> Near(a, b, pts[i]))
    && (forall i :: 0 <= i < |pts| - 1 ==> OneStep(a, b, pts[i], pts[i + 1]))
  }

  /** Exactly the on-screen points of `pts` have changed, to `color`. */
  ghost predicate Painted(before: seq<int>, after: seq<int>, pts: seq<Point>, color: int) {
    && |before| == |after| == VGA_WIDTH * VGA_HEIGHT
    && forall p :: OnScreen(p) ==> after[Offset(p)] == if p in pts then color else before[Offset(p)]
  }

  /** vga_put_pixel: points outside the screen are ignored. */
  method PutPixel(fb: array<int>, p: Point, color: int)
    requires fb.Length == VGA_WIDTH * VGA_HEIGHT
    modifies fb
    ensures forall q :: OnScreen(q) ==> fb[Offset(q)] == if q == p then color else old(fb[Offset(q)])
    ensures OnScreen(p) ==> fb[p.y * VGA_WIDTH + p.x] == color
  {
    if OnScreen(p) {
      fb[Offset(p)] := color;
    }
  }

  /** Paint one more point of the line. */
  method Plot(fb: array<int>, p: Point, color: int, ghost first: seq<int>, ghost pts: seq<Point>)
    requires fb.Length == VGA_WIDTH * VGA_HEIGHT && Painted(first, fb[..], pts, color)
    modifies fb
    ensures Painted(first, fb[..], pts + [p], color)
  {
    PutPixel(fb, p, color);
  }

  lemma CrossStepX(a: Point, b: Point, p: Point, s: int)
    ensures Cross(a, b, Point(p.x + s, p.y)) == Cross(a, b, p) + s * (b.y - a.y)
  {
    var u, v := p.x - a.x, b.y - a.y;
    assert (u + s) * v == u * v + s * v;
  }

  lemma CrossStepY(a: Point, b: Point, p: Point, s: int)
    ensures Cross(a, b, Point(p.x, p.y + s)) == Cross(a, b, p) - s * (b.x - a.x)
  {
    var u, v := p.y - a.y, b.x - a.x;
    assert (u + s) * v == u * v + s * v;
  }

  /** A point near the line that has reached the end of the major axis is the endpoint. */
  lemma ReachesEnd(a: Point, b: Point, p: Point)
    requires Near(a, b, p) && a != b
    requires if XMajor(a, b) then p.x == b.x else p.y == b.y
    ensures p == b
  {
    if XMajor(a, b) {
      var d := b.x - a.x;
      Distribute(d, b.y - a.y, p.y - a.y);
      AtMostHalf(d, b.y - p.y);
    } else {
      var d := b.y - a.y;
      Distribute(d, p.x - a.x, b.x - a.x);
      AtMostHalf(d, p.x - b.x);
    }
  }

  lemma Distribute(d: int, u: int, v: int)
    ensures d * u - v * d == u * d - d * v == d * (u - v)
  {
  }

  lemma AtMostHalf(d: int, e: int)
    requires d != 0 && 2 * Abs(d * e) <= Abs(d)
    ensures e == 0
  {
    AbsProduct(d, e);
    assert Abs(e) >= 1 ==> Abs(d) * Abs(e) >= Abs(d) * 1;
  }

  lemma AbsProduct(d: int, e: int)
    ensures Abs(d * e) == Abs(d) * Abs(e)
  {
    assert (-d) * e == -(d * e) && d * (-e) == -(d * e) && (-d) * (-e) == d * e;
    assert d >= 0 && e >= 0 ==> d * e >= 0;
    assert d >= 0 && e < 0 ==> d * (-e) >= 0;
    assert d < 0 && e >= 0 ==> (-d) * e >= 0;
    assert d < 0 && e < 0 ==> (-d) * (-e) >= 0;
  }

  /** One round of the error-term test, where `c` is the signed distance of the current point. */
  lemma StepFacts(dx: int, dy: int, c: int, err: int)
    requires dx >= 0 && dy >= 0 && Max(dx, dy) > 0
    requires 2 * Abs(c) <= Max(dx, dy) && err == dx - dy - c
    ensures dx >= dy ==> 2 * err >= -dy
    ensures dx < dy ==> 2 * err <= dx
    ensures var c1 := c + (if 2 * err >= -dy then dy else 0) - (if 2 * err <= dx then dx else 0);
            2 * Abs(c1) <= Max(dx, dy)
    ensures 2 * Abs(err) <= 3 * Max(dx, dy)
  {
  }

  /** The loop's state: the points so far and the error term, tied to the last point. */
  ghost predicate Progress(a: Point, b: Point, pts: seq<Point>, err: int) {
    && 1 <= |pts| <= Steps(a, b) + 1 && pts[0] == a
    && (forall i :: 0 <= i < |pts| ==> Near(a, b, pts[i]))
    && (forall i :: 0 <= i < |pts| - 1 ==> OneStep(a, b, pts[i], pts[i + 1]))
    && var p := pts[|pts| - 1];
       && (XMajor(a, b) ==> p.x == a.x + Sign(a.x, b.x) * (|pts| - 1))
       && (!XMajor(a, b) ==> p.y == a.y + Sign(a.y, b.y) * (|pts| - 1))
       && err == Abs(b.x - a.x) - Abs(b.y - a.y) - Signed(a, b, p)
  }

  /** The point after `p`: the two tests of the loop. */
  function NextPoint(a: Point, b: Point, p: Point, err: int): Point {
    Point(if 2 * err >= -Abs(b.y - a.y) then p.x + Sign(a.x, b.x) else p.x,
          if 2 * err <= Abs(b.x - a.x) then p.y + Sign(a.y, b.y) else p.y)
  }

  function NextErr(a: Point, b: Point, err: int): int {
    err - (if 2 * err >= -Abs(b.y - a.y) then Abs(b.y - a.y) else 0)
        + (if 2 * err <= Abs(b.x - a.x) then Abs(b.x - a.x) else 0)
  }

  lemma NextOk(a: Point, b: Point, p: Point, err: int)
    requires a != b && Near(a, b, p)
    requires err == Abs(b.x - a.x) - Abs(b.y - a.y) - Signed(a, b, p)
    ensures var q := NextPoint(a, b, p, err);
            && Near(a, b, q) && OneStep(a, b, p, q)
            && NextErr(a, b, err) == Abs(b.x - a.x) - Abs(b.y - a.y) - Signed(a, b, q)
  {
    StepFacts(Abs(b.x - a.x), Abs(b.y - a.y), Signed(a, b, p), err);
    SignedMoves(a, b, p, 2 * err >= -Abs(b.y - a.y), 2 * err <= Abs(b.x - a.x));
  }

  lemma ProgressNext(a: Point, b: Point, pts: seq<Point>, err: int)
    requires Progress(a, b, pts, err) && pts[|pts| - 1] != b
    ensures |pts| <= Steps(a, b)
    ensures Progress(a, b, pts + [NextPoint(a, b, pts[|pts| - 1], err)], NextErr(a, b, err))
  {
    var p := pts[|pts| - 1];
    NotYet(a, b, p, |pts|);
    NextOk(a, b, p, err);
    var r := pts + [NextPoint(a, b, p, err)];
    forall i | 0 <= i < |r| - 1
      ensures OneStep(a, b, r[i], r[i + 1])
    {
      assert i < |pts| - 1 ==> r[i] == pts[i] && r[i + 1] == pts[i + 1];
    }
    MajorStep(|pts| - 1, Sign(a.x, b.x), Sign(a.y, b.y));
  }

  lemma MajorStep(n: int, sx: int, sy: int)
    ensures sx * (n + 1) == sx * n + sx && sy * (n + 1) == sy * n + sy
  {
  }

  lemma ProgressStart(a: Point, b: Point)
    ensures Progress(a, b, [a], Abs(b.x - a.x) - Abs(b.y - a.y))
  {
    assert Cross(a, b, a) == 0;
  }

  lemma ProgressEnd(a: Point, b: Point, pts: seq<Point>, err: int)
    requires Progress(a, b, pts, err) && pts[|pts| - 1] == b
    ensures IsLine(a, b, pts)
  {
  }

  // ----- overflow

  predicate Fits(n: int) {
    -INT32_MAX - 1 <= n <= INT32_MAX
  }

  /** The error term after `n` rounds. */
  function ErrAt(a: Point, b: Point, n: nat): int {
    if n == 0 then Abs(b.x - a.x) - Abs(b.y - a.y) else NextErr(a, b, ErrAt(a, b, n - 1))
  }

  /** The values of one round: the doubled error and the error after each of the two additions. */
  predicate RoundFits(a: Point, b: Point, err: int) {
    && Fits(2 * err)
    && Fits(if 2 * err >= -Abs(b.y - a.y) then err - Abs(b.y - a.y) else err)
    && Fits(NextErr(a, b, err))
  }

  /** No intermediate value leaves the 32-bit range. */
  ghost predicate NoOverflow(a: Point, b: Point) {
    && Fits(Abs(b.x - a.x)) && Fits(Abs(b.y - a.y)) && Fits(ErrAt(a, b, 0))
    && forall n :: 0 <= n < Steps(a, b) ==> RoundFits(a, b, ErrAt(a, b, n))
  }

  function Min(a: int, b: int): int {
    if a < b then a else b
  }

  /** The coordinates stay between those of the endpoints, so they fit as well. */
  lemma {:induction false} StaysBetween(a: Point, b: Point, pts: seq<Point>, i: nat)
    requires IsLine(a, b, pts) && i < |pts|
    ensures Min(a.x, b.x) <= pts[i].x <= Max(a.x, b.x) && Min(a.y, b.y) <= pts[i].y <= Max(a.y, b.y)
  {
    MovesOn(a, b, pts, 0, i);
    MovesOn(a, b, pts, i, |pts| - 1);
  }

  lemma {:induction false} MovesOn(a: Point, b: Point, pts: seq<Point>, i: nat, j: nat)
    requires IsLine(a, b, pts) && i <= j < |pts|
    ensures if a.x < b.x then pts[i].x <= pts[j].x else pts[i].x >= pts[j].x
    ensures if a.y < b.y then pts[i].y <= pts[j].y else pts[i].y >= pts[j].y
    decreases j
  {
    if i < j {
      MovesOn(a, b, pts, i, j - 1);
      assert OneStep(a, b, pts[j - 1], pts[j - 1 + 1]);
    }
  }

  /** The two tests of a round, every value of which fits 32 bits. */
  method Advance(ghost a: Point, ghost b: Point, x0: int, y0: int, err0: int, dx: int, dy: int, sx: int, sy: int)
    returns (x: int, y: int, err: int)
    requires RoundFits(a, b, err0) && dx == Abs(b.x - a.x) && dy == -Abs(b.y - a.y)
    requires sx == Sign(a.x, b.x) && sy == Sign(a.y, b.y)
    ensures Point(x, y) == NextPoint(a, b, Point(x0, y0), err0) && err == NextErr(a, b, err0)
  {
    x, y, err := x0, y0, err0;
    var e2 := 2 * err;
    assert Fits(e2);
    if e2 >= dy {
      err := err + dy;
      x := x + sx;
    }
    assert Fits(err);
    if e2 <= dx {
      err := err + dx;
      y := y + sy;
    }
    assert Fits(err);
  }

  /** The line-drawing loop, in the absence of overflow. */
  method DrawLine(fb: array<int>, a: Point, b: Point, color: int) returns (ghost pts: seq<Point>)
    requires fb.Length == VGA_WIDTH * VGA_HEIGHT
    requires NoOverflow(a, b)
    modifies fb
    ensures IsLine(a, b, pts)
    ensures Painted(old(fb[..]), fb[..], pts, color)
  {
    var x, y := a.x, a.y;
    var dx, sx := Abs(b.x - x), Sign(x, b.x);
    var dy, sy := -Abs(b.y - y), Sign(y, b.y);
    var err := dx + dy;
    assert Fits(dx) && Fits(dy) && Fits(err);
    pts := [];
    ProgressStart(a, b);
    while true
      invariant Progress(a, b, pts + [Point(x, y)], err) && err == ErrAt(a, b, |pts|)
      invariant Painted(old(fb[..]), fb[..], pts, color)
      decreases Steps(a, b) + 1 - |pts|
    {
      Plot(fb, Point(x, y), color, old(fb[..]), pts);
      pts := pts + [Point(x, y)];
      if x == b.x && y == b.y {
        break;
      }
      ProgressNext(a, b, pts, err);
      assert RoundFits(a, b, ErrAt(a, b, |pts| - 1));
      x, y, err := Advance(a, b, x, y, err, dx, dy, sx, sy);
    }
    ProgressEnd(a, b, pts, err);
  }

  /** A point that is not the endpoint has not used up the steps. */
  lemma NotYet(a: Point, b: Point, p: Point, count: nat)
    requires Near(a, b, p) && p != b && 1 <= count <= Steps(a, b) + 1
    requires a == b ==> p == a
    requires XMajor(a, b) ==> p.x == a.x + Sign(a.x, b.x) * (count - 1)
    requires !XMajor(a, b) ==> p.y == a.y + Sign(a.y, b.y) * (count - 1)
    ensures count <= Steps(a, b) && a != b
  {
    if count == Steps(a, b) + 1 && a != b {
      ReachesEnd(a, b, p);
    }
  }

  lemma SignedMoves(a: Point, b: Point, p: Point, mx: bool, my: bool)
    ensures var q := Point(if mx then p.x + Sign(a.x, b.x) else p.x, if my then p.y + Sign(a.y, b.y) else p.y);
            Signed(a, b, q) ==
              Signed(a, b, p) + (if mx then Abs(b.y - a.y) else 0) - (if my then Abs(b.x - a.x) else 0)
  {
    CrossStepX(a, b, p, Sign(a.x, b.x));
    var p1 := Point(if mx then p.x + Sign(a.x, b.x) else p.x, p.y);
    CrossStepY(a, b, p1, Sign(a.y, b.y));
  }

  /** The points of a line are determined step by step: the major coordinate of point `i` is `i` steps
      from the start. */
  lemma {:induction false} MajorCoordinate(a: Point, b: Point, pts: seq<Point>, i: nat)
    requires IsLine(a, b, pts) && i < |pts|
    ensures XMajor(a, b) ==> pts[i].x == a.x + Sign(a.x, b.x) * i
    ensures !XMajor(a, b) ==> pts[i].y == a.y + Sign(a.y, b.y) * i
  {
    if i > 0 {
      MajorCoordinate(a, b, pts, i - 1);
      assert OneStep(a, b, pts[i - 1], pts[i - 1 + 1]);
    }
  }
}

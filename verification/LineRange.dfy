/** When vga_draw_line overflows: an exact condition on the endpoints.  Up to its sign, the error term runs
    through a walk modulo the length of the major axis, and that walk visits every multiple of the greatest
    common divisor of the two lengths.
 */
module LineRange {
  import opened DrawLine

  // ----- greatest common divisors

  function Gcd(a: nat, b: nat): (g: nat)
    requires a > 0
    ensures g > 0
    decreases b
  {
    if b == 0 then a else Gcd(b, a % b)
  }

  lemma {:induction false} Bezout(a: nat, b: nat) returns (u: int, v: int, p: nat, s: nat)
    requires a > 0
    ensures u * a + v * b == Gcd(a, b) && a == Gcd(a, b) * p && b == Gcd(a, b) * s
    decreases b, 0
  {
    if b == 0 {
      u, v, p, s := 1, 0, 1, 0;
    } else {
      u, v, p, s := BezoutNext(a, b, a / b, a % b);
    }
  }

  lemma {:induction false} BezoutNext(a: nat, b: nat, q: nat, r: nat) returns (u: int, v: int, p: nat, s: nat)
    requires b > 0 && a == q * b + r && r < b
    ensures var g := Gcd(b, r); u * a + v * b == g && a == g * p && b == g * s
    decreases r, 1
  {
    var u', v', p', s' := Bezout(b, r);
    BezoutStep(a, b, q, r, u', v', Gcd(b, r));
    DivisorStep(a, b, q, r, Gcd(b, r), p', s');
    u, v, p, s := v', u' - q * v', q * p' + s', p';
  }

  lemma DivisorStep(a: int, b: int, q: int, r: int, g: int, p: int, s: int)
    requires a == q * b + r && b == g * p && r == g * s
    ensures a == g * (q * p + s)
  {
    assert q * (g * p) == g * (q * p);
    assert g * (q * p + s) == g * (q * p) + g * s;
  }

  lemma BezoutStep(a: int, b: int, q: int, r: int, u: int, v: int, g: int)
    requires a == q * b + r && u * b + v * r == g
    ensures v * a + (u - q * v) * b == g
  {
    assert v * a == v * (q * b + r) == v * (q * b) + v * r;
    assert (u - q * v) * b == u * b - (q * v) * b;
    assert v * (q * b) == (q * v) * b;
  }

  // ----- the walk

  /** Steps of length `m` modulo `M`, kept between -M/2 and M/2. */
  function Walk(M: int, m: int, n: nat): int {
    if n == 0 then 0
    else
      var w := Walk(M, m, n - 1) + m;
      if 2 * w < M then w else w - M
  }

  lemma {:induction false} WalkRange(M: int, m: int, n: nat)
    requires 0 <= m <= M && M > 0
    ensures -M <= 2 * Walk(M, m, n) < M
  {
    if n > 0 {
      WalkRange(M, m, n - 1);
    }
  }

  lemma {:induction false} WalkResidue(M: int, m: int, n: nat) returns (q: int)
    ensures Walk(M, m, n) == n * m - q * M
  {
    if n == 0 {
      q := 0;
    } else {
      q := WalkResidue(M, m, n - 1);
      assert (n - 1) * m + m == n * m;
      if 2 * (Walk(M, m, n - 1) + m) >= M {
        q := q + 1;
        assert q * M == (q - 1) * M + M;
      }
    }
  }

  lemma SmallMultiple(k: int, d: int)
    requires -d < k * d < d
    ensures k == 0
  {
    assert k >= 1 ==> k * d >= d;
    assert k <= -1 ==> k * d <= -d;
  }

  lemma Congruent(M: int, m: int, n: int, x: int, j: int, u: int, v: int, g: int)
    requires u * M + v * m == g && x == v * j && M > 0 && n == x - (x / M) * M
    ensures n * m == g * j - (j * u + (x / M) * m) * M
  {
    var d := x / M;
    assert n * m == x * m - (d * M) * m;
    assert x * m == (v * j) * m == j * (v * m);
    assert j * (v * m) == j * (g - u * M) == j * g - j * (u * M);
    assert j * (u * M) == (j * u) * M && (d * M) * m == (d * m) * M;
    assert (j * u + d * m) * M == (j * u) * M + (d * m) * M;
  }

  lemma ResidueUnique(M: int, w: int, r: int, k: int)
    requires w == r - k * M && -M <= 2 * w < M && -M <= 2 * r < M
    ensures w == r
  {
    SmallMultiple(k, M);
  }

  /** The walk visits every multiple of the greatest common divisor in its range. */
  lemma Visits(M: nat, m: nat, j: int, r: int) returns (n: nat)
    requires m <= M && M > 0 && r == Gcd(M, m) * j && 0 <= 2 * r + M < 2 * M
    ensures n < M && Walk(M, m, n) == r
  {
    var u, v, p, s := Bezout(M, m);
    var x := v * j;
    n := x % M;
    Congruent(M, m, n, x, j, u, v, Gcd(M, m));
    WalkRange(M, m, n);
    var q := WalkResidue(M, m, n);
    var k0 := j * u + (x / M) * m;
    assert (k0 + q) * M == k0 * M + q * M;
    ResidueUnique(M, Walk(M, m, n), r, k0 + q);
  }

  // ----- the extremes of the walk

  /** The least and the greatest multiple of the greatest common divisor in the range. */
  function Least(M: nat, m: nat): int
    requires M > 0
  {
    var g := Gcd(M, m);
    -(M / g / 2) * g
  }

  function Greatest(M: nat, m: nat): int
    requires M > 0
  {
    var g := Gcd(M, m);
    (M / g - 1) / 2 * g
  }

  lemma Quotient(M: int, g: int, p: int)
    requires g > 0 && M == g * p
    ensures M / g == p
  {
    var q, r := M / g, M % g;
    assert M == g * q + r && 0 <= r < g;
    assert (p - q) * g == g * p - g * q == r;
    SmallMultiple(p - q, g);
  }

  lemma Positive(g: int, p: int)
    requires g > 0 && g * p > 0
    ensures p > 0
  {
  }

  /** The lengths and the extremes in units of the greatest common divisor. */
  lemma Units(M: nat, m: nat) returns (g: int, p: int, s: int)
    requires m <= M && M > 0
    ensures g == Gcd(M, m) && p > 0 && M == g * p && m == g * s
    ensures Least(M, m) == -(p / 2) * g && Greatest(M, m) == (p - 1) / 2 * g
  {
    var u, v, p', s' := Bezout(M, m);
    g, p, s := Gcd(M, m), p', s';
    Quotient(M, g, p);
    Positive(g, p);
  }

  /** Multiples of `g` between -M/2 and M/2, for `M` a multiple of `g`. */
  lemma MultiplesBetween(g: int, p: int, j: int)
    requires g > 0 && p > 0 && -(g * p) <= 2 * (g * j) < g * p
    ensures -(p / 2) <= j <= (p - 1) / 2
  {
    assert 2 * (g * j) == g * (2 * j);
    assert g * (2 * j + p) == g * (2 * j) + g * p;
    assert 2 * j + p < 0 ==> g * (2 * j + p) < 0;
    assert g * (2 * j - p) == g * (2 * j) - g * p;
    assert 2 * j - p >= 0 ==> g * (2 * j - p) >= 0;
  }

  lemma ExtremesInRange(g: int, p: int, h: int, r: int)
    requires g > 0 && p > 0 && -p <= 2 * h < p && r == h * g
    ensures r == g * h && 0 <= 2 * r + g * p < 2 * (g * p)
  {
    assert g * (2 * h + p) == 2 * r + g * p && g * (p - 2 * h) == g * p - 2 * r;
    assert g * (2 * h + p) >= 0 && g * (p - 2 * h) > 0;
  }

  lemma Scale(g: int, lo: int, j: int, hi: int)
    requires g > 0 && lo <= j <= hi
    ensures lo * g <= g * j <= hi * g
  {
    assert g * (j - lo) >= 0 && g * (hi - j) >= 0;
    assert g * (j - lo) == g * j - lo * g && g * (hi - j) == hi * g - g * j;
  }

  lemma MultipleOf(g: int, p: int, s: int, n: int, q: int)
    ensures n * (g * s) - q * (g * p) == g * (n * s - q * p)
  {
    assert n * (g * s) == g * (n * s) && q * (g * p) == g * (q * p);
  }

  lemma WalkBetween(M: nat, m: nat, n: nat)
    requires m <= M && M > 0
    ensures Least(M, m) <= Walk(M, m, n) <= Greatest(M, m)
  {
    var g, p, s := Units(M, m);
    var q := WalkResidue(M, m, n);
    WalkRange(M, m, n);
    MultipleOf(g, p, s, n, q);
    MultiplesBetween(g, p, n * s - q * p);
    Scale(g, -(p / 2), n * s - q * p, (p - 1) / 2);
  }

  lemma ReachesLeast(M: nat, m: nat) returns (n: nat)
    requires m <= M && M > 0
    ensures n < M && Walk(M, m, n) == Least(M, m)
  {
    var g, p, s := Units(M, m);
    var j: int := -(p / 2);
    ExtremesInRange(g, p, j, Least(M, m));
    n := Visits(M, m, j, Least(M, m));
  }

  lemma ReachesGreatest(M: nat, m: nat) returns (n: nat)
    requires m <= M && M > 0
    ensures n < M && Walk(M, m, n) == Greatest(M, m)
  {
    var g, p, s := Units(M, m);
    var j: int := (p - 1) / 2;
    ExtremesInRange(g, p, j, Greatest(M, m));
    n := Visits(M, m, j, Greatest(M, m));
  }

  // ----- the error term

  /** The error term is the distance from the walk to its start, with a sign for the major axis. */
  function Distance(M: int, m: int, n: nat): int {
    M - m - Walk(M, m, n)
  }

  lemma {:induction false} ErrIsDistance(a: Point, b: Point, n: nat)
    ensures var dx, dy := Abs(b.x - a.x), Abs(b.y - a.y);
      ErrAt(a, b, n) == if XMajor(a, b) then Distance(dx, dy, n) else -Distance(dy, dx, n)
  {
    var dx, dy := Abs(b.x - a.x), Abs(b.y - a.y);
    if n > 0 {
      ErrIsDistance(a, b, n - 1);
      if dx > 0 || dy > 0 {
        if XMajor(a, b) {
          WalkRange(dx, dy, n - 1);
        } else {
          WalkRange(dy, dx, n - 1);
        }
      }
    }
  }

  // ----- overflow

  /** The condition on the lengths of a line, `M` along its major and `m` along its minor axis. */
  predicate Safe(M: nat, m: nat, xMajor: bool) {
    && M <= INT32_MAX
    && (M == 0 ||
        if xMajor then 2 * (M - m - Least(M, m)) <= INT32_MAX && M - 2 * m - Greatest(M, m) >= -INT32_MAX - 1
        else 2 * (M - m - Least(M, m)) <= INT32_MAX + 1 && M - Least(M, m) <= INT32_MAX + 1)
  }

  predicate SafeLine(a: Point, b: Point) {
    Safe(Steps(a, b), Min(Abs(b.x - a.x), Abs(b.y - a.y)), XMajor(a, b))
  }

  /** A round in terms of the walk. */
  lemma RoundIsWalk(a: Point, b: Point, n: nat)
    requires a != b
    ensures var M, m := Steps(a, b), Min(Abs(b.x - a.x), Abs(b.y - a.y));
      var d, d' := Distance(M, m, n), Distance(M, m, n + 1);
      RoundFits(a, b, ErrAt(a, b, n)) <==>
        if XMajor(a, b) then Fits(2 * d) && Fits(d - m) && Fits(d')
        else Fits(-2 * d) && Fits(if 2 * d <= M then -d - M else -d) && Fits(-d')
  {
    if XMajor(a, b) {
      RoundX(a, b, n, Abs(b.x - a.x), Abs(b.y - a.y));
    } else {
      RoundY(a, b, n, Abs(b.x - a.x), Abs(b.y - a.y));
    }
  }

  lemma RoundX(a: Point, b: Point, n: nat, M: nat, m: nat)
    requires M == Abs(b.x - a.x) && m == Abs(b.y - a.y) && XMajor(a, b) && M > 0
    ensures var d, d' := Distance(M, m, n), Distance(M, m, n + 1);
      RoundFits(a, b, ErrAt(a, b, n)) <==> Fits(2 * d) && Fits(d - m) && Fits(d')
  {
    ErrIsDistance(a, b, n);
    ErrIsDistance(a, b, n + 1);
    WalkRange(M, m, n);
    var err := ErrAt(a, b, n);
    assert ErrAt(a, b, n + 1) == NextErr(a, b, err);
    assert 2 * err + m >= 0;
  }

  lemma RoundY(a: Point, b: Point, n: nat, m: nat, M: nat)
    requires m == Abs(b.x - a.x) && M == Abs(b.y - a.y) && !XMajor(a, b)
    ensures var d, d' := Distance(M, m, n), Distance(M, m, n + 1);
      RoundFits(a, b, ErrAt(a, b, n)) <==> Fits(-2 * d) && Fits(if 2 * d <= M then -d - M else -d) && Fits(-d')
  {
    ErrIsDistance(a, b, n);
    ErrIsDistance(a, b, n + 1);
    var err := ErrAt(a, b, n);
    assert ErrAt(a, b, n + 1) == NextErr(a, b, err);
    assert 2 * err + M >= 0 <==> 2 * Distance(M, m, n) <= M;
  }

  /** A step of the walk wraps around exactly when the distance is at most half of `M`. */
  lemma WrapsWhenClose(M: nat, m: nat, n: nat)
    ensures Walk(M, m, n + 1) == Walk(M, m, n) + m - (if 2 * Distance(M, m, n) <= M then M else 0)
  {
  }

  lemma SafeRounds(M: nat, m: nat, n: nat)
    requires 0 < M && m <= M && n < M
    ensures var d, d' := Distance(M, m, n), Distance(M, m, n + 1);
      && (Safe(M, m, true) ==> Fits(2 * d) && Fits(d - m) && Fits(d'))
      && (Safe(M, m, false) ==> Fits(-2 * d) && Fits(if 2 * d <= M then -d - M else -d) && Fits(-d'))
  {
    WalkBetween(M, m, n);
    WalkBetween(M, m, n + 1);
    WalkRange(M, m, n);
    WalkRange(M, m, n + 1);
    WrapsWhenClose(M, m, n);
  }

  /** The step that leads to the least point of the walk wraps around. */
  lemma LeastIsWrapped(M: nat, m: nat) returns (n: nat)
    requires 0 < M && m <= M && Least(M, m) < 0
    ensures n < M && Walk(M, m, n + 1) == Least(M, m) && 2 * Distance(M, m, n) <= M
  {
    var k := ReachesLeast(M, m);
    n := k - 1;
    WrapsWhenClose(M, m, n);
    WalkBetween(M, m, n);
    if m == 0 {
      StandsStill(M, k);
    }
  }

  lemma {:induction false} StandsStill(M: nat, n: nat)
    requires M > 0
    ensures Walk(M, 0, n) == 0
  {
    if n > 0 {
      StandsStill(M, n - 1);
    }
  }

  lemma FitsX(M: nat, m: nat)
    requires 0 < M <= INT32_MAX && m <= M
    requires forall n :: 0 <= n < M ==> Fits(2 * Distance(M, m, n)) && Fits(Distance(M, m, n) - m)
    ensures Safe(M, m, true)
  {
    var i := ReachesLeast(M, m);
    var j := ReachesGreatest(M, m);
    assert Fits(2 * Distance(M, m, i)) && Fits(Distance(M, m, j) - m);
  }

  lemma FitsY(M: nat, m: nat)
    requires 0 < M <= INT32_MAX && m <= M
    requires forall n :: 0 <= n < M ==> Fits(-2 * Distance(M, m, n))
    requires forall n :: 0 <= n < M && 2 * Distance(M, m, n) <= M ==> Fits(-Distance(M, m, n) - M)
    ensures Safe(M, m, false)
  {
    var i := ReachesLeast(M, m);
    assert Fits(-2 * Distance(M, m, i));
    if Least(M, m) < 0 {
      var n := LeastIsWrapped(M, m);
      WrapsWhenClose(M, m, n);
      assert Fits(-Distance(M, m, n) - M);
    }
  }

  /** No intermediate value overflows exactly when the lengths of the line satisfy the condition. */
  lemma OverflowExact(a: Point, b: Point)
    ensures NoOverflow(a, b) <==> SafeLine(a, b)
  {
    var M, m := Steps(a, b), Min(Abs(b.x - a.x), Abs(b.y - a.y));
    if a != b {
      forall n | 0 <= n < M
        ensures SafeLine(a, b) ==> RoundFits(a, b, ErrAt(a, b, n))
      {
        SafeRounds(M, m, n);
        RoundIsWalk(a, b, n);
      }
      if NoOverflow(a, b) {
        OverflowNeeds(a, b);
      }
    }
  }

  lemma OverflowNeeds(a: Point, b: Point)
    requires a != b && NoOverflow(a, b)
    ensures SafeLine(a, b)
  {
    var M, m := Steps(a, b), Min(Abs(b.x - a.x), Abs(b.y - a.y));
    forall n | 0 <= n < M
      ensures XMajor(a, b) ==> Fits(2 * Distance(M, m, n)) && Fits(Distance(M, m, n) - m)
      ensures !XMajor(a, b) ==> Fits(-2 * Distance(M, m, n))
      ensures !XMajor(a, b) && 2 * Distance(M, m, n) <= M ==> Fits(-Distance(M, m, n) - M)
    {
      RoundIsWalk(a, b, n);
    }
    if XMajor(a, b) {
      FitsX(M, m);
    } else {
      FitsY(M, m);
    }
  }

  /** For example a diagonal never overflows, however long. */
  lemma DiagonalsFit(a: Point, b: Point)
    requires Abs(b.x - a.x) == Abs(b.y - a.y) <= INT32_MAX
    ensures NoOverflow(a, b)
  {
    OverflowExact(a, b);
    if a != b {
      GcdSame(Steps(a, b));
    }
  }

  lemma GcdSame(n: nat)
    requires n > 0
    ensures Least(n, n) == 0 && Greatest(n, n) == 0
  {
    assert n % n == 0;
    assert Gcd(n, n) == Gcd(n, 0) == n;
    assert n / n == 1;
  }

  /** The line-drawing code, with that condition. */
  method DrawSafeLine(fb: array<int>, a: Point, b: Point, color: int) returns (ghost pts: seq<Point>)
    requires fb.Length == VGA_WIDTH * VGA_HEIGHT && SafeLine(a, b)
    modifies fb
    ensures IsLine(a, b, pts) && Painted(old(fb[..]), fb[..], pts, color)
  {
    OverflowExact(a, b);
    pts := DrawLine.DrawLine(fb, a, b, color);
  }
}

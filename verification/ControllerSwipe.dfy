/**
 The main leg of `swipe_without_scale`: the touch follows a cubic from the start to the
 end, sampled every `TIME_INTERVAL`, truncated to pixels. Over real arithmetic.
 */
module ControllerSwipe {
  datatype Point = Point(x: int, y: int)

  const TIME_INTERVAL: int := 2

  // ---------------------------------------------------------------- the curve

  /** The cubic through (0, 0) and (1, 1) with these slopes there. */
  function CubicSpline(slope0: real, slope1: real, t: real): real {
    var a := slope0;
    var b := -(2.0 * slope0 + slope1 - 3.0);
    var c := -(-slope0 - slope1 + 2.0);
    Cubic(a, b, c, t)
  }

  function Cubic(a: real, b: real, c: real, t: real): real {
    a * t + b * (t * t) + c * (t * t * t)
  }

  function Line(a: real, b: real, c: real, x: real, s: real): real {
    a + b * x + c * s
  }

  /** The slope of the chord between t and u, from their sum x and `s = u*u + u*t + t*t`. */
  function Chord(slope0: real, slope1: real, x: real, s: real): real {
    slope0 * (1.0 - 2.0 * x + s) + slope1 * (s - x) + (3.0 * x - 2.0 * s)
  }

  lemma {:induction false} Factor(k: real, p: real, d: real, x: real)
    requires p == d * x
    ensures k * p == d * (k * x)
  {
    assert k * (d * x) == (k * d) * x == d * (k * x);
  }

  lemma {:induction false} SplineChord(slope0: real, slope1: real, t: real, u: real)
    ensures CubicSpline(slope0, slope1, u) - CubicSpline(slope0, slope1, t)
            == (u - t) * Chord(slope0, slope1, u + t, u * u + u * t + t * t)
  {
    var b := -(2.0 * slope0 + slope1 - 3.0);
    var c := -(-slope0 - slope1 + 2.0);
    var x, s := u + t, u * u + u * t + t * t;
    hide Chord, Cubic, Line;
    SplineTerms(slope0, b, c, t, u, x, s);
    ChordTerms(slope0, slope1, x, s);
  }

  lemma {:induction false} ChordTerms(slope0: real, slope1: real, x: real, s: real)
    ensures Line(slope0, -(2.0 * slope0 + slope1 - 3.0), -(-slope0 - slope1 + 2.0), x, s) == Chord(slope0, slope1, x, s)
  {
  }

  lemma {:induction false} SplineTerms(a: real, b: real, c: real, t: real, u: real, x: real, s: real)
    requires x == u + t && s == u * u + u * t + t * t
    ensures Cubic(a, b, c, u) - Cubic(a, b, c, t) == (u - t) * Line(a, b, c, x, s)
  {
    Powers(t, u);
    Factor(a, u - t, u - t, 1.0);
    Factor(b, u * u - t * t, u - t, x);
    Factor(c, u * u * u - t * t * t, u - t, s);
    Distribute(a, u, t);
    Distribute(b, u * u, t * t);
    Distribute(c, u * u * u, t * t * t);
    var d := u - t;
    assert d * (a + b * x + c * s) == d * a + d * (b * x) + d * (c * s);
  }

  lemma {:induction false} Distribute(k: real, p: real, q: real)
    ensures k * (p - q) == k * p - k * q
  {
  }

  lemma {:induction false} Powers(t: real, u: real)
    ensures u * u - t * t == (u - t) * (u + t)
    ensures u * u * u - t * t * t == (u - t) * (u * u + u * t + t * t)
  {
  }

  lemma {:induction false} NonNegative(a: real, b: real)
    requires a >= 0.0 && b >= 0.0
    ensures a * b >= 0.0
  {
  }

  lemma {:induction false} SquareNonNegative(a: real)
    ensures a * a >= 0.0
  {
  }

  // ---------------------------------------------------------------- where the curve rises

  /** The slope of the curve at v. */
  function Slope(slope0: real, slope1: real, v: real): real {
    slope0 * (1.0 - 4.0 * v + 3.0 * (v * v)) + slope1 * (3.0 * (v * v) - 2.0 * v) + 6.0 * (v - v * v)
  }

  /** It is a quadratic form in v and 1 - v. */
  lemma {:induction false} SlopeForm(slope0: real, slope1: real, v: real, y: real)
    requires y == 1.0 - v
    ensures Slope(slope0, slope1, v)
            == slope0 * (y * y) - 2.0 * ((slope0 + slope1 - 3.0) * (v * y)) + slope1 * (v * v)
  {
    assert y * y == 1.0 - 2.0 * v + v * v;
    assert v * y == v - v * v;
  }

  /** Neither end falls, and the slopes are not too steep for each other. */
  predicate SmoothSlopes(slope0: real, slope1: real) {
    var n := slope0 + slope1 - 3.0;
    slope0 >= 0.0 && slope1 >= 0.0 && (n <= 0.0 || n * n <= slope0 * slope1)
  }

  lemma {:induction false} SlopeNonNegative(slope0: real, slope1: real, v: real)
    requires SmoothSlopes(slope0, slope1) && 0.0 <= v <= 1.0
    ensures Slope(slope0, slope1, v) >= 0.0
  {
    var y, n := 1.0 - v, slope0 + slope1 - 3.0;
    SlopeForm(slope0, slope1, v, y);
    FormNonNegative(slope0, slope1, n, v, y);
  }

  lemma {:induction false} FormNonNegative(a: real, b: real, n: real, v: real, y: real)
    requires a >= 0.0 && b >= 0.0 && (n <= 0.0 || n * n <= a * b) && v >= 0.0 && y >= 0.0
    ensures a * (y * y) - 2.0 * (n * (v * y)) + b * (v * v) >= 0.0
  {
    NonNegative(y, y);
    NonNegative(v, v);
    NonNegative(v, y);
    NonNegative(a, y * y);
    NonNegative(b, v * v);
    if n <= 0.0 {
      NonNegative(-n, v * y);
    } else {
      CompletedSquare(a, b, n, v, y);
    }
  }

  lemma {:induction false} CompletedSquare(a: real, b: real, n: real, v: real, y: real)
    requires a >= 0.0 && b >= 0.0 && n > 0.0 && n * n <= a * b
    ensures a * (y * y) - 2.0 * (n * (v * y)) + b * (v * v) >= 0.0
  {
    PositiveFactor(a, b, n, n);
    var form := a * (y * y) - 2.0 * (n * (v * y)) + b * (v * v);
    var square := a * y - n * v;
    SquareNonNegative(square);
    SquareNonNegative(v);
    NonNegative(a * b - n * n, v * v);
    assert square * square == (a * y) * (a * y) - 2.0 * ((a * y) * (n * v)) + (n * v) * (n * v);
    assert (a * y) * (a * y) == a * (a * (y * y));
    assert (a * y) * (n * v) == a * (n * (v * y));
    assert (n * v) * (n * v) == (n * n) * (v * v);
    assert (a * b - n * n) * (v * v) == a * (b * (v * v)) - (n * n) * (v * v);
    assert a * form == a * (a * (y * y)) - 2.0 * (a * (n * (v * y))) + a * (b * (v * v));
    Sign(a, form);
  }

  lemma {:induction false} PositiveFactor(a: real, b: real, n: real, m: real)
    requires a >= 0.0 && n > 0.0 && m > 0.0 && n * m <= a * b
    ensures a > 0.0
  {
    PositiveProduct(n, m);
    if a <= 0.0 {
      ZeroFactor(a, b);
    }
  }

  lemma {:induction false} PositiveProduct(n: real, m: real)
    requires n > 0.0 && m > 0.0
    ensures n * m > 0.0
  {
  }

  lemma {:induction false} ZeroFactor(a: real, b: real)
    requires a == 0.0
    ensures a * b == 0.0
  {
  }

  lemma {:induction false} Sign(a: real, b: real)
    requires a > 0.0
    ensures a * b >= 0.0 <==> b >= 0.0
  {
    if b < 0.0 {
      assert a * b < 0.0;
    }
  }

  /** The chord's slope is the mean of the slopes at its ends and its middle, weighted 1, 1, 4. */
  lemma {:induction false} ChordIsMean(slope0: real, slope1: real, t: real, u: real)
    ensures var v := (t + u) / 2.0;
            6.0 * Chord(slope0, slope1, u + t, u * u + u * t + t * t)
            == Slope(slope0, slope1, t) + 4.0 * Slope(slope0, slope1, v) + Slope(slope0, slope1, u)
  {
    var v := (t + u) / 2.0;
    var tt, uu, ut := t * t, u * u, u * t;
    SquareOfMean(t, u, v);
    MeanLinear(slope0, slope1, t, u, tt, uu, ut, v, v * v);
  }

  lemma {:induction false} SquareOfMean(t: real, u: real, v: real)
    requires v + v == t + u
    ensures 4.0 * (v * v) == t * t + 2.0 * (u * t) + u * u
  {
    assert (v + v) * (v + v) == 4.0 * (v * v);
    assert (t + u) * (t + u) == t * t + 2.0 * (u * t) + u * u;
  }

  lemma {:induction false} MeanLinear(a: real, b: real, t: real, u: real, tt: real, uu: real, ut: real,
                                      v: real, vv: real)
    requires v == (t + u) / 2.0 && 4.0 * vv == tt + 2.0 * ut + uu
    ensures 6.0 * (a * (1.0 - 2.0 * (u + t) + (uu + ut + tt)) + b * (uu + ut + tt - (u + t))
                   + (3.0 * (u + t) - 2.0 * (uu + ut + tt)))
            == a * (1.0 - 4.0 * t + 3.0 * tt) + b * (3.0 * tt - 2.0 * t) + 6.0 * (t - tt)
               + 4.0 * (a * (1.0 - 4.0 * v + 3.0 * vv) + b * (3.0 * vv - 2.0 * v) + 6.0 * (v - vv))
               + (a * (1.0 - 4.0 * u + 3.0 * uu) + b * (3.0 * uu - 2.0 * u) + 6.0 * (u - uu))
  {
  }

  /** With smooth slopes no chord falls. */
  lemma {:induction false} ChordNonNegative(slope0: real, slope1: real, t: real, u: real)
    requires 0.0 <= t <= u <= 1.0 && SmoothSlopes(slope0, slope1)
    ensures Chord(slope0, slope1, u + t, u * u + u * t + t * t) >= 0.0
  {
    hide Chord, Slope, SmoothSlopes;
    ChordIsMean(slope0, slope1, t, u);
    SlopeNonNegative(slope0, slope1, t);
    SlopeNonNegative(slope0, slope1, (t + u) / 2.0);
    SlopeNonNegative(slope0, slope1, u);
  }

  /** With smooth slopes the progress runs from 0 to 1 and never falls. */
  lemma {:induction false} SplineRises(slope0: real, slope1: real, t: real, u: real)
    requires 0.0 <= t <= u <= 1.0 && SmoothSlopes(slope0, slope1)
    ensures CubicSpline(slope0, slope1, 0.0) == 0.0 && CubicSpline(slope0, slope1, 1.0) == 1.0
    ensures 0.0 <= CubicSpline(slope0, slope1, t) <= CubicSpline(slope0, slope1, u) <= 1.0
  {
    SplineOrder(slope0, slope1, t, u);
    SplineOrder(slope0, slope1, 0.0, t);
    SplineOrder(slope0, slope1, u, 1.0);
  }

  lemma {:induction false} SplineOrder(slope0: real, slope1: real, t: real, u: real)
    requires 0.0 <= t <= u <= 1.0 && SmoothSlopes(slope0, slope1)
    ensures CubicSpline(slope0, slope1, t) <= CubicSpline(slope0, slope1, u)
  {
    hide CubicSpline, Chord, SmoothSlopes;
    SplineChord(slope0, slope1, t, u);
    ChordNonNegative(slope0, slope1, t, u);
    NonNegative(u - t, Chord(slope0, slope1, u + t, u * u + u * t + t * t));
  }

  /** All slopes from 0 to 3 are smooth. */
  lemma {:induction false} UpToThreeIsSmooth(slope0: real, slope1: real)
    requires 0.0 <= slope0 <= 3.0 && 0.0 <= slope1 <= 3.0
    ensures SmoothSlopes(slope0, slope1)
  {
    var a, b := 3.0 - slope0, 3.0 - slope1;
    var n := slope0 + slope1 - 3.0;
    if n > 0.0 {
      NonNegative(a, b);
      NonNegative(3.0 - a - b, a + b);
      assert n * n == 9.0 - 6.0 * (a + b) + a * a + 2.0 * (a * b) + b * b;
      assert slope0 * slope1 == 9.0 - 3.0 * (a + b) + a * b;
      assert (3.0 - a - b) * (a + b) == 3.0 * (a + b) - a * a - 2.0 * (a * b) - b * b;
    }
  }

  // ---------------------------------------------------------------- and where it does not

  /** Between 0 and 1 the curve never falls. */
  ghost predicate Rises(slope0: real, slope1: real) {
    forall t, u :: 0.0 <= t <= u <= 1.0 ==> CubicSpline(slope0, slope1, t) <= CubicSpline(slope0, slope1, u)
  }

  /** The chord around v with half width h. */
  lemma {:induction false} ChordAround(slope0: real, slope1: real, v: real, h: real, t: real, u: real, bend: real)
    requires t == v - h && u == v + h && bend == (slope0 + slope1 - 2.0) * (h * h)
    ensures Chord(slope0, slope1, u + t, u * u + u * t + t * t) == Slope(slope0, slope1, v) + bend
  {
    var vv, hh := v * v, h * h;
    assert u * u + u * t + t * t == 3.0 * vv + hh;
    AroundLinear(slope0, slope1, v, vv, hh);
  }

  lemma {:induction false} AroundLinear(a: real, b: real, v: real, vv: real, hh: real)
    ensures var x, s := 2.0 * v, 3.0 * vv + hh;
            a * (1.0 - 2.0 * x + s) + b * (s - x) + (3.0 * x - 2.0 * s)
            == a * (1.0 - 4.0 * v + 3.0 * vv) + b * (3.0 * vv - 2.0 * v) + 6.0 * (v - vv) + (a + b - 2.0) * hh
  {
  }

  /** A bend too small to make up for a negative slope. */
  lemma {:induction false} SmallBend(g: real, c: real, v: real) returns (h: real, bend: real)
    requires g > 0.0 && 0.0 < v < 1.0
    ensures 0.0 < h <= v && h <= 1.0 - v && bend == c * (h * h) && bend < g
  {
    var k := if c < 0.0 then -c else c;
    var bound := g / (k + 1.0);
    assert bound * (k + 1.0) == g;
    assert bound > 0.0;
    h := if v < 1.0 - v then v else 1.0 - v;
    h := if h < bound then h else bound;
    NonNegative(h, 1.0 - h);
    NonNegative(k, h - h * h);
    NonNegative(k, bound - h);
    Distribute(h, 1.0, h);
    Distribute(k, h, h * h);
    Distribute(k, bound, h);
    assert bound * (k + 1.0) == k * bound + bound;
    NonNegative(h, h);
    NonNegative(k - c, h * h);
    Distribute(h * h, k, c);
    bend := c * (h * h);
  }

  lemma {:induction false} FallingChord(slope0: real, slope1: real, v: real) returns (t: real, u: real)
    requires 0.0 < v < 1.0 && Slope(slope0, slope1, v) < 0.0
    ensures 0.0 <= t < u <= 1.0 && Chord(slope0, slope1, u + t, u * u + u * t + t * t) < 0.0
  {
    hide Slope, Chord;
    var h, bend := SmallBend(-Slope(slope0, slope1, v), slope0 + slope1 - 2.0, v);
    t, u := v - h, v + h;
    ChordAround(slope0, slope1, v, h, t, u, bend);
    assert Chord(slope0, slope1, u + t, u * u + u * t + t * t) == Slope(slope0, slope1, v) + bend;
  }

  lemma {:induction false} ChordFalls(slope0: real, slope1: real, t: real, u: real, chord: real)
    requires t < u && chord < 0.0 && chord == Chord(slope0, slope1, u + t, u * u + u * t + t * t)
    ensures CubicSpline(slope0, slope1, u) < CubicSpline(slope0, slope1, t)
  {
    hide Chord, CubicSpline;
    SplineChord(slope0, slope1, t, u);
    Sign(u - t, chord);
  }

  /** Around a point of negative slope the curve falls. */
  lemma {:induction false} FallsAround(slope0: real, slope1: real, v: real)
    requires 0.0 < v < 1.0 && Slope(slope0, slope1, v) < 0.0
    ensures !Rises(slope0, slope1)
  {
    hide Slope, Chord, CubicSpline;
    var t, u := FallingChord(slope0, slope1, v);
    ChordFalls(slope0, slope1, t, u, Chord(slope0, slope1, u + t, u * u + u * t + t * t));
  }

  /** A polynomial that starts negative is negative somewhere after its start. */
  lemma {:induction false} NegativeStart(a: real, k: real, l: real) returns (v: real)
    requires a < 0.0
    ensures 0.0 < v < 1.0 && a + k * v + l * (v * v) < 0.0
  {
    var p, q := if k < 0.0 then -k else k, if l < 0.0 then -l else l;
    var d := 2.0 * (p + q - a);
    v := -a / d;
    assert v * d == -a;
    assert v > 0.0;
    NonNegative(v, p + q);
    assert v * d == 2.0 * (v * (p + q)) - 2.0 * (v * a);
    NonNegative(v, -a);
    assert v < 1.0 by {
      Sign(-a, 1.0 - 2.0 * v);
      assert -a * (1.0 - 2.0 * v) == 2.0 * (v * (p + q));
    }
    NonNegative(v, 1.0 - v);
    NonNegative(q, v - v * v);
    NonNegative(p - k, v);
    NonNegative(v, v);
    NonNegative(q - l, v * v);
    assert v * (p + q) < -a;
  }

  /** Slopes that are not smooth make the curve's slope negative somewhere inside. */
  lemma {:induction false} NegativeSlope(slope0: real, slope1: real) returns (v: real)
    requires !SmoothSlopes(slope0, slope1)
    ensures 0.0 < v < 1.0 && Slope(slope0, slope1, v) < 0.0
  {
    if slope0 < 0.0 {
      v := NegativeStart(slope0, 6.0 - 4.0 * slope0 - 2.0 * slope1, 3.0 * slope0 + 3.0 * slope1 - 6.0);
      SlopePowers(slope0, slope1, v, v * v);
    } else if slope1 < 0.0 {
      var w := NegativeStart(slope1, 6.0 - 4.0 * slope1 - 2.0 * slope0, 3.0 * slope1 + 3.0 * slope0 - 6.0);
      SlopePowers(slope1, slope0, w, w * w);
      v := 1.0 - w;
      SlopeForm(slope0, slope1, v, w);
      SlopeForm(slope1, slope0, w, v);
    } else {
      var n := slope0 + slope1 - 3.0;
      v := NegativeForm(slope0, slope1, n);
      SlopeForm(slope0, slope1, v, 1.0 - v);
    }
  }

  lemma {:induction false} SlopePowers(a: real, b: real, v: real, vv: real)
    ensures a + (6.0 - 4.0 * a - 2.0 * b) * v + (3.0 * a + 3.0 * b - 6.0) * vv
            == a * (1.0 - 4.0 * v + 3.0 * vv) + b * (3.0 * vv - 2.0 * v) + 6.0 * (v - vv)
  {
  }

  lemma {:induction false} NegativeForm(a: real, b: real, n: real) returns (v: real)
    requires a >= 0.0 && b >= 0.0 && n > 0.0 && n * n > a * b
    ensures 0.0 < v < 1.0
    ensures var y := 1.0 - v; a * (y * y) - 2.0 * (n * (v * y)) + b * (v * v) < 0.0
  {
    if a == 0.0 {
      v := n / (b + 2.0 * n);
      assert v * (b + 2.0 * n) == n;
      assert v > 0.0;
      assert v < 1.0;
      var y := 1.0 - v;
      var r := b * v - 2.0 * (n * y);
      assert r == v * (b + 2.0 * n) - 2.0 * n == -n;
      assert v * r == b * (v * v) - 2.0 * (n * (v * y));
      assert v * r < 0.0;
    } else {
      v := a / (n + a);
      assert v * (n + a) == a;
      assert v > 0.0;
      assert v < 1.0;
      var y := 1.0 - v;
      assert a * y == n * v;
      var r := b * v - n * y;
      assert a * r == (a * b) * v - n * (a * y);
      assert a * r == (a * b - n * n) * v;
      assert (n * n - a * b) * v > 0.0;
      Sign(a, r);
      assert r < 0.0;
      assert v * r < 0.0;
      assert a * (y * y) == y * (n * v);
      assert v * r == b * (v * v) - n * (v * y);
      assert y * (n * v) == n * (v * y);
    }
  }

  /** The curve never falls exactly if the slopes are smooth. */
  lemma {:induction false} RisesExactly(slope0: real, slope1: real)
    ensures Rises(slope0, slope1) <==> SmoothSlopes(slope0, slope1)
  {
    hide CubicSpline, SmoothSlopes, Slope;
    if SmoothSlopes(slope0, slope1) {
      forall t, u | 0.0 <= t <= u <= 1.0
        ensures CubicSpline(slope0, slope1, t) <= CubicSpline(slope0, slope1, u)
      {
        SplineOrder(slope0, slope1, t, u);
      }
    } else {
      var v := NegativeSlope(slope0, slope1);
      FallsAround(slope0, slope1, v);
    }
  }

  // ---------------------------------------------------------------- pixels

  /** Conversion to `int`: toward zero. */
  function Truncate(r: real): int {
    if r >= 0.0 then r.Floor else -(-r).Floor
  }

  lemma {:induction false} TruncateOrder(r: real, s: real)
    requires r <= s
    ensures Truncate(r) <= Truncate(s)
  {
  }

  lemma {:induction false} TruncateInt(n: int)
    ensures Truncate(n as real) == n
  {
  }

  function Lerp(a: int, b: int, t: real): real {
    a as real + t * (b - a) as real
  }

  /** v lies between a and b. */
  predicate Between(a: int, v: int, b: int) {
    a <= v <= b || b <= v <= a
  }

  /** From a toward b, w does not come before v. */
  predicate Toward(a: int, b: int, v: int, w: int) {
    && Between(a, v, b) && Between(a, w, b)
    && (a <= b ==> v <= w) && (b <= a ==> w <= v)
  }

  /** More progress leads further from a toward b. */
  lemma {:induction false} LerpToward(a: int, b: int, t: real, u: real)
    requires 0.0 <= t <= u <= 1.0
    ensures Toward(a, b, Truncate(Lerp(a, b, t)), Truncate(Lerp(a, b, u)))
  {
    LerpOrder(a, b, 0.0, t);
    LerpOrder(a, b, t, u);
    LerpOrder(a, b, u, 1.0);
    LerpEnds(a, b);
  }

  lemma {:induction false} LerpEnds(a: int, b: int)
    ensures Truncate(Lerp(a, b, 0.0)) == a && Truncate(Lerp(a, b, 1.0)) == b
  {
    TruncateInt(a);
    TruncateInt(b);
  }

  lemma {:induction false} LerpOrder(a: int, b: int, t: real, u: real)
    requires t <= u
    ensures a <= b ==> Truncate(Lerp(a, b, t)) <= Truncate(Lerp(a, b, u))
    ensures b <= a ==> Truncate(Lerp(a, b, u)) <= Truncate(Lerp(a, b, t))
  {
    var d := (b - a) as real;
    Distribute(d, u, t);
    if a <= b {
      NonNegative(u - t, d);
      TruncateOrder(Lerp(a, b, t), Lerp(a, b, u));
    }
    if b <= a {
      NonNegative(u - t, -d);
      TruncateOrder(Lerp(a, b, u), Lerp(a, b, t));
    }
  }

  // ---------------------------------------------------------------- the path

  /** What a swipe is given: the slopes at both ends and the duration, in milliseconds. */
  datatype Swipe = Swipe(start: Point, end: Point, duration: int, slopeIn: real, slopeOut: real)

  predicate Smooth(w: Swipe) {
    SmoothSlopes(w.slopeIn, w.slopeOut)
  }

  /** The coordinates the touch screen has. */
  datatype Props = Props(maxX: int, maxY: int)

  predicate InRange(props: Props, p: Point) {
    0 <= p.x <= props.maxX && 0 <= p.y <= props.maxY
  }

  /** Where the touch is at a time. */
  function PointAt(w: Swipe, time: int): Point
    requires w.duration != 0
  {
    var progress := CubicSpline(w.slopeIn, w.slopeOut, time as real / w.duration as real);
    Point(Truncate(Lerp(w.start.x, w.end.x, progress)), Truncate(Lerp(w.start.y, w.end.y, progress)))
  }

  function IfInRange(props: Props, p: Point): seq<Point> {
    if InRange(props, p) then [p] else []
  }

  /** The first n samples, those out of range left out. */
  function Samples(w: Swipe, props: Props, n: nat): seq<Point>
    requires w.duration != 0
  {
    if n == 0 then [] else Samples(w, props, n - 1) + IfInRange(props, PointAt(w, TIME_INTERVAL * n))
  }

  /** How many samples fall before the end. */
  function SampleCount(duration: int): nat {
    if duration <= 0 then 0 else (duration - 1) / TIME_INTERVAL
  }

  /** All the moves. */
  function Path(w: Swipe, props: Props): seq<Point>
    requires w.duration != 0
  {
    Samples(w, props, SampleCount(w.duration)) + IfInRange(props, w.end)
  }

  // ---------------------------------------------------------------- its properties

  /** On both axes p and q lie between the ends, and q does not come before p. */
  predicate Ahead(w: Swipe, p: Point, q: Point) {
    Toward(w.start.x, w.end.x, p.x, q.x) && Toward(w.start.y, w.end.y, p.y, q.y)
  }

  lemma {:induction false} TimesAhead(w: Swipe, t: int, u: int)
    requires Smooth(w) && 0 <= t <= u <= w.duration && w.duration > 0
    ensures Ahead(w, PointAt(w, t), PointAt(w, u))
    ensures PointAt(w, 0) == w.start && PointAt(w, w.duration) == w.end
  {
    hide CubicSpline, Truncate, Lerp, Toward;
    Fractions(w.duration as real, t as real, u as real);
    var p, q := t as real / w.duration as real, u as real / w.duration as real;
    SplineRises(w.slopeIn, w.slopeOut, p, q);
    var a, b := CubicSpline(w.slopeIn, w.slopeOut, p), CubicSpline(w.slopeIn, w.slopeOut, q);
    LerpToward(w.start.x, w.end.x, a, b);
    LerpToward(w.start.y, w.end.y, a, b);
    LerpEnds(w.start.x, w.end.x);
    LerpEnds(w.start.y, w.end.y);
  }

  lemma {:induction false} Fractions(d: real, t: real, u: real)
    requires d > 0.0 && 0.0 <= t <= u <= d
    ensures 0.0 <= t / d <= u / d <= 1.0 && 0.0 / d == 0.0 && d / d == 1.0
  {
  }

  ghost predicate InOrder(w: Swipe, points: seq<Point>) {
    forall i, j :: 0 <= i <= j < |points| ==> Ahead(w, points[i], points[j])
  }

  lemma {:induction false} InOrderAppend(w: Swipe, points: seq<Point>, p: Point)
    requires InOrder(w, points) && Ahead(w, p, p) && forall i :: 0 <= i < |points| ==> Ahead(w, points[i], p)
    ensures InOrder(w, points + [p])
  {
  }

  lemma {:induction false} SamplesInOrder(w: Swipe, props: Props, n: nat)
    requires Smooth(w) && w.duration > 0 && TIME_INTERVAL * n < w.duration
    ensures var points := [w.start] + Samples(w, props, n);
            InOrder(w, points)
            && forall i :: 0 <= i < |points| ==> Ahead(w, points[i], PointAt(w, TIME_INTERVAL * n))
  {
    hide PointAt, Toward, Smooth;
    if n == 0 {
      TimesAhead(w, 0, 0);
    } else {
      var before := [w.start] + Samples(w, props, n - 1);
      SamplesInOrder(w, props, n - 1);
      OneMore(w, props, before, TIME_INTERVAL * (n - 1), TIME_INTERVAL * n);
      assert [w.start] + Samples(w, props, n) == before + IfInRange(props, PointAt(w, TIME_INTERVAL * n));
    }
  }

  lemma {:induction false} OneMore(w: Swipe, props: Props, points: seq<Point>, t: int, u: int)
    requires Smooth(w) && 0 <= t <= u <= w.duration && w.duration > 0
    requires InOrder(w, points) && forall i :: 0 <= i < |points| ==> Ahead(w, points[i], PointAt(w, t))
    ensures var more := points + IfInRange(props, PointAt(w, u));
            InOrder(w, more) && forall i :: 0 <= i < |more| ==> Ahead(w, more[i], PointAt(w, u))
  {
    hide PointAt, Smooth;
    var p, q := PointAt(w, t), PointAt(w, u);
    TimesAhead(w, t, u);
    forall i | 0 <= i < |points| ensures Ahead(w, points[i], q) {
      assert Ahead(w, points[i], p);
    }
    TimesAhead(w, u, u);
    InOrderAppend(w, points, q);
  }

  /** The touch moves monotonically on each axis from its start, never leaves the rectangle
      spanned by the two ends, and ends at the destination when that is in range. */
  lemma {:induction false} SwipeIsMonotone(w: Swipe, props: Props)
    requires Smooth(w) && w.duration > 0
    ensures var points := [w.start] + Path(w, props);
            && InOrder(w, points)
            && (InRange(props, w.end) ==> points[|points| - 1] == w.end)
    ensures forall i :: 0 <= i < |Path(w, props)| ==> InRange(props, Path(w, props)[i])
  {
    hide Toward, Smooth;
    var n := SampleCount(w.duration);
    var before := [w.start] + Samples(w, props, n);
    SamplesInOrder(w, props, n);
    TimesAhead(w, 0, w.duration);
    OneMore(w, props, before, TIME_INTERVAL * n, w.duration);
    assert [w.start] + Path(w, props) == before + IfInRange(props, w.end);
    SamplesInRange(w, props, n);
  }

  lemma {:induction false} SamplesInRange(w: Swipe, props: Props, n: nat)
    requires w.duration != 0
    ensures forall i :: 0 <= i < |Samples(w, props, n)| ==> InRange(props, Samples(w, props, n)[i])
  {
    if n > 0 {
      SamplesInRange(w, props, n - 1);
    }
  }

  // ---------------------------------------------------------------- which slope is which

  function RealAbs(r: real): real {
    if r < 0.0 then -r else r
  }

  /** The pixel is at most e away from r. */
  predicate Near(v: int, r: real, e: real) {
    -e <= v as real - r <= e
  }

  /** How much the curve bends away from a straight line of this slope, seen from that end. */
  function Bend(slope: real, other: real): real {
    RealAbs(2.0 * slope + other - 3.0) + RealAbs(slope + other - 2.0)
  }

  lemma {:induction false} AbsProduct(a: real, b: real)
    ensures RealAbs(a * b) == RealAbs(a) * RealAbs(b)
  {
    if a >= 0.0 && b >= 0.0 {
      NonNegative(a, b);
    } else if a >= 0.0 {
      NonNegative(a, -b);
    } else if b >= 0.0 {
      NonNegative(-a, b);
    } else {
      NonNegative(-a, -b);
    }
  }

  lemma {:induction false} ProductOrder(a: real, b: real, c: real)
    requires a <= b && c >= 0.0
    ensures a * c <= b * c
  {
    NonNegative(b - a, c);
    assert (b - a) * c == b * c - a * c;
  }

  /** Progress t is as a line of this slope says, but for the bend. */
  predicate Follows(t: real, slope: real, other: real, part: real) {
    RealAbs(t - slope * part) <= Bend(slope, other) * (part * part)
  }

  /** Near the start the curve goes as its first slope says. */
  lemma {:induction false} CurveStart(slope0: real, slope1: real, p: real)
    requires 0.0 <= p <= 1.0
    ensures Follows(CubicSpline(slope0, slope1, p), slope0, slope1, p)
  {
    hide RealAbs, Bend, CubicSpline, Follows;
    var u, c, pp, ppp := 2.0 * slope0 + slope1 - 3.0, slope0 + slope1 - 2.0, p * p, p * p * p;
    var x, e := c * ppp - u * pp, Bend(slope0, slope1) * pp;
    PowersFall(p, pp, ppp);
    CurveIs(slope0, slope1, u, c, p, pp, ppp, x);
    BendIs(slope0, slope1, u, c);
    BentBy(u, c, pp, ppp, Bend(slope0, slope1), x, e);
    FollowsFrom(CubicSpline(slope0, slope1, p), slope0, slope1, p, x, e);
  }

  lemma {:induction false} CurveIs(slope0: real, slope1: real, u: real, c: real, p: real, pp: real, ppp: real, x: real)
    requires u == 2.0 * slope0 + slope1 - 3.0 && c == slope0 + slope1 - 2.0
    requires pp == p * p && ppp == p * p * p && x == c * ppp - u * pp
    ensures CubicSpline(slope0, slope1, p) - slope0 * p == x
  {
  }

  lemma {:induction false} BendIs(slope: real, other: real, u: real, c: real)
    requires u == 2.0 * slope + other - 3.0 && c == slope + other - 2.0
    ensures Bend(slope, other) == RealAbs(u) + RealAbs(c)
  {
  }

  lemma {:induction false} FollowsFrom(t: real, slope: real, other: real, part: real, x: real, e: real)
    requires t - slope * part == x && RealAbs(x) <= e && e == Bend(slope, other) * (part * part)
    ensures Follows(t, slope, other, part)
  {
    hide RealAbs, Bend;
  }

  lemma {:induction false} PowersFall(p: real, pp: real, ppp: real)
    requires 0.0 <= p <= 1.0 && pp == p * p && ppp == p * p * p
    ensures 0.0 <= ppp <= pp
  {
    NonNegative(p, p);
    NonNegative(p * p, p);
    NonNegative(p * p, 1.0 - p);
    Distribute(p * p, 1.0, p);
  }

  lemma {:induction false} BentBy(u: real, c: real, pp: real, ppp: real, bend: real, x: real, e: real)
    requires 0.0 <= ppp <= pp && bend == RealAbs(u) + RealAbs(c) && x == c * ppp - u * pp && e == bend * pp
    ensures RealAbs(x) <= e
  {
    AbsProduct(u, pp);
    AbsProduct(c, ppp);
    NonNegative(RealAbs(c), pp - ppp);
    Distribute(RealAbs(c), pp, ppp);
    assert (RealAbs(u) + RealAbs(c)) * pp == RealAbs(u) * pp + RealAbs(c) * pp;
  }

  /** Seen from the end the curve is the one with the slopes exchanged. */
  lemma {:induction false} CurveMirrored(slope0: real, slope1: real, q: real)
    ensures CubicSpline(slope0, slope1, 1.0 - q) == 1.0 - CubicSpline(slope1, slope0, q)
  {
    var p := 1.0 - q;
    var qq, qqq := q * q, q * q * q;
    assert p * p == 1.0 - 2.0 * q + qq;
    assert p * p * p == 1.0 - 3.0 * q + 3.0 * qq - qqq by {
      assert p * p * p == (1.0 - 2.0 * q + qq) * p;
      assert (1.0 - 2.0 * q + qq) * (1.0 - q) == 1.0 - 2.0 * q + qq - q + 2.0 * qq - qq * q;
    }
    MirrorLinear(slope0, slope1, q, qq, qqq);
  }

  lemma {:induction false} MirrorLinear(a: real, b: real, q: real, qq: real, qqq: real)
    ensures a * (1.0 - q) + -(2.0 * a + b - 3.0) * (1.0 - 2.0 * q + qq)
            + -(-a - b + 2.0) * (1.0 - 3.0 * q + 3.0 * qq - qqq)
            == 1.0 - (b * q + -(2.0 * b + a - 3.0) * qq + -(-b - a + 2.0) * qqq)
  {
  }

  lemma {:induction false} TruncateNear(r: real)
    ensures Near(Truncate(r), r, 1.0)
  {
  }

  /** Where a straight line of this slope has led from one coordinate toward another after a
      part of the time. */
  function Straight(from: int, to: int, slope: real, part: real): real {
    from as real + (slope * part) * (to - from) as real
  }

  /** A pixel, and the bend of the curve over that part of the way. */
  function Slack(from: int, to: int, slope: real, other: real, part: real): real {
    1.0 + (Bend(slope, other) * (part * part)) * RealAbs((to - from) as real)
  }

  /** Progress close to a line gives pixels close to a line. */
  lemma {:induction false} LerpNear(a: int, b: int, t: real, slope: real, other: real, part: real)
    requires Follows(t, slope, other, part)
    ensures Near(Truncate(Lerp(a, b, t)), Straight(a, b, slope, part), Slack(a, b, slope, other, part))
  {
    var d, line, e := (b - a) as real, slope * part, Bend(slope, other) * (part * part);
    assert RealAbs(t - line) <= e;
    hide Truncate, Bend, Near, RealAbs, Follows, Lerp, Straight, Slack;
    var x, f := t * d - line * d, e * RealAbs(d);
    TruncateNear(Lerp(a, b, t));
    LineNear(d, t, line, e, x, f);
    LerpStraight(a, b, t, slope, part, d, x);
    SlackIs(a, b, slope, other, part, e, f);
    NearTwice(Truncate(Lerp(a, b, t)), Lerp(a, b, t), Straight(a, b, slope, part), x, f);
  }

  lemma {:induction false} LineNear(d: real, t: real, line: real, e: real, x: real, f: real)
    requires RealAbs(t - line) <= e && x == t * d - line * d && f == e * RealAbs(d)
    ensures RealAbs(x) <= f
  {
    assert RealAbs(d) >= 0.0;
    hide RealAbs;
    AbsProduct(t - line, d);
    ProductOrder(RealAbs(t - line), e, RealAbs(d));
    Difference(t, line, d);
    assert x == (t - line) * d;
  }

  lemma {:induction false} Difference(t: real, line: real, d: real)
    ensures (t - line) * d == t * d - line * d
  {
  }

  lemma {:induction false} LerpStraight(a: int, b: int, t: real, slope: real, part: real, d: real, x: real)
    requires d == (b - a) as real && x == t * d - (slope * part) * d
    ensures Lerp(a, b, t) - Straight(a, b, slope, part) == x
  {
  }

  lemma {:induction false} SlackIs(a: int, b: int, slope: real, other: real, part: real, e: real, f: real)
    requires e == Bend(slope, other) * (part * part) && f == e * RealAbs((b - a) as real)
    ensures Slack(a, b, slope, other, part) == 1.0 + f
  {
    hide Bend, RealAbs;
  }

  lemma {:induction false} NearTwice(v: int, r: real, s: real, x: real, e: real)
    requires Near(v, r, 1.0) && r - s == x && RealAbs(x) <= e
    ensures Near(v, s, 1.0 + e)
  {
  }

  lemma {:induction false} LerpMirrored(a: int, b: int, t: real)
    ensures Lerp(a, b, 1.0 - t) == Lerp(b, a, t)
  {
    var d := (b - a) as real;
    assert (a - b) as real == -d;
    assert (1.0 - t) * d == d - t * d;
    assert t * -d == -(t * d);
  }

  /** The swipe leaves its start as `slopeIn` says: after a part of its time it is, on each
      axis, where a straight line of that slope would lead, but for a pixel and a bend that
      grows with the square of that part. */
  lemma {:induction false} StartsWithSlopeIn(w: Swipe, time: int)
    requires 0 <= time <= w.duration && w.duration > 0
    ensures var part := time as real / w.duration as real;
            var p, a, b := PointAt(w, time), w.start, w.end;
            && Near(p.x, Straight(a.x, b.x, w.slopeIn, part), Slack(a.x, b.x, w.slopeIn, w.slopeOut, part))
            && Near(p.y, Straight(a.y, b.y, w.slopeIn, part), Slack(a.y, b.y, w.slopeIn, w.slopeOut, part))
  {
    hide CubicSpline, Truncate, Lerp, Near, Bend, RealAbs, Straight, Slack, Follows;
    Fractions(w.duration as real, 0.0, time as real);
    var part := time as real / w.duration as real;
    var progress := CubicSpline(w.slopeIn, w.slopeOut, part);
    CurveStart(w.slopeIn, w.slopeOut, part);
    LerpNear(w.start.x, w.end.x, progress, w.slopeIn, w.slopeOut, part);
    LerpNear(w.start.y, w.end.y, progress, w.slopeIn, w.slopeOut, part);
  }

  /** And it comes to its end as `slopeOut` says, seen from the end. */
  lemma {:induction false} EndsWithSlopeOut(w: Swipe, time: int)
    requires 0 <= time <= w.duration && w.duration > 0
    ensures var part := 1.0 - time as real / w.duration as real;
            var p, a, b := PointAt(w, time), w.end, w.start;
            && Near(p.x, Straight(a.x, b.x, w.slopeOut, part), Slack(a.x, b.x, w.slopeOut, w.slopeIn, part))
            && Near(p.y, Straight(a.y, b.y, w.slopeOut, part), Slack(a.y, b.y, w.slopeOut, w.slopeIn, part))
  {
    hide CubicSpline, Truncate, Lerp, Near, Bend, RealAbs, Straight, Slack, Follows;
    Fractions(w.duration as real, 0.0, time as real);
    var part := 1.0 - time as real / w.duration as real;
    var back := CubicSpline(w.slopeOut, w.slopeIn, part);
    CurveMirrored(w.slopeIn, w.slopeOut, part);
    CurveStart(w.slopeOut, w.slopeIn, part);
    LerpMirrored(w.start.x, w.end.x, back);
    LerpMirrored(w.start.y, w.end.y, back);
    LerpNear(w.end.x, w.start.x, back, w.slopeOut, w.slopeIn, part);
    LerpNear(w.end.y, w.start.y, back, w.slopeOut, w.slopeIn, part);
  }

  // ---------------------------------------------------------------- which points

  /** The moves are exactly the end and the points at the even times before it, as far as
      they are on the touch screen. */
  lemma {:induction false} PathExactly(w: Swipe, props: Props, p: Point)
    requires w.duration != 0
    ensures p in Path(w, props) <==>
            && 0 <= p.x <= props.maxX && 0 <= p.y <= props.maxY
            && (p == w.end || exists k :: 0 < 2 * k < w.duration && p == PointAt(w, 2 * k))
  {
    var n := SampleCount(w.duration);
    SamplesExactly(w, props, n, p);
    if k :| 0 < k <= n && p == PointAt(w, TIME_INTERVAL * k) {
      assert 0 < 2 * k < w.duration && p == PointAt(w, 2 * k);
    }
    if k :| 0 < 2 * k < w.duration && p == PointAt(w, 2 * k) {
      assert 0 < k <= n && p == PointAt(w, TIME_INTERVAL * k);
    }
  }

  lemma {:induction false} SamplesExactly(w: Swipe, props: Props, n: nat, p: Point)
    requires w.duration != 0
    ensures p in Samples(w, props, n) <==>
            InRange(props, p) && exists k :: 0 < k <= n && p == PointAt(w, TIME_INTERVAL * k)
  {
    hide PointAt;
    if n > 0 {
      SamplesExactly(w, props, n - 1, p);
    }
  }

  // ---------------------------------------------------------------- the touches

  datatype Touch = Down(p: Point) | Move(p: Point) | Up

  function Moves(points: seq<Point>): seq<Touch> {
    seq(|points|, i requires 0 <= i < |points| => Move(points[i]))
  }

  function Clamp(v: int, low: int, high: int): int {
    if v < low then low else if high < v then high else v
  }

  /** The start of a swipe is brought onto the screen. */
  function OnScreen(p: Point, width: int, height: int): Point {
    Point(Clamp(p.x, 0, width - 1), Clamp(p.y, 0, height - 1))
  }

  function Distance(a: int, b: int): nat {
    if a < b then b - a else a - b
  }

  /** No point of the screen is nearer on either axis. */
  lemma {:induction false} OnScreenNearest(p: Point, width: int, height: int, q: Point)
    requires 0 <= q.x < width && 0 <= q.y < height
    ensures var r := OnScreen(p, width, height);
            && 0 <= r.x < width && 0 <= r.y < height
            && Distance(r.x, p.x) <= Distance(q.x, p.x) && Distance(r.y, p.y) <= Distance(q.y, p.y)
  {
  }

  class Minitoucher {
    var touches: seq<Touch>
    const props: Props

    constructor (props: Props)
      ensures touches == [] && this.props == props
    {
      touches := [];
      this.props := props;
    }

    method Put(touch: Touch)
      modifies this
      ensures touches == old(touches) + [touch]
    {
      touches := touches + [touch];
    }

    method MinitouchMove(w: Swipe)
      requires w.duration != 0
      modifies this
      ensures touches == old(touches) + Moves(Path(w, props))
    {
      ghost var n := 0;
      var curTime := TIME_INTERVAL;
      while curTime < w.duration
        invariant curTime == TIME_INTERVAL * (n + 1) && n <= SampleCount(w.duration)
        invariant touches == old(touches) + Moves(Samples(w, props, n))
      {
        var progress := CubicSpline(w.slopeIn, w.slopeOut, curTime as real / w.duration as real);
        var curX := Truncate(Lerp(w.start.x, w.end.x, progress));
        var curY := Truncate(Lerp(w.start.y, w.end.y, progress));
        n := n + 1;
        if !(curX < 0 || curX > props.maxX || curY < 0 || curY > props.maxY) {
          Put(Move(Point(curX, curY)));
        }
        curTime := curTime + TIME_INTERVAL;
      }
      if 0 <= w.end.x <= props.maxX && 0 <= w.end.y <= props.maxY {
        Put(Move(w.end));
      }
    }

    /** The swipe with no extra leg and no pause. */
    method SwipeWithoutScale(w: Swipe, width: int, height: int)
      requires w.duration != 0 && width > 0 && height > 0
      modifies this
      ensures var onScreen := w.(start := OnScreen(w.start, width, height));
              touches == old(touches) + [Down(onScreen.start)] + Moves(Path(onScreen, props)) + [Up]
    {
      var x1, y1 := w.start.x, w.start.y;
      if x1 < 0 || x1 >= width || y1 < 0 || y1 >= height {
        x1, y1 := Clamp(x1, 0, width - 1), Clamp(y1, 0, height - 1);
      }
      Put(Down(Point(x1, y1)));
      MinitouchMove(w.(start := Point(x1, y1)));
      Put(Up);
    }
  }
}

/**
  Numeric conventions shared by the whole model.

  JavaScript numbers are modelled as mathematical reals. The host's `Math.cos`,
  `Math.sin` and `Math.sqrt` (through `Math.hypot`) are not computable here, so
  they enter as a `MathLib` value of plain functions, constrained only by the
  facts the model needs (`Valid`). `Math.floor`, `Math.ceil`, `Math.round` and
  the `%` operator are defined exactly.
 */
module Numerics {

  /** `Math.PI` as the shortest decimal that denotes the same double. */
  const PI: real := 3.141592653589793

  /** The host's transcendental functions, passed in explicitly. */
  datatype MathLib = MathLib(cos: real -> real, sin: real -> real, sqrt: real -> real)

  /** The only facts the model assumes about the host's functions. */
  ghost predicate Valid(m: MathLib) {
    && m.cos(0.0) == 1.0
    && m.sin(0.0) == 0.0
    && (forall a :: m.cos(a) * m.cos(a) + m.sin(a) * m.sin(a) == 1.0)
    && (forall x :: x >= 0.0 ==> m.sqrt(x) >= 0.0 && m.sqrt(x) * m.sqrt(x) == x)
  }

  /** `Math.hypot(x, y)`. */
  function Hypot(m: MathLib, x: real, y: real): real {
    m.sqrt(x * x + y * y)
  }

  lemma MulPos(a: real, b: real)
    requires a > 0.0 && b > 0.0
    ensures a * b > 0.0
  {
  }

  lemma MulNonNeg(a: real, b: real)
    requires a >= 0.0 && b >= 0.0
    ensures a * b >= 0.0
  {
  }

  /** A non-negative root is determined by its square. */
  lemma RootUnique(r: real, s: real)
    requires r >= 0.0 && s >= 0.0 && r * r == s * s
    ensures r == s
  {
    if r > s {
      MulPos(r - s, r + s);
      assert false;
    } else if r < s {
      MulPos(s - r, r + s);
      assert false;
    }
  }

  lemma SquareLt(a: real, b: real)
    requires 0.0 <= a < b
    ensures a * a < b * b
  {
    MulPos(b - a, b + a);
    assert (b - a) * (b + a) == b * b - a * a;
  }

  /** Comparing a hypotenuse with a non-negative bound is comparing squares. */
  lemma HypotCompare(m: MathLib, x: real, y: real, b: real)
    requires Valid(m) && b >= 0.0
    ensures Hypot(m, x, y) > b <==> x * x + y * y > b * b
    ensures Hypot(m, x, y) >= b <==> x * x + y * y >= b * b
  {
    var s := x * x + y * y;
    assert s >= 0.0;
    var h := m.sqrt(s);
    assert h >= 0.0 && h * h == s;
    if h > b {
      SquareLt(b, h);
    } else if h < b {
      SquareLt(h, b);
    }
  }

  lemma DivMonotone(a: real, b: real, d: real)
    requires a <= b && d > 0.0
    ensures a / d <= b / d
  {
    var qa, qb := a / d, b / d;
    assert qa * d == a && qb * d == b;
    if qa > qb {
      MulPos(qa - qb, d);
      assert false;
    }
  }

  /** A part of a positive whole is a fraction in `[0, 1]` of it. */
  lemma RatioInUnit(part: real, whole: real)
    requires 0.0 <= part <= whole && whole > 0.0
    ensures 0.0 <= part / whole <= 1.0
  {
    DivMonotone(0.0, part, whole);
    DivMonotone(part, whole, whole);
  }

  lemma ScaleNonPositive(k: real, x: real, y: real)
    requires k <= 0.0 && x <= y
    ensures k * y <= k * x
  {
    MulNonNeg(-k, y - x);
  }

  /** `b` lies on the closed interval between `a` and `c`, in either order. */
  predicate Between(a: real, b: real, c: real) {
    (a <= b <= c) || (c <= b <= a)
  }

  /** Linear interpolation with a factor in `[0, 1]` stays between its ends. */
  lemma Lerp(a: real, c: real, t: real)
    requires 0.0 <= t <= 1.0
    ensures Between(a, a + (c - a) * t, c)
  {
    var d := c - a;
    if d >= 0.0 {
      MulNonNeg(d, t);
      MulNonNeg(d, 1.0 - t);
      assert d * (1.0 - t) == d - d * t;
    } else {
      MulNonNeg(-d, t);
      MulNonNeg(-d, 1.0 - t);
      assert (-d) * (1.0 - t) == d * t - d;
    }
  }

  function Min(a: real, b: real): (r: real)
    ensures r <= a && r <= b && (r == a || r == b)
  {
    if a <= b then a else b
  }

  function Max(a: real, b: real): (r: real)
    ensures r >= a && r >= b && (r == a || r == b)
  {
    if a >= b then a else b
  }

  function Abs(a: real): (r: real)
    ensures r >= 0.0 && (r == a || r == -a)
  {
    if a < 0.0 then -a else a
  }

  /** `Math.floor`. */
  function Floor(x: real): (r: int)
    ensures r as real <= x < r as real + 1.0
  {
    x.Floor
  }

  lemma FloorMonotone(a: real, b: real)
    requires a <= b
    ensures Floor(a) <= Floor(b)
  {
  }

  /** `Math.ceil`. */
  function Ceil(x: real): (r: int)
    ensures r as real - 1.0 < x <= r as real
  {
    -((-x).Floor)
  }

  /** `Math.round`: halves round towards positive infinity. */
  function Round(x: real): (r: int)
    ensures r as real - 0.5 <= x < r as real + 0.5
  {
    (x + 0.5).Floor
  }

  /** Truncation towards zero, as JavaScript's `%` uses it. */
  function Trunc(x: real): (r: int)
    ensures Abs(r as real) <= Abs(x) < Abs(r as real) + 1.0
    ensures x >= 0.0 ==> r >= 0
    ensures x <= 0.0 ==> r <= 0
  {
    if x >= 0.0 then x.Floor else -((-x).Floor)
  }

  /** JavaScript `x % p`: the remainder carries the sign of the dividend. */
  function JsMod(x: real, p: real): real
    requires p != 0.0
  {
    x - p * Trunc(x / p) as real
  }

  /** The arithmetic core of `JsModNonNegative`, free of function symbols. */
  lemma RemainderBounds(x: real, p: real, q: real, kr: real)
    requires x >= 0.0 && p > 0.0 && q * p == x && kr <= q < kr + 1.0
    ensures 0.0 <= x - p * kr < p
  {
    RemainderLower(x, p, q, kr);
    RemainderUpper(x, p, q, kr);
  }

  lemma RemainderLower(x: real, p: real, q: real, kr: real)
    requires p > 0.0 && q * p == x && kr <= q
    ensures 0.0 <= x - p * kr
  {
    MulNonNeg(q - kr, p);
    var t := (q - kr) * p;
    assert t >= 0.0;
    assert t == x - kr * p;
    assert p * kr == kr * p;
  }

  lemma RemainderUpper(x: real, p: real, q: real, kr: real)
    requires p > 0.0 && q * p == x && q < kr + 1.0
    ensures x - p * kr < p
  {
    MulPos(kr + 1.0 - q, p);
    var t := (kr + 1.0 - q) * p;
    assert t > 0.0;
    assert t == kr * p + p - x;
    assert kr * p + p - x > 0.0;
    assert p * kr == kr * p;
  }

  /**
    For a non-negative dividend and a positive period the remainder lies in
    `[0, p)` and differs from `x` by a whole number of periods, which is the
    `x - p * floor(x / p)` form.
   */
  lemma JsModNonNegative(x: real, p: real)
    requires x >= 0.0 && p > 0.0
    ensures 0.0 <= JsMod(x, p) < p
    ensures JsMod(x, p) == x - p * Floor(x / p) as real
  {
    var q := x / p;
    assert q * p == x;
    if q < 0.0 {
      MulPos(-q, p);
      assert false;
    }
    assert Trunc(q) == Floor(q);
    RemainderBounds(x, p, q, Floor(q) as real);
  }
}

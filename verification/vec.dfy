/** Two-dimensional vectors (the vector helpers of the simulation). */
module Vec {
  import opened Numerics

  datatype Vec2 = Vec2(x: real, y: real)

  /** `vec2(x, y)`. */
  function MakeVec(x: real, y: real): (v: Vec2)
    ensures v.x == x && v.y == y
  {
    Vec2(x, y)
  }

  /** `add(a, b)`: the componentwise sum. */
  function Add(a: Vec2, b: Vec2): (v: Vec2)
    ensures v.x == a.x + b.x && v.y == a.y + b.y
  {
    Vec2(a.x + b.x, a.y + b.y)
  }

  /** `scale(a, s)`: both components multiplied by `s`. */
  function Scale(a: Vec2, s: real): (v: Vec2)
    ensures v.x == a.x * s && v.y == a.y * s
  {
    Vec2(a.x * s, a.y * s)
  }

  /** Squared Euclidean length, the form used for all length comparisons. */
  function LengthSq(a: Vec2): (r: real)
    ensures r >= 0.0
  {
    a.x * a.x + a.y * a.y
  }

  /** `length`: the Euclidean length of the vector. */
  function Length(m: MathLib, a: Vec2): (r: real)
    requires Valid(m)
    ensures r >= 0.0 && r * r == LengthSq(a)
  {
    Hypot(m, a.x, a.y)
  }

  /** Scaling scales the squared length by the square of the factor. */
  lemma ScaleLengthSq(a: Vec2, s: real)
    ensures LengthSq(Scale(a, s)) == s * s * LengthSq(a)
  {
    assert (a.x * s) * (a.x * s) == s * s * (a.x * a.x);
    assert (a.y * s) * (a.y * s) == s * s * (a.y * a.y);
  }

  /** The examples used by the vector tests. */
  lemma VectorExamples(m: MathLib)
    requires Valid(m)
    ensures Add(Vec2(3.0, 4.0), Vec2(1.0, 2.0)) == Vec2(4.0, 6.0)
    ensures Scale(Vec2(3.0, 4.0), 2.0) == Vec2(6.0, 8.0)
    ensures Length(m, Vec2(3.0, 4.0)) == 5.0
  {
    var l := Length(m, Vec2(3.0, 4.0));
    assert l * l == 5.0 * 5.0;
    RootUnique(l, 5.0);
  }
}

/** `DecimalVector3d`: a three-component decimal vector, with the non-mutating operators
    as functions on the `Vector3` value and the in-place ones (`assign`, `normalize`,
    `+= -= *= /=` by a scalar) as methods of `MutableVector3`. The four ownership
    variants of every Rust operator (value/reference on either side) compute the same
    value and are modelled once. */
module DecimalVector {
  import opened Numerics

  datatype Vector3 = Vector3(x: real, y: real, z: real)

  /** The zero vector: the identity of vector addition. */
  function Zero(): (r: Vector3)
    ensures r.x == 0.0 && r.y == 0.0 && r.z == 0.0
    ensures forall v :: Add(v, r) == v
  {
    Vector3(0.0, 0.0, 0.0)
  }

  /** The vector whose three components are all `s`, the broadcast of a scalar operand. */
  function Splat(s: real): Vector3 {
    Vector3(s, s, s)
  }

  // Vector (op) vector: componentwise.

  function Add(a: Vector3, b: Vector3): Vector3 {
    Vector3(a.x + b.x, a.y + b.y, a.z + b.z)
  }

  function Sub(a: Vector3, b: Vector3): Vector3 {
    Vector3(a.x - b.x, a.y - b.y, a.z - b.z)
  }

  function Mul(a: Vector3, b: Vector3): Vector3 {
    Vector3(a.x * b.x, a.y * b.y, a.z * b.z)
  }

  /** Componentwise quotient; the decimal division panics on a zero divisor. */
  function Div(a: Vector3, b: Vector3): Vector3
    requires b.x != 0.0 && b.y != 0.0 && b.z != 0.0
  {
    Vector3(a.x / b.x, a.y / b.y, a.z / b.z)
  }

  // Vector (op) scalar: the scalar is applied to every component.

  function AddScalar(v: Vector3, s: real): Vector3 {
    Vector3(v.x + s, v.y + s, v.z + s)
  }

  function SubScalar(v: Vector3, s: real): Vector3 {
    Vector3(v.x - s, v.y - s, v.z - s)
  }

  function MulScalar(v: Vector3, s: real): Vector3 {
    Vector3(v.x * s, v.y * s, v.z * s)
  }

  function DivScalar(v: Vector3, s: real): Vector3
    requires s != 0.0
  {
    Vector3(v.x / s, v.y / s, v.z / s)
  }

  function Dot(a: Vector3, b: Vector3): real {
    a.x * b.x + a.y * b.y + a.z * b.z
  }

  /** Right-handed cross product; the result is orthogonal to both operands. */
  function Cross(a: Vector3, b: Vector3): (r: Vector3)
    ensures Dot(a, r) == 0.0 && Dot(b, r) == 0.0
  {
    var r := Vector3(a.y * b.z - a.z * b.y, a.z * b.x - a.x * b.z, a.x * b.y - a.y * b.x);
    assert Dot(a, r) == a.x * (a.y * b.z) - a.x * (a.z * b.y) + a.y * (a.z * b.x) - a.y * (a.x * b.z)
                        + a.z * (a.x * b.y) - a.z * (a.y * b.x);
    assert Dot(b, r) == b.x * (a.y * b.z) - b.x * (a.z * b.y) + b.y * (a.z * b.x) - b.y * (a.x * b.z)
                        + b.z * (a.x * b.y) - b.z * (a.y * b.x);
    r
  }

  /** The squared Euclidean length: the dot product of the vector with itself. */
  function LengthSquared(v: Vector3): (r: real)
    ensures r == Dot(v, v)
    ensures r >= 0.0
  {
    v.x * v.x + v.y * v.y + v.z * v.z
  }

  function Length(v: Vector3, sqrt: real -> real): real {
    sqrt(v.x * v.x + v.y * v.y + v.z * v.z)
  }

  /** `self.distance_to(rhs)`: the length of `self - rhs`. */
  function DistanceTo(a: Vector3, b: Vector3, sqrt: real -> real): real {
    Length(Sub(a, b), sqrt)
  }

  /** `normalized()`: the vector divided by its length, which must not be zero. */
  function Normalized(v: Vector3, sqrt: real -> real): Vector3
    requires Length(v, sqrt) != 0.0
  {
    DivScalar(v, Length(v, sqrt))
  }

  /** The index-addressed view of a vector's components (0 is x, 1 is y, 2 is z). */
  function Component(v: Vector3, i: nat): real
    requires i < 3
  {
    if i == 0 then v.x else if i == 1 then v.y else v.z
  }

  // ---------------------------------------------------------------------------
  // Algebraic laws of the operators.

  lemma AddCommutes(a: Vector3, b: Vector3)
    ensures Add(a, b) == Add(b, a)
  {
  }

  lemma AddThenSubCancels(a: Vector3, b: Vector3)
    ensures Sub(Add(a, b), b) == a
  {
  }

  lemma SubThenAddCancels(a: Vector3, b: Vector3)
    ensures Add(Sub(a, b), b) == a
  {
  }

  lemma MulThenDivCancels(a: Vector3, b: Vector3)
    requires b.x != 0.0 && b.y != 0.0 && b.z != 0.0
    ensures Div(Mul(a, b), b) == a
  {
  }

  /** Each scalar operator equals the vector operator applied to the broadcast scalar. */
  lemma ScalarOperatorsBroadcast(v: Vector3, s: real)
    ensures AddScalar(v, s) == Add(v, Splat(s))
    ensures SubScalar(v, s) == Sub(v, Splat(s))
    ensures MulScalar(v, s) == Mul(v, Splat(s))
    ensures s != 0.0 ==> DivScalar(v, s) == Div(v, Splat(s))
  {
  }

  lemma ScalarAddSubCancel(v: Vector3, s: real)
    ensures SubScalar(AddScalar(v, s), s) == v
  {
  }

  lemma ScalarMulDivCancel(v: Vector3, s: real)
    requires s != 0.0
    ensures DivScalar(MulScalar(v, s), s) == v
  {
  }

  lemma DotSymmetric(a: Vector3, b: Vector3)
    ensures Dot(a, b) == Dot(b, a)
  {
  }

  /** Scaling one operand scales the dot product. */
  lemma DotScales(a: Vector3, s: real, b: Vector3)
    ensures Dot(MulScalar(a, s), b) == s * Dot(a, b)
  {
    assert Dot(MulScalar(a, s), b) == s * (a.x * b.x) + s * (a.y * b.y) + s * (a.z * b.z);
  }

  lemma CrossAntiCommutes(a: Vector3, b: Vector3)
    ensures Cross(a, b) == MulScalar(Cross(b, a), -1.0)
  {
  }

  lemma CrossSelfIsZero(a: Vector3)
    ensures Cross(a, a) == Zero()
  {
  }

  /** Only the zero vector has squared length zero. */
  lemma LengthSquaredZeroIffZero(v: Vector3)
    ensures LengthSquared(v) == 0.0 <==> v == Zero()
  {
    if LengthSquared(v) == 0.0 {
      SquareNonnegative(v.x);
      SquareNonnegative(v.y);
      SquareNonnegative(v.z);
      assert v.x * v.x == 0.0 && v.y * v.y == 0.0 && v.z * v.z == 0.0;
      SquareZero(v.x);
      SquareZero(v.y);
      SquareZero(v.z);
    }
  }

  /** Under the square-root law `length()` is a non-negative number whose square is
      `length_squared()`. */
  lemma LengthIsRootOfLengthSquared(v: Vector3, sqrt: real -> real)
    requires IsSqrt(sqrt)
    ensures Length(v, sqrt) >= 0.0
    ensures Length(v, sqrt) * Length(v, sqrt) == LengthSquared(v)
  {
    SqrtLaw(sqrt, LengthSquared(v));
  }

  /** Under the square-root law only the zero vector has length zero, so `normalize` is
      defined exactly for nonzero vectors. */
  lemma LengthZeroIffZero(v: Vector3, sqrt: real -> real)
    requires IsSqrt(sqrt)
    ensures Length(v, sqrt) == 0.0 <==> v == Zero()
  {
    LengthIsRootOfLengthSquared(v, sqrt);
    LengthSquaredZeroIffZero(v);
    RootZero(Length(v, sqrt), LengthSquared(v));
  }

  lemma DistanceIsLengthOfDifference(a: Vector3, b: Vector3, sqrt: real -> real)
    ensures DistanceTo(a, b, sqrt) == sqrt(LengthSquared(Sub(a, b)))
  {
  }

  lemma DistanceSymmetric(a: Vector3, b: Vector3, sqrt: real -> real)
    ensures DistanceTo(a, b, sqrt) == DistanceTo(b, a, sqrt)
  {
    var d, e := Sub(a, b), Sub(b, a);
    assert e == MulScalar(d, -1.0);
    NegatedSquare(d.x);
    NegatedSquare(d.y);
    NegatedSquare(d.z);
    assert LengthSquared(d) == LengthSquared(e);
  }

  lemma NegatedSquare(a: real)
    ensures (a * -1.0) * (a * -1.0) == a * a
  {
  }

  /** The normalized vector, scaled back by the original length, gives the original
      vector; its squared length times the squared length of the original is the
      squared length of the original, so under the square-root law (where
      `Length * Length == LengthSquared`) it has unit length. */
  lemma NormalizedRescales(v: Vector3, sqrt: real -> real)
    requires Length(v, sqrt) != 0.0
    ensures MulScalar(Normalized(v, sqrt), Length(v, sqrt)) == v
    ensures LengthSquared(Normalized(v, sqrt)) * (Length(v, sqrt) * Length(v, sqrt)) == LengthSquared(v)
  {
    ScaledSquares(v, Length(v, sqrt));
  }

  /** Under the square-root law the normalized vector has unit length. */
  lemma NormalizedUnit(v: Vector3, sqrt: real -> real)
    requires IsSqrt(sqrt) && Length(v, sqrt) != 0.0
    ensures LengthSquared(Normalized(v, sqrt)) == 1.0
  {
    var l := Length(v, sqrt);
    NormalizedRescales(v, sqrt);
    LengthIsRootOfLengthSquared(v, sqrt);
    SquareZero(l);
    UnitFactor(LengthSquared(Normalized(v, sqrt)), l * l, LengthSquared(v));
  }

  /** Dividing by `l` divides the squared length by `l * l`. */
  lemma ScaledSquares(v: Vector3, l: real)
    requires l != 0.0
    ensures LengthSquared(DivScalar(v, l)) * (l * l) == LengthSquared(v)
  {
    QuotientSquare(v.x, l);
    QuotientSquare(v.y, l);
    QuotientSquare(v.z, l);
    var a, b, c := v.x / l, v.y / l, v.z / l;
    assert DivScalar(v, l) == Vector3(a, b, c);
    DistributeThree(a * a, b * b, c * c, l * l);
  }

  // ---------------------------------------------------------------------------

  /** A vector updated in place through `&mut self`: `assign`, `normalize` and the
      compound-assignment operators change its three components and nothing else. */
  class MutableVector3 {
    var x: real
    var y: real
    var z: real

    function Value(): Vector3
      reads this
    {
      Vector3(x, y, z)
    }

    constructor (v: Vector3)
      ensures Value() == v
    {
      x, y, z := v.x, v.y, v.z;
    }

    /** `assign(v)`: copy the three components of `v`. */
    method Assign(v: Vector3)
      modifies this
      ensures Value() == v
    {
      x := v.x;
      y := v.y;
      z := v.z;
    }

    /** `+= s` */
    method AddAssign(s: real)
      modifies this
      ensures Value() == AddScalar(old(Value()), s)
    {
      x := x + s;
      y := y + s;
      z := z + s;
    }

    /** `-= s` */
    method SubAssign(s: real)
      modifies this
      ensures Value() == SubScalar(old(Value()), s)
    {
      x := x - s;
      y := y - s;
      z := z - s;
    }

    /** `*= s` */
    method MulAssign(s: real)
      modifies this
      ensures Value() == MulScalar(old(Value()), s)
    {
      x := x * s;
      y := y * s;
      z := z * s;
    }

    /** `/= s`; the decimal division panics when `s` is zero. */
    method DivAssign(s: real)
      requires s != 0.0
      modifies this
      ensures Value() == DivScalar(old(Value()), s)
    {
      x := x / s;
      y := y / s;
      z := z / s;
    }

    /** `normalize()`: divide in place by the current length, leaving the value that
        `normalized()` would have returned. */
    method Normalize(sqrt: real -> real)
      requires Length(Value(), sqrt) != 0.0
      modifies this
      ensures Value() == Normalized(old(Value()), sqrt)
    {
      var len := Length(Value(), sqrt);
      DivAssign(len);
    }
  }

  /** `+=` then `-=` by the same scalar restores the vector. */
  method AddAssignThenSubAssignRestores(v: MutableVector3, s: real)
    modifies v
    ensures v.Value() == old(v.Value())
  {
    v.AddAssign(s);
    v.SubAssign(s);
    ScalarAddSubCancel(old(v.Value()), s);
  }
}

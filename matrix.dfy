/** `DecimalMatrix3d`: a 3×3 decimal matrix stored as three rows, with the identity, the
    Rodrigues axis–angle rotation, the (transposed) application to a vector and the
    conversion to a quaternion by Shepperd's trace / largest-diagonal branch selection. */
module DecimalMatrix {
  import opened Numerics
  import opened DecimalVector

  /** The three rows of three entries, as a value: the fixed-size `[[DBig; 3]; 3]`. */
  datatype Matrix3 = Matrix3(row0: Vector3, row1: Vector3, row2: Vector3)

  /** The decimal constant one half used by the quaternion conversion. */
  const HALF: real := 0.5

  /** `data[r]`. */
  function Row(m: Matrix3, r: nat): Vector3
    requires r < 3
  {
    if r == 0 then m.row0 else if r == 1 then m.row1 else m.row2
  }

  /** `data[r][c]`. */
  function At(m: Matrix3, r: nat, c: nat): real
    requires r < 3 && c < 3
  {
    Component(Row(m, r), c)
  }

  /** The matrix built from its nine entries, row by row. */
  function FromRows(a00: real, a01: real, a02: real,
                    a10: real, a11: real, a12: real,
                    a20: real, a21: real, a22: real): Matrix3
  {
    Matrix3(Vector3(a00, a01, a02), Vector3(a10, a11, a12), Vector3(a20, a21, a22))
  }

  /** Two matrices with the same nine entries are the same matrix. */
  lemma MatrixExt(a: Matrix3, b: Matrix3)
    requires forall r, c :: 0 <= r < 3 && 0 <= c < 3 ==> At(a, r, c) == At(b, r, c)
    ensures a == b
  {
    assert At(a, 0, 0) == At(b, 0, 0) && At(a, 0, 1) == At(b, 0, 1) && At(a, 0, 2) == At(b, 0, 2);
    assert At(a, 1, 0) == At(b, 1, 0) && At(a, 1, 1) == At(b, 1, 1) && At(a, 1, 2) == At(b, 1, 2);
    assert At(a, 2, 0) == At(b, 2, 0) && At(a, 2, 1) == At(b, 2, 1) && At(a, 2, 2) == At(b, 2, 2);
  }

  /** `identity()`: one on the diagonal, zero everywhere else. */
  function Identity(): Matrix3 {
    FromRows(1.0, 0.0, 0.0,
             0.0, 1.0, 0.0,
             0.0, 0.0, 1.0)
  }

  lemma IdentityEntries()
    ensures forall r, c :: 0 <= r < 3 && 0 <= c < 3 ==> At(Identity(), r, c) == if r == c then 1.0 else 0.0
  {
    forall r, c | 0 <= r < 3 && 0 <= c < 3
      ensures At(Identity(), r, c) == if r == c then 1.0 else 0.0
    {
      assert r == 0 || r == 1 || r == 2;
      assert c == 0 || c == 1 || c == 2;
    }
  }

  /** The body of `axis_angle` once its cosine `c` and sine `s` are known (Rodrigues'
      formula, laid out as the engine lays it out). */
  function Rotation(axis: Vector3, c: real, s: real): Matrix3 {
    FromRows((1.0 - c) * axis.x * axis.x + c, (1.0 - c) * axis.x * axis.y - axis.z * s, (1.0 - c) * axis.z * axis.x + axis.y * s,
             (1.0 - c) * axis.x * axis.y + axis.z * s, (1.0 - c) * axis.y * axis.y + c, (1.0 - c) * axis.y * axis.z - axis.x * s,
             (1.0 - c) * axis.z * axis.x - axis.y * s, (1.0 - c) * axis.y * axis.z + axis.x * s, (1.0 - c) * axis.z * axis.z + c)
  }

  /** `axis_angle(axis, angle)`: the angle is negated before its cosine and sine are taken,
      each with `SERIES_TERMS` series terms. */
  function AxisAngle(axis: Vector3, angle: real, trig: Trig): Matrix3 {
    Rotation(axis, trig.cos(-angle, SERIES_TERMS), trig.sin(-angle, SERIES_TERMS))
  }

  /** `apply(v)`: component `c` of the result sums `data[r][c] * v[r]` over the rows `r`,
      so the stored matrix is applied transposed. */
  function Apply(m: Matrix3, v: Vector3): Vector3 {
    Vector3(0.0 + At(m, 0, 0) * v.x + At(m, 1, 0) * v.y + At(m, 2, 0) * v.z,
            0.0 + At(m, 0, 1) * v.x + At(m, 1, 1) * v.y + At(m, 2, 1) * v.z,
            0.0 + At(m, 0, 2) * v.x + At(m, 1, 2) * v.y + At(m, 2, 2) * v.z)
  }

  // ---------------------------------------------------------------------------
  // Independent reference definitions for `apply`.

  function Transpose(m: Matrix3): (t: Matrix3)
    ensures forall r, c {:trigger At(t, r, c)} :: 0 <= r < 3 && 0 <= c < 3 ==> At(t, r, c) == At(m, c, r)
  {
    FromRows(At(m, 0, 0), At(m, 1, 0), At(m, 2, 0),
             At(m, 0, 1), At(m, 1, 1), At(m, 2, 1),
             At(m, 0, 2), At(m, 1, 2), At(m, 2, 2))
  }

  /** The textbook row-major product: component `r` is the dot product of row `r` with `v`. */
  function MulRowMajor(m: Matrix3, v: Vector3): Vector3 {
    Vector3(Dot(Row(m, 0), v), Dot(Row(m, 1), v), Dot(Row(m, 2), v))
  }

  /** `apply` is the textbook product with the transposed matrix. */
  lemma ApplyIsTransposedProduct(m: Matrix3, v: Vector3)
    ensures Apply(m, v) == MulRowMajor(Transpose(m), v)
  {
    var t := Transpose(m);
    assert Row(t, 0) == Vector3(At(m, 0, 0), At(m, 1, 0), At(m, 2, 0));
    assert Row(t, 1) == Vector3(At(m, 0, 1), At(m, 1, 1), At(m, 2, 1));
    assert Row(t, 2) == Vector3(At(m, 0, 2), At(m, 1, 2), At(m, 2, 2));
  }

  lemma ApplyIdentity(v: Vector3)
    ensures Apply(Identity(), v) == v
  {
    var i := Identity();
    assert At(i, 0, 0) == 1.0 && At(i, 1, 0) == 0.0 && At(i, 2, 0) == 0.0;
    assert At(i, 0, 1) == 0.0 && At(i, 1, 1) == 1.0 && At(i, 2, 1) == 0.0;
    assert At(i, 0, 2) == 0.0 && At(i, 1, 2) == 0.0 && At(i, 2, 2) == 1.0;
  }

  /** Component `c` of `apply(v)`: column `c` weighted by the components of `v`. */
  function ColumnSum(m: Matrix3, c: nat, v: Vector3): real
    requires c < 3
  {
    0.0 + At(m, 0, c) * v.x + At(m, 1, c) * v.y + At(m, 2, c) * v.z
  }

  lemma ApplyByColumns(m: Matrix3, v: Vector3)
    ensures Apply(m, v) == Vector3(ColumnSum(m, 0, v), ColumnSum(m, 1, v), ColumnSum(m, 2, v))
  {
  }

  lemma ColumnSumAdditive(m: Matrix3, c: nat, u: Vector3, v: Vector3)
    requires c < 3
    ensures ColumnSum(m, c, Add(u, v)) == ColumnSum(m, c, u) + ColumnSum(m, c, v)
  {
    var a, b, d := At(m, 0, c), At(m, 1, c), At(m, 2, c);
    assert a * (u.x + v.x) == a * u.x + a * v.x;
    assert b * (u.y + v.y) == b * u.y + b * v.y;
    assert d * (u.z + v.z) == d * u.z + d * v.z;
  }

  lemma ColumnSumHomogeneous(m: Matrix3, c: nat, v: Vector3, s: real)
    requires c < 3
    ensures ColumnSum(m, c, MulScalar(v, s)) == ColumnSum(m, c, v) * s
  {
    var a, b, d := At(m, 0, c), At(m, 1, c), At(m, 2, c);
    assert a * (v.x * s) == (a * v.x) * s;
    assert b * (v.y * s) == (b * v.y) * s;
    assert d * (v.z * s) == (d * v.z) * s;
  }

  /** `apply` distributes over vector addition. */
  lemma ApplyAdditive(m: Matrix3, u: Vector3, v: Vector3)
    ensures Apply(m, Add(u, v)) == Add(Apply(m, u), Apply(m, v))
  {
    ApplyByColumns(m, Add(u, v));
    ApplyByColumns(m, u);
    ApplyByColumns(m, v);
    ColumnSumAdditive(m, 0, u, v);
    ColumnSumAdditive(m, 1, u, v);
    ColumnSumAdditive(m, 2, u, v);
  }

  /** `apply` commutes with scaling. */
  lemma ApplyHomogeneous(m: Matrix3, v: Vector3, s: real)
    ensures Apply(m, MulScalar(v, s)) == MulScalar(Apply(m, v), s)
  {
    ApplyByColumns(m, MulScalar(v, s));
    ApplyByColumns(m, v);
    ColumnSumHomogeneous(m, 0, v, s);
    ColumnSumHomogeneous(m, 1, v, s);
    ColumnSumHomogeneous(m, 2, v, s);
  }

  // ---------------------------------------------------------------------------
  // Properties of the axis–angle construction.

  /** With cosine one and sine zero the construction is the identity, whatever the axis. */
  lemma RotationWithoutTurnIsIdentity(axis: Vector3)
    ensures Rotation(axis, 1.0, 0.0) == Identity()
  {
    MatrixExt(Rotation(axis, 1.0, 0.0), Identity());
  }

  /** `axis_angle` sees the angle only through cos(−angle) and sin(−angle): an angle whose
      negation has cosine one and sine zero gives the identity. */
  lemma AxisAngleWithoutTurnIsIdentity(axis: Vector3, angle: real, trig: Trig)
    requires trig.cos(-angle, SERIES_TERMS) == 1.0 && trig.sin(-angle, SERIES_TERMS) == 0.0
    ensures AxisAngle(axis, angle, trig) == Identity()
  {
    RotationWithoutTurnIsIdentity(axis);
  }

  // The entries of the construction, one lemma each: a proof that needs several of them
  // calls these rather than unfolding the whole matrix at once.

  lemma RotationEntry00(axis: Vector3, c: real, s: real)
    ensures At(Rotation(axis, c, s), 0, 0) == (1.0 - c) * axis.x * axis.x + c
  {
  }

  lemma RotationEntry01(axis: Vector3, c: real, s: real)
    ensures At(Rotation(axis, c, s), 0, 1) == (1.0 - c) * axis.x * axis.y - axis.z * s
  {
  }

  lemma RotationEntry02(axis: Vector3, c: real, s: real)
    ensures At(Rotation(axis, c, s), 0, 2) == (1.0 - c) * axis.z * axis.x + axis.y * s
  {
  }

  lemma RotationEntry10(axis: Vector3, c: real, s: real)
    ensures At(Rotation(axis, c, s), 1, 0) == (1.0 - c) * axis.x * axis.y + axis.z * s
  {
  }

  lemma RotationEntry11(axis: Vector3, c: real, s: real)
    ensures At(Rotation(axis, c, s), 1, 1) == (1.0 - c) * axis.y * axis.y + c
  {
  }

  lemma RotationEntry12(axis: Vector3, c: real, s: real)
    ensures At(Rotation(axis, c, s), 1, 2) == (1.0 - c) * axis.y * axis.z - axis.x * s
  {
  }

  lemma RotationEntry20(axis: Vector3, c: real, s: real)
    ensures At(Rotation(axis, c, s), 2, 0) == (1.0 - c) * axis.z * axis.x - axis.y * s
  {
  }

  lemma RotationEntry21(axis: Vector3, c: real, s: real)
    ensures At(Rotation(axis, c, s), 2, 1) == (1.0 - c) * axis.y * axis.z + axis.x * s
  {
  }

  lemma RotationEntry22(axis: Vector3, c: real, s: real)
    ensures At(Rotation(axis, c, s), 2, 2) == (1.0 - c) * axis.z * axis.z + c
  {
  }

  /** One component of Rodrigues' formula applied to its own unit axis, with `p` the
      component computed, `q`, `r` the other two in cyclic order and `e0`, `e1`, `e2` the
      entries of the column that weights them. */
  lemma RodriguesComponentFixed(c: real, s: real, p: real, q: real, r: real, e0: real, e1: real, e2: real)
    requires p * p + q * q + r * r == 1.0 || q * q + r * r + p * p == 1.0 || r * r + p * p + q * q == 1.0
    requires e0 == (1.0 - c) * p * p + c && e1 == (1.0 - c) * p * q + r * s && e2 == (1.0 - c) * r * p - q * s
    ensures e0 * p + e1 * q + e2 * r == p
  {
    assert e0 * p + e1 * q + e2 * r == (1.0 - c) * p * (p * p + q * q + r * r) + c * p;
  }

  /** A matrix whose columns, weighted by `v`'s components, give back `v` fixes `v`. */
  lemma ColumnsFix(m: Matrix3, v: Vector3)
    requires At(m, 0, 0) * v.x + At(m, 1, 0) * v.y + At(m, 2, 0) * v.z == v.x
    requires At(m, 1, 1) * v.y + At(m, 2, 1) * v.z + At(m, 0, 1) * v.x == v.y
    requires At(m, 2, 2) * v.z + At(m, 0, 2) * v.x + At(m, 1, 2) * v.y == v.z
    ensures Apply(m, v) == v
  {
  }

  /** For a unit axis the rotation leaves the axis where it is. */
  lemma RotationFixesUnitAxis(axis: Vector3, c: real, s: real)
    requires LengthSquared(axis) == 1.0
    ensures Apply(Rotation(axis, c, s), axis) == axis
  {
    RotationColumnFixesX(axis, c, s);
    RotationColumnFixesY(axis, c, s);
    RotationColumnFixesZ(axis, c, s);
    ColumnsFix(Rotation(axis, c, s), axis);
  }

  lemma RotationColumnFixesX(axis: Vector3, c: real, s: real)
    requires LengthSquared(axis) == 1.0
    ensures var m := Rotation(axis, c, s);
      At(m, 0, 0) * axis.x + At(m, 1, 0) * axis.y + At(m, 2, 0) * axis.z == axis.x
  {
    var m := Rotation(axis, c, s);
    RotationEntry00(axis, c, s);
    RotationEntry10(axis, c, s);
    RotationEntry20(axis, c, s);
    RodriguesComponentFixed(c, s, axis.x, axis.y, axis.z, At(m, 0, 0), At(m, 1, 0), At(m, 2, 0));
  }

  lemma RotationColumnFixesY(axis: Vector3, c: real, s: real)
    requires LengthSquared(axis) == 1.0
    ensures var m := Rotation(axis, c, s);
      At(m, 1, 1) * axis.y + At(m, 2, 1) * axis.z + At(m, 0, 1) * axis.x == axis.y
  {
    var m := Rotation(axis, c, s);
    RotationEntry11(axis, c, s);
    RotationEntry21(axis, c, s);
    RotationEntry01(axis, c, s);
    RodriguesComponentFixed(c, s, axis.y, axis.z, axis.x, At(m, 1, 1), At(m, 2, 1), At(m, 0, 1));
  }

  lemma RotationColumnFixesZ(axis: Vector3, c: real, s: real)
    requires LengthSquared(axis) == 1.0
    ensures var m := Rotation(axis, c, s);
      At(m, 2, 2) * axis.z + At(m, 0, 2) * axis.x + At(m, 1, 2) * axis.y == axis.z
  {
    var m := Rotation(axis, c, s);
    RotationEntry22(axis, c, s);
    RotationEntry02(axis, c, s);
    RotationEntry12(axis, c, s);
    RodriguesComponentFixed(c, s, axis.z, axis.x, axis.y, At(m, 2, 2), At(m, 0, 2), At(m, 1, 2));
  }

  /** Adding an entry to its mirror image cancels the sine terms:
      `data[r][c] + data[c][r] == 2 (1 − cos) axis[r] axis[c]` for `r != c`. */
  lemma RotationSymmetricPart(axis: Vector3, c: real, s: real)
    ensures At(Rotation(axis, c, s), 0, 1) + At(Rotation(axis, c, s), 1, 0) == 2.0 * (1.0 - c) * axis.x * axis.y
    ensures At(Rotation(axis, c, s), 0, 2) + At(Rotation(axis, c, s), 2, 0) == 2.0 * (1.0 - c) * axis.x * axis.z
    ensures At(Rotation(axis, c, s), 1, 2) + At(Rotation(axis, c, s), 2, 1) == 2.0 * (1.0 - c) * axis.y * axis.z
  {
    RotationEntry01(axis, c, s);
    RotationEntry10(axis, c, s);
    RotationEntry02(axis, c, s);
    RotationEntry20(axis, c, s);
    RotationEntry12(axis, c, s);
    RotationEntry21(axis, c, s);
  }

  // ---------------------------------------------------------------------------
  // Conversion to a quaternion.

  function Trace(m: Matrix3): real {
    At(m, 0, 0) + At(m, 1, 1) + At(m, 2, 2)
  }

  /** `i` is the index of a largest diagonal entry, and no earlier index has one as large. */
  ghost predicate IsPivot(m: Matrix3, i: nat) {
    i < 3
    && (forall j :: 0 <= j < 3 ==> At(m, j, j) <= At(m, i, i))
    && (forall j :: 0 <= j < i ==> At(m, j, j) < At(m, i, i))
  }

  /** The index `as_quat` settles on in its second branch: start from 0, move to 1 when
      `data[1][1]` is strictly larger, then to 2 when `data[2][2]` is strictly larger than
      the entry chosen so far. It is the first index of a largest diagonal entry. */
  function PivotIndex(m: Matrix3): (i: nat)
    ensures IsPivot(m, i)
  {
    var i: nat := if At(m, 1, 1) > At(m, 0, 0) then 1 else 0;
    if At(m, 2, 2) > At(m, i, i) then 2 else i
  }

  /** There is exactly one first largest diagonal index. */
  lemma PivotUnique(m: Matrix3, i: nat)
    ensures IsPivot(m, i) <==> i == PivotIndex(m)
  {
  }

  /** The two other indices, in cyclic order after `i`. */
  function Next(i: nat): nat { (i + 1) % 3 }
  function NextNext(i: nat): nat { (i + 2) % 3 }

  /** `(i, (i+1)%3, (i+2)%3)` is a permutation of 0, 1, 2, so together with slot 3 every
      slot of the quaternion is written exactly once. */
  lemma CyclicIndicesPermute(i: nat)
    requires i < 3
    ensures Next(i) < 3 && NextNext(i) < 3
    ensures i != Next(i) && i != NextNext(i) && Next(i) != NextNext(i)
    ensures {i, Next(i), NextNext(i)} == {0, 1, 2}
  {
  }

  /** The four slots of the second branch: `a` at the pivot `i`, `b` at slot 3 (w), `c`
      and `d` at the two other indices in cyclic order. Each slot receives exactly one
      of the four values. */
  function PivotSlots(i: nat, a: real, b: real, c: real, d: real): (q: seq<real>)
    requires i < 3
    ensures |q| == 4
    ensures q[i] == a && q[3] == b && q[Next(i)] == c && q[NextNext(i)] == d
  {
    CyclicIndicesPermute(i);
    [0.0, 0.0, 0.0, 0.0][i := a][3 := b][Next(i) := c][NextNext(i) := d]
  }

  /** The radicand of the second branch for pivot `i`. */
  function Radicand(m: Matrix3, i: nat): real
    requires i < 3
  {
    At(m, i, i) - At(m, Next(i), Next(i)) - At(m, NextNext(i), NextNext(i)) + 1.0
  }

  /** When `as_quat` does not panic: the decimal square root refuses a negative argument
      and the decimal division a zero divisor. */
  predicate QuatDefined(m: Matrix3, sqrt: real -> real) {
    if Trace(m) > 0.0 then
      sqrt(Trace(m) + 1.0) != 0.0
    else
      Radicand(m, PivotIndex(m)) >= 0.0 && sqrt(Radicand(m, PivotIndex(m))) != 0.0
  }

  /** Under the square-root law the only remaining demand is a nonzero root. */
  lemma QuatDefinedUnderSqrtLaw(m: Matrix3, sqrt: real -> real)
    requires IsSqrt(sqrt)
    ensures QuatDefined(m, sqrt) <==> (Trace(m) > 0.0 || Radicand(m, PivotIndex(m)) > 0.0)
  {
    if Trace(m) > 0.0 {
      var t := Trace(m) + 1.0;
      SqrtLaw(sqrt, t);
      RootZero(sqrt(t), t);
    } else {
      var r := Radicand(m, PivotIndex(m));
      if r >= 0.0 {
        SqrtLaw(sqrt, r);
        RootZero(sqrt(r), r);
      }
    }
  }

  /** The first branch, given the root of `trace + 1`: `w` is half the root and the
      other three slots are the antisymmetric differences times half its reciprocal. */
  function TraceBranch(m: Matrix3, root: real): (q: seq<real>)
    requires root != 0.0
    ensures |q| == 4
  {
    var w := HALF * root;
    var h := HALF / root;
    [(At(m, 1, 2) - At(m, 2, 1)) * h, (At(m, 2, 0) - At(m, 0, 2)) * h, (At(m, 0, 1) - At(m, 1, 0)) * h, w]
  }

  /** The three non-pivot slots of the second branch (w, then the two other indices in
      cyclic order): the antisymmetric difference and the two symmetric sums of the
      off-diagonal entries, each times half the reciprocal of the root. */
  function PivotOffDiagonal(m: Matrix3, i: nat, root: real): (real, real, real)
    requires i < 3 && root != 0.0
  {
    var j, k := Next(i), NextNext(i);
    var h := HALF / root;
    ((At(m, j, k) - At(m, k, j)) * h, (At(m, j, i) + At(m, i, j)) * h, (At(m, k, i) + At(m, i, k)) * h)
  }

  /** The second branch for pivot `i`, given the root of its radicand: half the root in
      the pivot slot and the off-diagonal parts in the others. */
  function PivotBranch(m: Matrix3, i: nat, root: real): (q: seq<real>)
    requires i < 3 && root != 0.0
    ensures |q| == 4
  {
    var off := PivotOffDiagonal(m, i, root);
    PivotSlots(i, HALF * root, off.0, off.1, off.2)
  }

  /** The quaternion `[x, y, z, w]` that `as_quat` returns, as a value. */
  function Quat(m: Matrix3, sqrt: real -> real): (q: seq<real>)
    requires QuatDefined(m, sqrt)
    ensures |q| == 4
  {
    if Trace(m) > 0.0 then
      TraceBranch(m, sqrt(Trace(m) + 1.0))
    else
      PivotBranch(m, PivotIndex(m), sqrt(Radicand(m, PivotIndex(m))))
  }

  /** `as_quat()`: the trace branch when the trace is strictly positive, otherwise the
      branch pivoting on the first largest diagonal entry, which fills a four-slot array
      by index. */
  method AsQuat(m: Matrix3, sqrt: real -> real) returns (q: seq<real>)
    requires QuatDefined(m, sqrt)
    ensures q == Quat(m, sqrt)
  {
    var trace := At(m, 0, 0) + At(m, 1, 1) + At(m, 2, 2);
    assert trace == Trace(m);
    if trace > 0.0 {
      q := TraceBranch(m, sqrt(trace + 1.0));
    } else {
      var i: nat := 0;
      if At(m, 1, 1) > At(m, 0, 0) {
        i := 1;
      }
      if At(m, 2, 2) > At(m, i, i) {
        i := 2;
      }
      assert i == PivotIndex(m);
      var j := (i + 1) % 3;
      var k := (i + 2) % 3;
      var root := sqrt(At(m, i, i) - At(m, j, j) - At(m, k, k) + 1.0);
      assert root == sqrt(Radicand(m, i));
      var off := PivotOffDiagonal(m, i, root);
      q := FillSlots(i, HALF * root, off.0, off.1, off.2);
    }
  }

  /** The index writes of the second branch: a four-slot array starting at zero receives
      `a` at the pivot `i`, `b` at slot 3, `c` at `(i+1)%3` and `d` at `(i+2)%3`. */
  method FillSlots(i: nat, a: real, b: real, c: real, d: real) returns (q: seq<real>)
    requires i < 3
    ensures q == PivotSlots(i, a, b, c, d)
  {
    var j := (i + 1) % 3;
    var k := (i + 2) % 3;
    CyclicIndicesPermute(i);
    var out := new real[4](_ => 0.0);
    out[i] := a;
    out[3] := b;
    out[j] := c;
    out[k] := d;
    q := out[..];
    PivotSlotsDetermined(q, i, a, b, c, d);
  }

  /** Four slots holding the four values at the places `PivotSlots` puts them are that
      sequence. */
  lemma PivotSlotsDetermined(q: seq<real>, i: nat, a: real, b: real, c: real, d: real)
    requires i < 3 && |q| == 4
    requires q[i] == a && q[3] == b && q[Next(i)] == c && q[NextNext(i)] == d
    ensures q == PivotSlots(i, a, b, c, d)
  {
    var p := PivotSlots(i, a, b, c, d);
    CyclicIndicesPermute(i);
    forall n | 0 <= n < 4
      ensures q[n] == p[n]
    {
      assert n == i || n == 3 || n == Next(i) || n == NextNext(i);
    }
  }

  /** A root times the matching half-quotient gives back the numerator. */
  lemma HalfRootProduct(r: real, a: real)
    requires r != 0.0
    ensures 4.0 * (HALF * r) * (a * (HALF / r)) == a
  {
    assert (HALF * r) * (HALF / r) == 0.25;
  }

  /** Under the square-root law half a nonzero root is positive and four times its square
      is the argument. */
  lemma HalfRootLaw(sqrt: real -> real, a: real)
    requires IsSqrt(sqrt) && a >= 0.0 && sqrt(a) != 0.0
    ensures HALF * sqrt(a) > 0.0 && 4.0 * (HALF * sqrt(a)) * (HALF * sqrt(a)) == a
  {
    SqrtLaw(sqrt, a);
    var r := sqrt(a);
    assert 4.0 * (HALF * r) * (HALF * r) == r * r;
  }

  /** In the trace branch, four times `w` times each of `x`, `y`, `z` gives back the
      matching antisymmetric difference of the matrix: the off-diagonal information is
      recovered from the quaternion. */
  lemma QuatTraceBranchRecovers(m: Matrix3, sqrt: real -> real)
    requires QuatDefined(m, sqrt) && Trace(m) > 0.0
    ensures 4.0 * Quat(m, sqrt)[3] * Quat(m, sqrt)[0] == At(m, 1, 2) - At(m, 2, 1)
    ensures 4.0 * Quat(m, sqrt)[3] * Quat(m, sqrt)[1] == At(m, 2, 0) - At(m, 0, 2)
    ensures 4.0 * Quat(m, sqrt)[3] * Quat(m, sqrt)[2] == At(m, 0, 1) - At(m, 1, 0)
  {
    var root := sqrt(Trace(m) + 1.0);
    HalfRootProduct(root, At(m, 1, 2) - At(m, 2, 1));
    HalfRootProduct(root, At(m, 2, 0) - At(m, 0, 2));
    HalfRootProduct(root, At(m, 0, 1) - At(m, 1, 0));
  }

  /** In the pivot branch, four times the pivot slot times each other slot gives back the
      antisymmetric difference (for `w`) or the symmetric sum (for the two other
      components) of the matrix. */
  lemma QuatPivotBranchRecovers(m: Matrix3, sqrt: real -> real)
    requires QuatDefined(m, sqrt) && Trace(m) <= 0.0
    ensures var q, i := Quat(m, sqrt), PivotIndex(m);
      4.0 * q[i] * q[3] == At(m, Next(i), NextNext(i)) - At(m, NextNext(i), Next(i)) &&
      4.0 * q[i] * q[Next(i)] == At(m, Next(i), i) + At(m, i, Next(i)) &&
      4.0 * q[i] * q[NextNext(i)] == At(m, NextNext(i), i) + At(m, i, NextNext(i))
  {
    var i := PivotIndex(m);
    var j, k := Next(i), NextNext(i);
    CyclicIndicesPermute(i);
    var root := sqrt(Radicand(m, i));
    HalfRootProduct(root, At(m, j, k) - At(m, k, j));
    HalfRootProduct(root, At(m, j, i) + At(m, i, j));
    HalfRootProduct(root, At(m, k, i) + At(m, i, k));
  }

  /** Under the square-root law, in the trace branch `w` is positive and
      `4 w² == trace + 1`: the diagonal information is recovered from the quaternion. */
  lemma QuatTraceSlot(m: Matrix3, sqrt: real -> real)
    requires IsSqrt(sqrt) && QuatDefined(m, sqrt) && Trace(m) > 0.0
    ensures var w := Quat(m, sqrt)[3];
      w > 0.0 && 4.0 * w * w == Trace(m) + 1.0
  {
    var t := Trace(m) + 1.0;
    assert Quat(m, sqrt)[3] == HALF * sqrt(t);
    HalfRootLaw(sqrt, t);
  }

  /** Under the square-root law, in the second branch the pivot slot is positive and four
      times its square is the radicand. */
  lemma QuatPivotSlot(m: Matrix3, sqrt: real -> real)
    requires IsSqrt(sqrt) && QuatDefined(m, sqrt) && Trace(m) <= 0.0
    ensures var qi := Quat(m, sqrt)[PivotIndex(m)];
      qi > 0.0 && 4.0 * qi * qi == Radicand(m, PivotIndex(m))
  {
    var i := PivotIndex(m);
    var r := Radicand(m, i);
    assert Quat(m, sqrt) == PivotBranch(m, i, sqrt(r));
    assert PivotBranch(m, i, sqrt(r))[i] == HALF * sqrt(r);
    HalfRootLaw(sqrt, r);
  }

  /** The identity converts to the identity quaternion `[0, 0, 0, 1]`. */
  lemma QuatOfIdentity(sqrt: real -> real)
    requires IsSqrt(sqrt)
    ensures QuatDefined(Identity(), sqrt)
    ensures Quat(Identity(), sqrt) == [0.0, 0.0, 0.0, 1.0]
  {
    var m := Identity();
    assert Trace(m) == 3.0;
    SqrtOfSquare(sqrt, 2.0);
    assert sqrt(Trace(m) + 1.0) == 2.0;
  }
}

/**
 * Homogeneous 4x4 transformations (openglider/vector/transformation.py).
 *
 * A transformation is a 4x4 matrix used with the ROW-vector convention: a
 * 3-D point p is carried to p * M[0..3][0..3] + M[3][0..3], that is, the
 * homogeneous row (p, 1) times M, cut back to three coordinates.  Composition
 * `a.dot(b)` is the matrix product a * b, which therefore applies `a` first
 * and `b` second.
 */
module Transforms {
  import opened Wrappers

  type Matrix = seq<seq<real>>

  /** Why a constructor or an application is refused (the source's assertion
      and numpy shape errors). */
  datatype TransformError =
    | NotFourByFour                       // the constructor's assertion
    | WrongLength(expected: nat, got: nat) // an axis/vector/scale of the wrong length
    | EmptyBatch                          // `vec[0]` of an empty batch
    | ShapeMismatch(dim: nat)             // a point that numpy cannot multiply with the matrix

  predicate Is4x4(m: Matrix) {
    |m| == 4 && forall i :: 0 <= i < 4 ==> |m[i]| == 4
  }

  type Mat4 = m: Matrix | Is4x4(m)
    witness [[1.0, 0.0, 0.0, 0.0], [0.0, 1.0, 0.0, 0.0], [0.0, 0.0, 1.0, 0.0], [0.0, 0.0, 0.0, 1.0]]

  /** A transformation object: it only ever holds a 4x4 matrix. */
  datatype Transformation = Transformation(mat: Mat4)

  function Identity(): (m: Mat4)
  {
    [[1.0, 0.0, 0.0, 0.0], [0.0, 1.0, 0.0, 0.0], [0.0, 0.0, 1.0, 0.0], [0.0, 0.0, 0.0, 1.0]]
  }

  /** The last column is (0, 0, 0, 1): the matrix is affine, so the homogeneous
      coordinate of a transformed point stays 1. */
  predicate IsAffine(m: Mat4) {
    m[0][3] == 0.0 && m[1][3] == 0.0 && m[2][3] == 0.0 && m[3][3] == 1.0
  }

  /** The last row and the last column are both (0, 0, 0, 1): no translation. */
  predicate IsLinear(m: Mat4) {
    IsAffine(m) && m[3][0] == 0.0 && m[3][1] == 0.0 && m[3][2] == 0.0
  }

  predicate IsSymmetric(m: Mat4) {
    forall i, j :: 0 <= i < 4 && 0 <= j < 4 ==> m[i][j] == m[j][i]
  }

  /** Row vector times matrix: (v * m)[j] = sum over k of v[k] * m[k][j]. */
  function RowTimes(v: seq<real>, m: Mat4): (r: seq<real>)
    requires |v| == 4
    ensures |r| == 4
  {
    seq(4, j requires 0 <= j < 4 => v[0] * m[0][j] + v[1] * m[1][j] + v[2] * m[2][j] + v[3] * m[3][j])
  }

  /** The matrix product a * b, row by row. */
  function MatMul(a: Mat4, b: Mat4): Mat4
  {
    seq(4, i requires 0 <= i < 4 => RowTimes(a[i], b))
  }

  // ---------------------------------------------------------------------
  // Transformation.__init__ and __call__
  // ---------------------------------------------------------------------

  /** `Transformation(mat)`: accepted exactly when `mat` is 4x4, and then the
      object holds `mat` itself. */
  function New(mat: Matrix): (r: Result<Transformation, TransformError>)
    ensures r.Ok? <==> Is4x4(mat)
    ensures r.Ok? ==> r.value.mat == mat
    ensures r.Err? ==> r.error == NotFourByFour
  {
    if Is4x4(mat) then Ok(Transformation(mat)) else Err(NotFourByFour)
  }

  /** A 2-D point: p * M[:2,:2] + M[3,:2]. */
  function Apply2(m: Mat4, p: seq<real>): (r: seq<real>)
    requires |p| == 2
    ensures |r| == 2
  {
    seq(2, j requires 0 <= j < 2 => p[0] * m[0][j] + p[1] * m[1][j] + m[3][j])
  }

  /** A 3-D point: p * M[:3,:3] + M[3,:3]. */
  function Apply3(m: Mat4, p: seq<real>): (r: seq<real>)
    requires |p| == 3
    ensures |r| == 3
  {
    seq(3, j requires 0 <= j < 3 => p[0] * m[0][j] + p[1] * m[1][j] + p[2] * m[2][j] + m[3][j])
  }

  /** One point of dimension `dim`, where `dim` is the dimension read from the
      first point of the batch.  Dimensions 2 and 3 get the affine part; every
      other dimension is multiplied by the whole matrix, which numpy accepts
      only for 4-D points. */
  function ApplyPoint(m: Mat4, dim: nat, p: seq<real>): (r: Result<seq<real>, TransformError>)
    ensures r.Ok? <==> |p| == dim && 2 <= dim <= 4
    ensures r.Ok? ==> |r.value| == dim
    ensures r.Ok? && dim == 2 ==> r.value == Apply2(m, p)
    ensures r.Ok? && dim == 3 ==> r.value == Apply3(m, p)
    ensures r.Ok? && dim == 4 ==> r.value == RowTimes(p, m)
  {
    if |p| != dim || dim < 2 || dim > 4 then Err(ShapeMismatch(|p|))
    else if dim == 2 then Ok(Apply2(m, p))
    else if dim == 3 then Ok(Apply3(m, p))
    else Ok(RowTimes(p, m))
  }

  /** `Transformation.__call__(vec)` on a batch of points: the dimension of the
      first point decides which block of the matrix is used. */
  function Call(t: Transformation, vec: seq<seq<real>>): (r: Result<seq<seq<real>>, TransformError>)
    ensures vec == [] ==> r == Err(EmptyBatch)
    ensures r.Ok? ==> |r.value| == |vec|
    ensures r.Ok? ==> forall k :: 0 <= k < |vec| ==> ApplyPoint(t.mat, |vec[0]|, vec[k]) == Ok(r.value[k])
    ensures vec != [] && (forall k :: 0 <= k < |vec| ==> ApplyPoint(t.mat, |vec[0]|, vec[k]).Ok?) ==> r.Ok?
  {
    if vec == [] then Err(EmptyBatch) else CallAll(t.mat, |vec[0]|, vec)
  }

  function CallAll(m: Mat4, dim: nat, vec: seq<seq<real>>): (r: Result<seq<seq<real>>, TransformError>)
    ensures r.Ok? ==> |r.value| == |vec|
    ensures r.Ok? ==> forall k :: 0 <= k < |vec| ==> ApplyPoint(m, dim, vec[k]) == Ok(r.value[k])
    ensures (forall k :: 0 <= k < |vec| ==> ApplyPoint(m, dim, vec[k]).Ok?) ==> r.Ok?
  {
    if vec == [] then Ok([])
    else
      match ApplyPoint(m, dim, vec[0])
      case Err(e) => Err(e)
      case Ok(q) =>
        match CallAll(m, dim, vec[1..])
        case Err(e) => Err(e)
        case Ok(rest) =>
          assert forall k :: 1 <= k < |vec| ==> vec[k] == vec[1..][k - 1];
          Ok([q] + rest)
  }

  /** `a.dot(b)`. */
  function Dot(a: Transformation, b: Transformation): (r: Transformation)
    ensures forall i, j :: 0 <= i < 4 && 0 <= j < 4 ==>
      r.mat[i][j] == a.mat[i][0] * b.mat[0][j] + a.mat[i][1] * b.mat[1][j] + a.mat[i][2] * b.mat[2][j] + a.mat[i][3] * b.mat[3][j]
  {
    Transformation(MatMul(a.mat, b.mat))
  }

  // ---------------------------------------------------------------------
  // Composition
  // ---------------------------------------------------------------------

  /** One column of the associativity of the row-times-matrix product, over
      plain scalars: sum_k (sum_l v_l a_lk) b_k == sum_l v_l (sum_k a_lk b_k). */
  lemma ColumnAssociative(v0: real, v1: real, v2: real, v3: real,
                          a00: real, a01: real, a02: real, a03: real,
                          a10: real, a11: real, a12: real, a13: real,
                          a20: real, a21: real, a22: real, a23: real,
                          a30: real, a31: real, a32: real, a33: real,
                          b0: real, b1: real, b2: real, b3: real)
    ensures (v0 * a00 + v1 * a10 + v2 * a20 + v3 * a30) * b0
          + (v0 * a01 + v1 * a11 + v2 * a21 + v3 * a31) * b1
          + (v0 * a02 + v1 * a12 + v2 * a22 + v3 * a32) * b2
          + (v0 * a03 + v1 * a13 + v2 * a23 + v3 * a33) * b3
         == v0 * (a00 * b0 + a01 * b1 + a02 * b2 + a03 * b3)
          + v1 * (a10 * b0 + a11 * b1 + a12 * b2 + a13 * b3)
          + v2 * (a20 * b0 + a21 * b1 + a22 * b2 + a23 * b3)
          + v3 * (a30 * b0 + a31 * b1 + a32 * b2 + a33 * b3)
  {
  }

  /** (v * a) * b == v * (a * b). */
  lemma RowTimesAssociative(v: seq<real>, a: Mat4, b: Mat4)
    requires |v| == 4
    ensures RowTimes(RowTimes(v, a), b) == RowTimes(v, MatMul(a, b))
  {
    var w := RowTimes(v, a);
    var ab := MatMul(a, b);
    var lhs := RowTimes(w, b);
    var rhs := RowTimes(v, ab);
    forall j | 0 <= j < 4
      ensures lhs[j] == rhs[j]
    {
      ColumnAssociative(v[0], v[1], v[2], v[3],
                        a[0][0], a[0][1], a[0][2], a[0][3],
                        a[1][0], a[1][1], a[1][2], a[1][3],
                        a[2][0], a[2][1], a[2][2], a[2][3],
                        a[3][0], a[3][1], a[3][2], a[3][3],
                        b[0][j], b[1][j], b[2][j], b[3][j]);
      assert ab[0] == RowTimes(a[0], b) && ab[1] == RowTimes(a[1], b);
      assert ab[2] == RowTimes(a[2], b) && ab[3] == RowTimes(a[3], b);
    }
  }

  /** A 3-D point transformed is the homogeneous row (p, 1) times the matrix. */
  lemma Apply3IsHomogeneous(m: Mat4, p: seq<real>)
    requires |p| == 3
    ensures RowTimes(p + [1.0], m)[..3] == Apply3(m, p)
    ensures IsAffine(m) ==> RowTimes(p + [1.0], m) == Apply3(m, p) + [1.0]
  {
    var h := p + [1.0];
    assert h[0] == p[0] && h[1] == p[1] && h[2] == p[2] && h[3] == 1.0;
  }

  /** `a.dot(b)` applied to a 3-D point is `b` applied to `a` applied to it,
      as long as `a` keeps the homogeneous coordinate (every constructor of the
      module builds such a matrix). */
  lemma DotAppliesFirstThenSecond(a: Transformation, b: Transformation, p: seq<real>)
    requires |p| == 3
    requires IsAffine(a.mat)
    ensures Apply3(Dot(a, b).mat, p) == Apply3(b.mat, Apply3(a.mat, p))
  {
    var q := Apply3(a.mat, p);
    Apply3IsHomogeneous(a.mat, p);
    Apply3IsHomogeneous(b.mat, q);
    Apply3IsHomogeneous(MatMul(a.mat, b.mat), p);
    RowTimesAssociative(p + [1.0], a.mat, b.mat);
  }

  /** On 4-D points the composition holds with no condition. */
  lemma DotAppliesFirstThenSecond4(a: Transformation, b: Transformation, p: seq<real>)
    requires |p| == 4
    ensures RowTimes(p, Dot(a, b).mat) == RowTimes(RowTimes(p, a.mat), b.mat)
  {
    RowTimesAssociative(p, a.mat, b.mat);
  }

  /** The product of two affine matrices is affine, so compositions of the
      module's transformations compose again. */
  lemma DotKeepsAffine(a: Transformation, b: Transformation)
    requires IsAffine(a.mat) && IsAffine(b.mat)
    ensures IsAffine(Dot(a, b).mat)
  {
    var ab := MatMul(a.mat, b.mat);
    assert ab[0] == RowTimes(a.mat[0], b.mat);
    assert ab[1] == RowTimes(a.mat[1], b.mat);
    assert ab[2] == RowTimes(a.mat[2], b.mat);
    assert ab[3] == RowTimes(a.mat[3], b.mat);
  }

  // ---------------------------------------------------------------------
  // Translate, Scale, Reflection, Rotation
  // ---------------------------------------------------------------------

  /** `Translate(vec)`: the identity with last row (vec, 1); no vector means
      the zero vector. */
  function Translate(vec: Option<seq<real>>): (r: Result<Transformation, TransformError>)
    ensures vec.None? ==> r.Ok? && r.value.mat == Identity()
    ensures vec.Some? ==> (r.Ok? <==> |vec.value| == 3)
    ensures r.Ok? ==> IsAffine(r.value.mat)
  {
    var v := if vec.None? then [0.0, 0.0, 0.0] else vec.value;
    if |v| != 3 then Err(WrongLength(3, |v|))
    else Ok(Transformation([[1.0, 0.0, 0.0, 0.0], [0.0, 1.0, 0.0, 0.0], [0.0, 0.0, 1.0, 0.0], [v[0], v[1], v[2], 1.0]]))
  }

  /** A translation moves every 3-D point by the vector. */
  lemma TranslateMovesBy(v: seq<real>, p: seq<real>)
    requires |v| == 3 && |p| == 3
    ensures Translate(Some(v)).Ok?
    ensures Apply3(Translate(Some(v)).value.mat, p) == [p[0] + v[0], p[1] + v[1], p[2] + v[2]]
  {
    var q := Apply3(Translate(Some(v)).value.mat, p);
    assert q[0] == p[0] + v[0] && q[1] == p[1] + v[1] && q[2] == p[2] + v[2];
  }

  /** What `Scale` receives: nothing, one number, or one value per axis. */
  datatype ScaleValues = Unscaled | Uniform(s: real) | PerAxis(values: seq<real>)

  /** `Scale(scale_values)`: diag(sx, sy, sz, 1), a scalar broadcast to the
      three axes, no argument meaning ones. */
  function Scale(sv: ScaleValues): (r: Result<Transformation, TransformError>)
    ensures sv.Unscaled? ==> r.Ok? && r.value.mat == Identity()
    ensures sv.PerAxis? ==> (r.Ok? <==> |sv.values| == 3)
    ensures sv.Uniform? ==> r.Ok?
    ensures r.Ok? ==> IsLinear(r.value.mat) && IsSymmetric(r.value.mat)
  {
    var f := match sv
      case Unscaled => [1.0, 1.0, 1.0]
      case Uniform(s) => [s, s, s]
      case PerAxis(vs) => vs;
    if |f| != 3 then Err(WrongLength(3, |f|))
    else Ok(Transformation([[f[0], 0.0, 0.0, 0.0], [0.0, f[1], 0.0, 0.0], [0.0, 0.0, f[2], 0.0], [0.0, 0.0, 0.0, 1.0]]))
  }

  /** Scaling multiplies each coordinate by its factor; a scalar factor
      scales the point as a whole. */
  lemma ScaleScalesEachAxis(f: seq<real>, s: real, p: seq<real>)
    requires |f| == 3 && |p| == 3
    ensures Scale(PerAxis(f)).Ok? && Apply3(Scale(PerAxis(f)).value.mat, p) == [f[0] * p[0], f[1] * p[1], f[2] * p[2]]
    ensures Scale(Uniform(s)).Ok? && Apply3(Scale(Uniform(s)).value.mat, p) == [s * p[0], s * p[1], s * p[2]]
  {
    var q := Apply3(Scale(PerAxis(f)).value.mat, p);
    assert q[0] == f[0] * p[0] && q[1] == f[1] * p[1] && q[2] == f[2] * p[2];
    var r := Apply3(Scale(Uniform(s)).value.mat, p);
    assert r[0] == s * p[0] && r[1] == s * p[1] && r[2] == s * p[2];
  }

  /** The Householder matrix I - 2 n n^T of an axis n = (x, y, z). */
  function Householder(x: real, y: real, z: real): (m: Mat4)
  {
    [[1.0 - 2.0 * x * x, -2.0 * x * y, -2.0 * x * z, 0.0],
     [-2.0 * x * y, 1.0 - 2.0 * y * y, -2.0 * y * z, 0.0],
     [-2.0 * x * z, -2.0 * y * z, 1.0 - 2.0 * z * z, 0.0],
     [0.0, 0.0, 0.0, 1.0]]
  }

  /** `Reflection(axis)` with an axis that is already of unit length (the
      normalisation by a square root is outside the model); no axis means
      (0, 1, 0). */
  function Reflection(axis: Option<seq<real>>): (r: Result<Transformation, TransformError>)
    ensures axis.None? ==> r.Ok?
    ensures axis.Some? ==> (r.Ok? <==> |axis.value| == 3)
    ensures r.Ok? ==> IsLinear(r.value.mat) && IsSymmetric(r.value.mat)
  {
    var n := if axis.None? then [0.0, 1.0, 0.0] else axis.value;
    if |n| != 3 then Err(WrongLength(3, |n|))
    else Ok(Transformation(Householder(n[0], n[1], n[2])))
  }

  predicate IsUnit(n: seq<real>) {
    |n| == 3 && n[0] * n[0] + n[1] * n[1] + n[2] * n[2] == 1.0
  }

  /** Scalar core of the Householder reflection: row k of (p * H) is
      p_k - 2 n_k (n . p), with no condition on n. */
  lemma HouseholderApply(x: real, y: real, z: real, p0: real, p1: real, p2: real)
    ensures p0 * (1.0 - 2.0 * x * x) + p1 * (-2.0 * x * y) + p2 * (-2.0 * x * z) == p0 - 2.0 * x * (x * p0 + y * p1 + z * p2)
    ensures p0 * (-2.0 * x * y) + p1 * (1.0 - 2.0 * y * y) + p2 * (-2.0 * y * z) == p1 - 2.0 * y * (x * p0 + y * p1 + z * p2)
    ensures p0 * (-2.0 * x * z) + p1 * (-2.0 * y * z) + p2 * (1.0 - 2.0 * z * z) == p2 - 2.0 * z * (x * p0 + y * p1 + z * p2)
  {
  }

  lemma ScaledByOne(u: real, s: real)
    requires s == 1.0
    ensures u - 2.0 * u * s == -u
  {
  }

  /** A reflection about a unit axis sends the axis to its negative. */
  lemma ReflectionFlipsAxis(n: seq<real>)
    requires IsUnit(n)
    ensures Reflection(Some(n)).Ok?
    ensures Apply3(Reflection(Some(n)).value.mat, n) == [-n[0], -n[1], -n[2]]
  {
    var x, y, z := n[0], n[1], n[2];
    assert Reflection(Some(n)).value.mat == Householder(x, y, z);
    SeqOfThree(n, x, y, z);
    HouseholderApply3(x, y, z, n);
    ReflectUnitAxis(x, y, z);
  }

  /** p - 2 n (n . p) with p = n of unit length is -n. */
  lemma ReflectUnitAxis(x: real, y: real, z: real)
    requires x * x + y * y + z * z == 1.0
    ensures Reflect(x, y, z, [x, y, z]) == [-x, -y, -z]
  {
    var s := x * x + y * y + z * z;
    ScaledByOne(x, s);
    ScaledByOne(y, s);
    ScaledByOne(z, s);
    SeqOfThree(Reflect(x, y, z, [x, y, z]), -x, -y, -z);
  }

  /** A reflection fixes every point orthogonal to its axis. */
  lemma ReflectionFixesPlane(n: seq<real>, p: seq<real>)
    requires |n| == 3 && |p| == 3
    requires n[0] * p[0] + n[1] * p[1] + n[2] * p[2] == 0.0
    ensures Reflection(Some(n)).Ok?
    ensures Apply3(Reflection(Some(n)).value.mat, p) == p
  {
    var x, y, z := n[0], n[1], n[2];
    var m := Householder(x, y, z);
    HouseholderApply(x, y, z, p[0], p[1], p[2]);
    var q := Apply3(m, p);
    assert q[0] == p[0] && q[1] == p[1] && q[2] == p[2];
  }

  /** Scalar core of the involution: if q = p - 2 n (n . p) and |n| = 1, then
      q - 2 n (n . q) = p. */
  lemma HouseholderTwice(x: real, y: real, z: real, p0: real, p1: real, p2: real, q0: real, q1: real, q2: real)
    requires x * x + y * y + z * z == 1.0
    requires q0 == p0 - 2.0 * x * (x * p0 + y * p1 + z * p2)
    requires q1 == p1 - 2.0 * y * (x * p0 + y * p1 + z * p2)
    requires q2 == p2 - 2.0 * z * (x * p0 + y * p1 + z * p2)
    ensures q0 - 2.0 * x * (x * q0 + y * q1 + z * q2) == p0
    ensures q1 - 2.0 * y * (x * q0 + y * q1 + z * q2) == p1
    ensures q2 - 2.0 * z * (x * q0 + y * q1 + z * q2) == p2
  {
    var d := x * p0 + y * p1 + z * p2;
    var s := x * x + y * y + z * z;
    assert x * q0 + y * q1 + z * q2 == d - 2.0 * d * s;
    ScaledByOne(d, s);
  }

  /** The same, with the matrix entries as given numbers h_ij = d_ij - 2 n_i n_j. */
  lemma HouseholderEntriesApply(x: real, y: real, z: real, p0: real, p1: real, p2: real,
                                h00: real, h01: real, h02: real,
                                h10: real, h11: real, h12: real,
                                h20: real, h21: real, h22: real)
    requires h00 == 1.0 - 2.0 * x * x && h01 == -2.0 * x * y && h02 == -2.0 * x * z
    requires h10 == -2.0 * x * y && h11 == 1.0 - 2.0 * y * y && h12 == -2.0 * y * z
    requires h20 == -2.0 * x * z && h21 == -2.0 * y * z && h22 == 1.0 - 2.0 * z * z
    ensures p0 * h00 + p1 * h10 + p2 * h20 == p0 - 2.0 * x * (x * p0 + y * p1 + z * p2)
    ensures p0 * h01 + p1 * h11 + p2 * h21 == p1 - 2.0 * y * (x * p0 + y * p1 + z * p2)
    ensures p0 * h02 + p1 * h12 + p2 * h22 == p2 - 2.0 * z * (x * p0 + y * p1 + z * p2)
  {
    HouseholderApply(x, y, z, p0, p1, p2);
  }

  /** Coordinate j of a point reflected by the Householder matrix. */
  lemma HouseholderCoordinate(x: real, y: real, z: real, p: seq<real>, j: nat)
    requires |p| == 3 && j < 3
    ensures Apply3(Householder(x, y, z), p)[j] == p[j] - 2.0 * [x, y, z][j] * (x * p[0] + y * p[1] + z * p[2])
  {
    var m := Householder(x, y, z);
    HouseholderEntriesApply(x, y, z, p[0], p[1], p[2], m[0][0], m[0][1], m[0][2], m[1][0], m[1][1], m[1][2], m[2][0], m[2][1], m[2][2]);
  }

  /** A sequence of three numbers is the display of its elements. */
  lemma SeqOfThree(q: seq<real>, a: real, b: real, c: real)
    requires |q| == 3 && q[0] == a && q[1] == b && q[2] == c
    ensures q == [a, b, c]
  {
  }

  /** p - 2 n (n . p): the point reflected in the plane through the origin
      whose normal is the unit vector n = (x, y, z). */
  function Reflect(x: real, y: real, z: real, p: seq<real>): (r: seq<real>)
    requires |p| == 3
    ensures |r| == 3
  {
    [p[0] - 2.0 * x * (x * p[0] + y * p[1] + z * p[2]),
     p[1] - 2.0 * y * (x * p[0] + y * p[1] + z * p[2]),
     p[2] - 2.0 * z * (x * p[0] + y * p[1] + z * p[2])]
  }

  /** The Householder matrix carries p to p - 2 n (n . p), for any n. */
  lemma HouseholderApply3(x: real, y: real, z: real, p: seq<real>)
    requires |p| == 3
    ensures Apply3(Householder(x, y, z), p) == Reflect(x, y, z, p)
  {
    HouseholderCoordinate(x, y, z, p, 0);
    HouseholderCoordinate(x, y, z, p, 1);
    HouseholderCoordinate(x, y, z, p, 2);
    SeqOfThree(Apply3(Householder(x, y, z), p),
      p[0] - 2.0 * x * (x * p[0] + y * p[1] + z * p[2]),
      p[1] - 2.0 * y * (x * p[0] + y * p[1] + z * p[2]),
      p[2] - 2.0 * z * (x * p[0] + y * p[1] + z * p[2]));
  }

  /** Reflecting twice in the same plane gives the point back. */
  lemma ReflectTwice(x: real, y: real, z: real, p: seq<real>)
    requires x * x + y * y + z * z == 1.0 && |p| == 3
    ensures Reflect(x, y, z, Reflect(x, y, z, p)) == p
  {
    var q := Reflect(x, y, z, p);
    HouseholderTwice(x, y, z, p[0], p[1], p[2], q[0], q[1], q[2]);
    SeqOfThree(p, p[0], p[1], p[2]);
    SeqOfThree(Reflect(x, y, z, q), p[0], p[1], p[2]);
  }

  /** Reflecting twice about the same unit axis gives back every point. */
  lemma ReflectionIsInvolution(n: seq<real>, p: seq<real>)
    requires IsUnit(n) && |p| == 3
    ensures Reflection(Some(n)).Ok?
    ensures var m := Reflection(Some(n)).value.mat; Apply3(m, Apply3(m, p)) == p
  {
    var x, y, z := n[0], n[1], n[2];
    assert Reflection(Some(n)).value.mat == Householder(x, y, z);
    HouseholderApply3(x, y, z, p);
    HouseholderApply3(x, y, z, Reflect(x, y, z, p));
    ReflectTwice(x, y, z, p);
  }

  /** So the composed transformation `r.dot(r)` leaves every point where it is. */
  lemma ReflectionDotItselfFixesPoints(n: seq<real>, p: seq<real>)
    requires IsUnit(n) && |p| == 3
    ensures Reflection(Some(n)).Ok?
    ensures var r := Reflection(Some(n)).value; Apply3(Dot(r, r).mat, p) == p
  {
    var r := Reflection(Some(n)).value;
    DotAppliesFirstThenSecond(r, r, p);
    ReflectionIsInvolution(n, p);
  }

  /** `Rotation(angle, axis)` from the half-angle cosine and sine, which are
      taken as given (the trigonometry is outside the model), about an axis
      already of unit length; no axis means (0, 0, 1). */
  function Rotation(cosHalf: real, sinHalf: real, axis: Option<seq<real>>): (r: Result<Transformation, TransformError>)
    ensures axis.None? ==> r.Ok?
    ensures axis.Some? ==> (r.Ok? <==> |axis.value| == 3)
    ensures r.Ok? ==> IsLinear(r.value.mat)
  {
    var n := if axis.None? then [0.0, 0.0, 1.0] else axis.value;
    if |n| != 3 then Err(WrongLength(3, |n|))
    else Ok(Transformation(Rodrigues(cosHalf, sinHalf, n[0], n[1], n[2])))
  }

  /** The Euler-Rodrigues matrix for the half angle's cosine a and sine s about the axis (x, y, z). */
  function Rodrigues(a: real, s: real, x: real, y: real, z: real): Mat4 {
    var b, c, d := -x * s, -y * s, -z * s;
    [[a * a + b * b - c * c - d * d, 2.0 * (b * c - a * d), 2.0 * (b * d + a * c), 0.0],
     [2.0 * (b * c + a * d), a * a + c * c - b * b - d * d, 2.0 * (c * d - a * b), 0.0],
     [2.0 * (b * d - a * c), 2.0 * (c * d + a * b), a * a + d * d - b * b - c * c, 0.0],
     [0.0, 0.0, 0.0, 1.0]]
  }

  /**
   * A rotation leaves the points of its own axis where they are: for a unit
   * axis n and a half angle whose cosine and sine satisfy cos^2 + sin^2 = 1,
   * n is carried to n.
   */
  lemma RotationFixesAxis(cosHalf: real, sinHalf: real, n: seq<real>)
    requires IsUnit(n) && cosHalf * cosHalf + sinHalf * sinHalf == 1.0
    ensures Rotation(cosHalf, sinHalf, Some(n)).Ok?
    ensures Apply3(Rotation(cosHalf, sinHalf, Some(n)).value.mat, n) == n
  {
    var x, y, z := n[0], n[1], n[2];
    var m := Rodrigues(cosHalf, sinHalf, x, y, z);
    assert Rotation(cosHalf, sinHalf, Some(n)).value.mat == m;
    RodriguesAxis(cosHalf, sinHalf, x, y, z, -x * sinHalf, -y * sinHalf, -z * sinHalf,
      m[0][0], m[0][1], m[0][2], m[1][0], m[1][1], m[1][2], m[2][0], m[2][1], m[2][2]);
    var q := Apply3(m, n);
    SeqOfThree(q, x, y, z);
    SeqOfThree(n, x, y, z);
  }

  /** Scalar core of RotationFixesAxis: each coordinate of (x, y, z) times the matrix entries is that coordinate. */
  lemma RodriguesAxis(a: real, s: real, x: real, y: real, z: real, b: real, c: real, d: real,
                      m00: real, m01: real, m02: real, m10: real, m11: real, m12: real, m20: real, m21: real, m22: real)
    requires x * x + y * y + z * z == 1.0 && a * a + s * s == 1.0
    requires b == -x * s && c == -y * s && d == -z * s
    requires m00 == a * a + b * b - c * c - d * d && m01 == 2.0 * (b * c - a * d) && m02 == 2.0 * (b * d + a * c)
    requires m10 == 2.0 * (b * c + a * d) && m11 == a * a + c * c - b * b - d * d && m12 == 2.0 * (c * d - a * b)
    requires m20 == 2.0 * (b * d - a * c) && m21 == 2.0 * (c * d + a * b) && m22 == a * a + d * d - b * b - c * c
    ensures x * m00 + y * m10 + z * m20 == x
    ensures x * m01 + y * m11 + z * m21 == y
    ensures x * m02 + y * m12 + z * m22 == z
  {
    TimesOne(s * s, x * x + y * y + z * z);
    assert x * m00 + y * m10 + z * m20 == x * (a * a + s * s * (x * x + y * y + z * z));
    assert x * m01 + y * m11 + z * m21 == y * (a * a + s * s * (x * x + y * y + z * z));
    assert x * m02 + y * m12 + z * m22 == z * (a * a + s * s * (x * x + y * y + z * z));
  }

  lemma TimesOne(u: real, v: real)
    requires v == 1.0
    ensures u * v == u
  {
  }
}

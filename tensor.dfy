// Exact 3x3 real linear algebra standing in for the RankTwoTensor and
// RealVectorValue types: vectors, matrices, products, transpose, determinant
// and inverse, with the identities the material models rely on.
//
// Products are written through Dot on rows and columns so that every
// identity below can be proved one row, column or entry at a time.

module Tensor {

  datatype Vec3 = Vec3(x: real, y: real, z: real)

  /** Row-major 3x3 matrix: aRC is the entry in row R, column C. */
  datatype Mat3 = Mat3(a11: real, a12: real, a13: real,
                       a21: real, a22: real, a23: real,
                       a31: real, a32: real, a33: real)

  // ---------------------------------------------------------------- vectors

  function ZeroVec(): Vec3 { Vec3(0.0, 0.0, 0.0) }

  function Neg(v: Vec3): Vec3 { Vec3(-v.x, -v.y, -v.z) }

  function Add(u: Vec3, v: Vec3): Vec3 { Vec3(u.x + v.x, u.y + v.y, u.z + v.z) }

  function ScaleVec(s: real, v: Vec3): Vec3 { Vec3(s * v.x, s * v.y, s * v.z) }

  function Dot(u: Vec3, v: Vec3): real { u.x * v.x + u.y * v.y + u.z * v.z }

  function Cross(u: Vec3, v: Vec3): Vec3
  {
    Vec3(u.y * v.z - u.z * v.y, u.z * v.x - u.x * v.z, u.x * v.y - u.y * v.x)
  }

  // --------------------------------------------------------------- matrices

  function Row1(m: Mat3): Vec3 { Vec3(m.a11, m.a12, m.a13) }
  function Row2(m: Mat3): Vec3 { Vec3(m.a21, m.a22, m.a23) }
  function Row3(m: Mat3): Vec3 { Vec3(m.a31, m.a32, m.a33) }
  function Col1(m: Mat3): Vec3 { Vec3(m.a11, m.a21, m.a31) }
  function Col2(m: Mat3): Vec3 { Vec3(m.a12, m.a22, m.a32) }
  function Col3(m: Mat3): Vec3 { Vec3(m.a13, m.a23, m.a33) }

  function FromRows(r1: Vec3, r2: Vec3, r3: Vec3): Mat3
  {
    Mat3(r1.x, r1.y, r1.z, r2.x, r2.y, r2.z, r3.x, r3.y, r3.z)
  }

  function FromColumns(c1: Vec3, c2: Vec3, c3: Vec3): Mat3
  {
    Mat3(c1.x, c2.x, c3.x, c1.y, c2.y, c3.y, c1.z, c2.z, c3.z)
  }

  function Zero(): Mat3 { Mat3(0.0, 0.0, 0.0, 0.0, 0.0, 0.0, 0.0, 0.0, 0.0) }

  function Identity(): Mat3 { Mat3(1.0, 0.0, 0.0, 0.0, 1.0, 0.0, 0.0, 0.0, 1.0) }

  /** The scalar-times-tensor product s * m. */
  function Scale(s: real, m: Mat3): Mat3
  {
    FromRows(ScaleVec(s, Row1(m)), ScaleVec(s, Row2(m)), ScaleVec(s, Row3(m)))
  }

  function Transpose(m: Mat3): Mat3 { FromRows(Col1(m), Col2(m), Col3(m)) }

  /** The row vector r times the matrix m. */
  function RowTimes(r: Vec3, m: Mat3): Vec3 { Vec3(Dot(r, Col1(m)), Dot(r, Col2(m)), Dot(r, Col3(m))) }

  /** The matrix-vector product m * v. */
  function Apply(m: Mat3, v: Vec3): Vec3 { Vec3(Dot(Row1(m), v), Dot(Row2(m), v), Dot(Row3(m), v)) }

  /** The matrix product a * b. */
  function Mul(a: Mat3, b: Mat3): Mat3
  {
    FromRows(RowTimes(Row1(a), b), RowTimes(Row2(a), b), RowTimes(Row3(a), b))
  }

  function Det(m: Mat3): real { Dot(Row1(m), Cross(Row2(m), Row3(m))) }

  /** The transposed matrix of cofactors: its columns are cross products of rows. */
  function Adjugate(m: Mat3): Mat3
  {
    FromColumns(Cross(Row2(m), Row3(m)), Cross(Row3(m), Row1(m)), Cross(Row1(m), Row2(m)))
  }

  /**
   * What the tensor library's inverse promises: a left inverse of every
   * non-singular matrix. The library itself is not modelled; the model takes
   * its inverse as a parameter satisfying this, and AdjugateInverseIsInverse
   * shows the promise can be kept.
   */
  ghost predicate IsInverse(inverse: Mat3 -> Mat3)
  {
    forall m :: Det(m) != 0.0 ==> Mul(inverse(m), m) == Identity()
  }

  /** The classical adjugate inverse, with zero standing for the refused singular case. */
  function AdjugateInverse(m: Mat3): Mat3
  {
    if Det(m) == 0.0 then Zero() else Scale(1.0 / Det(m), Adjugate(m))
  }

  predicate Symmetric(m: Mat3)
  {
    m.a12 == m.a21 && m.a13 == m.a31 && m.a23 == m.a32
  }

  /** The quadratic form (m v) . v. */
  function QuadForm(m: Mat3, v: Vec3): real { Dot(Apply(m, v), v) }

  ghost predicate PositiveDefinite(m: Mat3)
  {
    forall v :: v != ZeroVec() ==> QuadForm(m, v) > 0.0
  }

  // ----------------------------------------------------- vector identities

  lemma DotSymmetric(u: Vec3, v: Vec3)
    ensures Dot(u, v) == Dot(v, u)
  {
  }

  lemma DotScale(s: real, u: Vec3, v: Vec3)
    ensures Dot(ScaleVec(s, u), v) == s * Dot(u, v)
    ensures Dot(u, ScaleVec(s, v)) == s * Dot(u, v)
  {
  }

  lemma DotAdd(u: Vec3, v: Vec3, w: Vec3)
    ensures Dot(u, Add(v, w)) == Dot(u, v) + Dot(u, w)
    ensures Dot(Add(v, w), u) == Dot(v, u) + Dot(w, u)
  {
  }

  lemma TripleProduct(u: Vec3, v: Vec3, w: Vec3)
    ensures Dot(u, Cross(v, w)) == Dot(v, Cross(w, u))
    ensures Dot(v, Cross(v, w)) == 0.0 && Dot(w, Cross(v, w)) == 0.0
  {
  }

  /** (r m) . v == r . (m v) */
  lemma RowTimesDot(r: Vec3, m: Mat3, v: Vec3)
    ensures Dot(RowTimes(r, m), v) == Dot(r, Apply(m, v))
  {
  }

  lemma RowTimesScale(s: real, r: Vec3, m: Mat3)
    ensures RowTimes(ScaleVec(s, r), m) == ScaleVec(s, RowTimes(r, m))
  {
  }

  // ----------------------------------------------------- matrix identities

  lemma TransposeTwice(m: Mat3)
    ensures Transpose(Transpose(m)) == m
  {
  }

  lemma SymmetricIsSelfTranspose(m: Mat3)
    ensures Symmetric(m) <==> Transpose(m) == m
  {
  }

  lemma TransposeOfProduct(a: Mat3, b: Mat3)
    ensures Transpose(Mul(a, b)) == Mul(Transpose(b), Transpose(a))
  {
    forall u: Vec3, v: Vec3 ensures Dot(u, v) == Dot(v, u) {
      DotSymmetric(u, v);
    }
  }

  lemma ColumnsOfProduct(a: Mat3, b: Mat3)
    ensures Col1(Mul(a, b)) == Apply(a, Col1(b))
    ensures Col2(Mul(a, b)) == Apply(a, Col2(b))
    ensures Col3(Mul(a, b)) == Apply(a, Col3(b))
  {
  }

  lemma MulAssociative(a: Mat3, b: Mat3, c: Mat3)
    ensures Mul(Mul(a, b), c) == Mul(a, Mul(b, c))
  {
    ColumnsOfProduct(b, c);
    RowTimesDot(Row1(a), b, Col1(c)); RowTimesDot(Row1(a), b, Col2(c)); RowTimesDot(Row1(a), b, Col3(c));
    RowTimesDot(Row2(a), b, Col1(c)); RowTimesDot(Row2(a), b, Col2(c)); RowTimesDot(Row2(a), b, Col3(c));
    RowTimesDot(Row3(a), b, Col1(c)); RowTimesDot(Row3(a), b, Col2(c)); RowTimesDot(Row3(a), b, Col3(c));
  }

  lemma ApplyOfProduct(a: Mat3, b: Mat3, v: Vec3)
    ensures Apply(Mul(a, b), v) == Apply(a, Apply(b, v))
  {
    RowTimesDot(Row1(a), b, v);
    RowTimesDot(Row2(a), b, v);
    RowTimesDot(Row3(a), b, v);
  }

  lemma ApplyAdd(m: Mat3, u: Vec3, v: Vec3)
    ensures Apply(m, Add(u, v)) == Add(Apply(m, u), Apply(m, v))
  {
    DotAdd(Row1(m), u, v);
    DotAdd(Row2(m), u, v);
    DotAdd(Row3(m), u, v);
  }

  lemma RowsOfScale(s: real, m: Mat3)
    ensures Row1(Scale(s, m)) == ScaleVec(s, Row1(m))
    ensures Row2(Scale(s, m)) == ScaleVec(s, Row2(m))
    ensures Row3(Scale(s, m)) == ScaleVec(s, Row3(m))
  {
  }

  lemma ApplyScaleRows(s: real, m: Mat3, v: Vec3)
    ensures Apply(Scale(s, m), v)
         == Vec3(Dot(ScaleVec(s, Row1(m)), v), Dot(ScaleVec(s, Row2(m)), v), Dot(ScaleVec(s, Row3(m)), v))
  {
    RowsOfScale(s, m);
  }

  lemma ScaleApplyRows(s: real, m: Mat3, v: Vec3)
    ensures ScaleVec(s, Apply(m, v)) == Vec3(s * Dot(Row1(m), v), s * Dot(Row2(m), v), s * Dot(Row3(m), v))
  {
  }

  lemma ApplyScale(s: real, m: Mat3, v: Vec3)
    ensures Apply(Scale(s, m), v) == ScaleVec(s, Apply(m, v))
  {
    ApplyScaleRows(s, m, v);
    ScaleApplyRows(s, m, v);
    DotScale(s, Row1(m), v);
    DotScale(s, Row2(m), v);
    DotScale(s, Row3(m), v);
  }

  lemma ScaleSymmetric(s: real, m: Mat3)
    requires Symmetric(m)
    ensures Symmetric(Scale(s, m))
  {
  }

  lemma ScaleOne(m: Mat3)
    ensures Scale(1.0, m) == m
  {
  }

  lemma ApplyIdentity(v: Vec3)
    ensures Apply(Identity(), v) == v
  {
  }

  /** (m u) . v == u . (m^T v) */
  lemma DotOfApply(m: Mat3, u: Vec3, v: Vec3)
    ensures Dot(Apply(m, u), v) == Dot(u, Apply(Transpose(m), v))
  {
  }

  lemma ScaleMulLeft(s: real, a: Mat3, b: Mat3)
    ensures Mul(Scale(s, a), b) == Scale(s, Mul(a, b))
  {
    RowTimesScale(s, Row1(a), b);
    RowTimesScale(s, Row2(a), b);
    RowTimesScale(s, Row3(a), b);
  }

  lemma MulIdentity(m: Mat3)
    ensures Mul(Identity(), m) == m && Mul(m, Identity()) == m
  {
  }

  lemma CrossOfTransposedPairs(p: real, q: real, r: real, s: real)
    ensures p * q - r * s == q * p - s * r
  {
  }

  lemma RowsOfAdjugate(m: Mat3)
    ensures Row1(Adjugate(m)) == Cross(Col2(m), Col3(m))
    ensures Row2(Adjugate(m)) == Cross(Col3(m), Col1(m))
    ensures Row3(Adjugate(m)) == Cross(Col1(m), Col2(m))
  {
    CrossOfTransposedPairs(m.a22, m.a33, m.a23, m.a32);
    CrossOfTransposedPairs(m.a23, m.a31, m.a21, m.a33);
    CrossOfTransposedPairs(m.a21, m.a32, m.a22, m.a31);
    CrossOfTransposedPairs(m.a32, m.a13, m.a33, m.a12);
    CrossOfTransposedPairs(m.a33, m.a11, m.a31, m.a13);
    CrossOfTransposedPairs(m.a31, m.a12, m.a32, m.a11);
    CrossOfTransposedPairs(m.a12, m.a23, m.a13, m.a22);
    CrossOfTransposedPairs(m.a13, m.a21, m.a11, m.a23);
    CrossOfTransposedPairs(m.a11, m.a22, m.a12, m.a21);
  }

  lemma ProductEntries(a: Mat3, b: Mat3)
    ensures Mul(a, b) == Mat3(Dot(Row1(a), Col1(b)), Dot(Row1(a), Col2(b)), Dot(Row1(a), Col3(b)),
                              Dot(Row2(a), Col1(b)), Dot(Row2(a), Col2(b)), Dot(Row2(a), Col3(b)),
                              Dot(Row3(a), Col1(b)), Dot(Row3(a), Col2(b)), Dot(Row3(a), Col3(b)))
  {
  }

  lemma DetByColumns(m: Mat3)
    ensures Det(m) == Dot(Col1(m), Cross(Col2(m), Col3(m)))
  {
  }

  /** adj(m) * m == det(m) * I, by the triple products of m's columns. */
  lemma AdjugateMul(m: Mat3)
    ensures Mul(Adjugate(m), m) == Scale(Det(m), Identity())
  {
    var c1, c2, c3 := Col1(m), Col2(m), Col3(m);
    RowsOfAdjugate(m);
    ProductEntries(Adjugate(m), m);
    DetByColumns(m);
    TripleProduct(c1, c2, c3);
    TripleProduct(c2, c3, c1);
    TripleProduct(c3, c1, c2);
    DotSymmetric(Cross(c2, c3), c1);
    DotSymmetric(Cross(c3, c1), c2);
    DotSymmetric(Cross(c1, c2), c3);
    DotSymmetric(Cross(c2, c3), c2);
    DotSymmetric(Cross(c2, c3), c3);
    DotSymmetric(Cross(c3, c1), c1);
    DotSymmetric(Cross(c3, c1), c3);
    DotSymmetric(Cross(c1, c2), c1);
    DotSymmetric(Cross(c1, c2), c2);
  }

  lemma ScaleScaleIdentity(k: real, d: real)
    requires k * d == 1.0
    ensures Scale(k, Scale(d, Identity())) == Identity()
  {
  }

  lemma RowsOfTranspose(m: Mat3)
    ensures Row1(Transpose(m)) == Col1(m) && Row2(Transpose(m)) == Col2(m) && Row3(Transpose(m)) == Col3(m)
  {
  }

  lemma DetTranspose(m: Mat3)
    ensures Det(Transpose(m)) == Det(m)
  {
    RowsOfTranspose(m);
    DetByColumns(m);
  }

  /** adj(m^T) == adj(m)^T: both have the cross products of m's columns as rows. */
  lemma AdjugateTranspose(m: Mat3)
    ensures Adjugate(Transpose(m)) == Transpose(Adjugate(m))
  {
    RowsOfTranspose(m);
    RowsOfAdjugate(m);
  }

  lemma ScaleTranspose(s: real, m: Mat3)
    ensures Transpose(Scale(s, m)) == Scale(s, Transpose(m))
  {
  }

  lemma AdjugateInverseTranspose(m: Mat3)
    ensures AdjugateInverse(Transpose(m)) == Transpose(AdjugateInverse(m))
  {
    DetTranspose(m);
    if Det(m) != 0.0 {
      AdjugateTranspose(m);
      ScaleTranspose(1.0 / Det(m), Adjugate(m));
    }
  }

  /** adj(m) / det(m) is a left inverse of every non-singular m. */
  lemma AdjugateInverseIsLeftInverse(m: Mat3)
    requires Det(m) != 0.0
    ensures Mul(AdjugateInverse(m), m) == Identity()
  {
    var d := Det(m);
    ScaleMulLeft(1.0 / d, Adjugate(m), m);
    AdjugateMul(m);
    ScaleScaleIdentity(1.0 / d, d);
  }

  /** The right inverse, from the left inverse of m^T transposed back. */
  lemma AdjugateInverseIsRightInverse(m: Mat3)
    requires Det(m) != 0.0
    ensures Mul(m, AdjugateInverse(m)) == Identity()
  {
    var a := AdjugateInverse(m);
    DetTranspose(m);
    AdjugateInverseIsLeftInverse(Transpose(m));
    AdjugateInverseTranspose(m);
    TransposeOfProduct(m, a);
    TransposeTwice(Mul(m, a));
    TransposeIdentity();
  }

  /**
   * adj(m) / det(m) is a two-sided inverse of every non-singular m, so an
   * inverse keeping the promise of IsInverse exists, and it is a right
   * inverse as well.
   */
  lemma AdjugateInverseIsInverse()
    ensures IsInverse(AdjugateInverse)
    ensures forall m :: Det(m) != 0.0 ==> Mul(m, AdjugateInverse(m)) == Identity()
  {
    forall m | Det(m) != 0.0
      ensures Mul(AdjugateInverse(m), m) == Identity()
      ensures Mul(m, AdjugateInverse(m)) == Identity()
    {
      AdjugateInverseIsLeftInverse(m);
      AdjugateInverseIsRightInverse(m);
    }
  }

  // ------------------------------------------------------------ scalar facts

  lemma PositiveProduct(x: real, y: real)
    requires x > 0.0 && y > 0.0
    ensures x * y > 0.0
  {
  }

  lemma DetIdentity()
    ensures Det(Identity()) == 1.0
  {
  }

  /** A multiple s I of the identity scales volume by s^3. */
  lemma DetScaledIdentity(s: real)
    ensures Det(Scale(s, Identity())) == s * s * s
  {
  }

  /** a s a^T is symmetric whenever s is. */
  lemma CongruenceSymmetric(a: Mat3, s: Mat3)
    requires Symmetric(s)
    ensures Symmetric(Mul(Mul(a, s), Transpose(a)))
  {
    var c := Mul(Mul(a, s), Transpose(a));
    TransposeOfProduct(Mul(a, s), Transpose(a));
    TransposeTwice(a);
    TransposeOfProduct(a, s);
    SymmetricIsSelfTranspose(s);
    MulAssociative(a, s, Transpose(a));
    SymmetricIsSelfTranspose(c);
  }

  /** v . (s m) v == s (v . m v) */
  lemma QuadFormScale(s: real, m: Mat3, v: Vec3)
    ensures QuadForm(Scale(s, m), v) == s * QuadForm(m, v)
  {
    calc {
      QuadForm(Scale(s, m), v);
      Dot(Apply(Scale(s, m), v), v);
      { ApplyScale(s, m, v); }
      Dot(ScaleVec(s, Apply(m, v)), v);
      { DotScale(s, Apply(m, v), v); }
      s * Dot(Apply(m, v), v);
      s * QuadForm(m, v);
    }
  }

  /** v . (a s a^T) v == w . s w with w = a^T v. */
  lemma CongruenceQuadForm(a: Mat3, s: Mat3, v: Vec3)
    ensures QuadForm(Mul(Mul(a, s), Transpose(a)), v) == QuadForm(s, Apply(Transpose(a), v))
  {
    var w := Apply(Transpose(a), v);
    ApplyOfProduct(Mul(a, s), Transpose(a), v);
    ApplyOfProduct(a, s, w);
    DotOfApply(a, Apply(s, w), v);
  }

  lemma ApplyZero(m: Mat3)
    ensures Apply(m, ZeroVec()) == ZeroVec()
  {
  }

  /** If a is a left inverse of m, then a^T sends no non-zero vector to zero. */
  lemma LeftInverseTransposeInjective(a: Mat3, m: Mat3, v: Vec3)
    requires Mul(a, m) == Identity()
    requires Apply(Transpose(a), v) == ZeroVec()
    ensures v == ZeroVec()
  {
    TransposeOfProduct(a, m);
    ApplyOfProduct(Transpose(m), Transpose(a), v);
    ApplyZero(Transpose(m));
    ApplyIdentity(v);
  }

  lemma TransposeIdentity()
    ensures Transpose(Identity()) == Identity()
  {
  }

  /** Any left inverse maps the identity to itself. */
  lemma InverseOfIdentity(inverse: Mat3 -> Mat3)
    requires IsInverse(inverse)
    ensures inverse(Identity()) == Identity()
  {
    DetIdentity();
    MulIdentity(inverse(Identity()));
  }
}

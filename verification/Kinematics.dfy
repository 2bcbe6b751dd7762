/** Wheel speeds from a chassis velocity, and the least-squares way back. */
module Kinematics {
  import opened Reals

  datatype Vec = Vec(x: real, y: real, z: real)

  /** Geometry of a wheel; the trigonometric functions are parameters and may be any functions. */
  datatype Wheel = Wheel(R: real, phi: real, gamma: real, radius: real)
  datatype Trig = Trig(sin: real -> real, cos: real -> real)

  /** A wheel's row of the matrix M: its contact speed per unit of chassis velocity. */
  function Row(t: Trig, w: Wheel): Vec {
    Vec(t.cos(w.gamma), t.sin(w.gamma), w.R * t.sin(w.gamma - w.phi))
  }

  /** The angle difference identity, all that is asked of the trigonometric functions. */
  ghost predicate Turns(t: Trig) {
    forall a: real, b: real :: t.sin(a - b) == t.sin(a) * t.cos(b) - t.cos(a) * t.sin(b)
  }

  /** The wheel's hub in the robot's frame, and its velocity when the robot moves and spins. */
  function Hub(t: Trig, w: Wheel): (real, real) {
    (w.R * t.cos(w.phi), w.R * t.sin(w.phi))
  }

  function HubVelocity(t: Trig, w: Wheel, v: Vec): (real, real) {
    var (x, y) := Hub(t, w);
    (v.x - v.z * y, v.y + v.z * x)
  }

  /** The contact speed is the hub's velocity projected on the wheel's direction (cos gamma, sin gamma). */
  lemma ContactIsHub(t: Trig, w: Wheel, v: Vec)
    requires Turns(t)
    ensures Dot(Row(t, w), v) == t.cos(w.gamma) * HubVelocity(t, w, v).0 + t.sin(w.gamma) * HubVelocity(t, w, v).1
  {
    Projection(t.cos(w.gamma), t.sin(w.gamma), t.cos(w.phi), t.sin(w.phi), t.sin(w.gamma - w.phi), w.R, v);
  }

  lemma Projection(cg: real, sg: real, cp: real, sp: real, s: real, R: real, v: Vec)
    requires s == sg * cp - cg * sp
    ensures cg * v.x + sg * v.y + R * s * v.z == cg * (v.x - v.z * (R * sp)) + sg * (v.y + v.z * (R * cp))
  {
    DistributeMinus(cg, v.x, v.z * (R * sp));
    DistributePlus(sg, v.y, v.z * (R * cp));
    Replace(R * v.z, s, sg * cp - cg * sp);
    DistributeMinus(R * v.z, sg * cp, cg * sp);
  }

  function Rows(t: Trig, wheels: seq<Wheel>): (rows: seq<Vec>)
    ensures |rows| == |wheels| && forall k :: 0 <= k < |wheels| ==> rows[k] == Row(t, wheels[k])
  {
    seq(|wheels|, k requires 0 <= k < |wheels| => Row(t, wheels[k]))
  }

  function Dot(u: Vec, v: Vec): real {
    u.x * v.x + u.y * v.y + u.z * v.z
  }

  function Component(v: Vec, i: nat): real
    requires i < 3
  {
    if i == 0 then v.x else if i == 1 then v.y else v.z
  }

  function Plus(u: Vec, v: Vec): Vec {
    Vec(u.x + v.x, u.y + v.y, u.z + v.z)
  }

  function Minus(u: Vec, v: Vec): Vec {
    Vec(u.x - v.x, u.y - v.y, u.z - v.z)
  }

  function Times(a: real, v: Vec): Vec {
    Vec(Product(a, v.x), Product(a, v.y), Product(a, v.z))
  }

  // ----- 3x3 matrices -----

  datatype Mat = Mat(m00: real, m01: real, m02: real, m10: real, m11: real, m12: real, m20: real, m21: real, m22: real)

  function Apply(m: Mat, v: Vec): Vec {
    Vec(Dot(Vec(m.m00, m.m01, m.m02), v), Dot(Vec(m.m10, m.m11, m.m12), v), Dot(Vec(m.m20, m.m21, m.m22), v))
  }

  function Det(m: Mat): real {
    m.m00 * (m.m11 * m.m22 - m.m21 * m.m12) - m.m01 * (m.m10 * m.m22 - m.m12 * m.m20) + m.m02 * (m.m10 * m.m21 - m.m11 * m.m20)
  }

  function Adjugate(m: Mat): Mat {
    Mat(m.m11 * m.m22 - m.m21 * m.m12, m.m02 * m.m21 - m.m01 * m.m22, m.m01 * m.m12 - m.m02 * m.m11,
        m.m12 * m.m20 - m.m10 * m.m22, m.m00 * m.m22 - m.m02 * m.m20, m.m10 * m.m02 - m.m00 * m.m12,
        m.m10 * m.m21 - m.m20 * m.m11, m.m20 * m.m01 - m.m00 * m.m21, m.m00 * m.m11 - m.m10 * m.m01)
  }

  function Scale(a: real, m: Mat): Mat {
    Mat(m.m00 * a, m.m01 * a, m.m02 * a, m.m10 * a, m.m11 * a, m.m12 * a, m.m20 * a, m.m21 * a, m.m22 * a)
  }

  /** Replacing three factors by what they equal. */
  lemma Substitute(a0: real, a1: real, a2: real, c0: real, c1: real, c2: real, p0: real, p1: real, p2: real)
    requires c0 == p0 && c1 == p1 && c2 == p2
    ensures a0 * c0 + a1 * c1 + a2 * c2 == a0 * p0 + a1 * p1 + a2 * p2
  {
    Replace(a0, c0, p0);
    Replace(a1, c1, p1);
    Replace(a2, c2, p2);
  }

  lemma ThreeByThree(a0: real, a1: real, a2: real, c00: real, c01: real, c02: real, c10: real, c11: real, c12: real, c20: real, c21: real, c22: real, x: real, y: real, z: real)
    ensures a0 * (c00 * x + c01 * y + c02 * z) + a1 * (c10 * x + c11 * y + c12 * z) + a2 * (c20 * x + c21 * y + c22 * z)
         == x * (a0 * c00 + a1 * c10 + a2 * c20) + y * (a0 * c01 + a1 * c11 + a2 * c21) + z * (a0 * c02 + a1 * c12 + a2 * c22)
  {
    DistributeThree(a0, c00 * x, c01 * y, c02 * z);
    DistributeThree(a1, c10 * x, c11 * y, c12 * z);
    DistributeThree(a2, c20 * x, c21 * y, c22 * z);
    DistributeThree(x, a0 * c00, a1 * c10, a2 * c20);
    DistributeThree(y, a0 * c01, a1 * c11, a2 * c21);
    DistributeThree(z, a0 * c02, a1 * c12, a2 * c22);
  }

  /** A row times a product of a matrix with a vector, given the row's products with the matrix's columns. */
  lemma RowTimes(a0: real, a1: real, a2: real, c: Mat, v: Vec, d0: real, d1: real, d2: real)
    requires a0 * c.m00 + a1 * c.m10 + a2 * c.m20 == d0
    requires a0 * c.m01 + a1 * c.m11 + a2 * c.m21 == d1
    requires a0 * c.m02 + a1 * c.m12 + a2 * c.m22 == d2
    ensures var w := Apply(c, v); a0 * w.x + a1 * w.y + a2 * w.z == v.x * d0 + v.y * d1 + v.z * d2
  {
    var w := Apply(c, v);
    calc {
      a0 * w.x + a1 * w.y + a2 * w.z;
      { Substitute(a0, a1, a2, w.x, w.y, w.z, c.m00 * v.x + c.m01 * v.y + c.m02 * v.z, c.m10 * v.x + c.m11 * v.y + c.m12 * v.z, c.m20 * v.x + c.m21 * v.y + c.m22 * v.z); }
      a0 * (c.m00 * v.x + c.m01 * v.y + c.m02 * v.z) + a1 * (c.m10 * v.x + c.m11 * v.y + c.m12 * v.z) + a2 * (c.m20 * v.x + c.m21 * v.y + c.m22 * v.z);
      { ThreeByThree(a0, a1, a2, c.m00, c.m01, c.m02, c.m10, c.m11, c.m12, c.m20, c.m21, c.m22, v.x, v.y, v.z); }
      v.x * (a0 * c.m00 + a1 * c.m10 + a2 * c.m20) + v.y * (a0 * c.m01 + a1 * c.m11 + a2 * c.m21) + v.z * (a0 * c.m02 + a1 * c.m12 + a2 * c.m22);
      { Substitute(v.x, v.y, v.z, d0, d1, d2, a0 * c.m00 + a1 * c.m10 + a2 * c.m20, a0 * c.m01 + a1 * c.m11 + a2 * c.m21, a0 * c.m02 + a1 * c.m12 + a2 * c.m22); }
      v.x * d0 + v.y * d1 + v.z * d2;
    }
  }

  /** A cofactor times an entry, expanded. */
  lemma Cofactor(a: real, c: real, p: real, q: real, r: real, s: real)
    requires c == p * q - r * s
    ensures a * c == a * p * q - a * r * s
  {
    Replace(a, c, p * q - r * s);
    DistributeMinus(a, p * q, r * s);
  }

  lemma Determinant(m: Mat)
    ensures Det(m) == m.m00 * m.m11 * m.m22 - m.m00 * m.m21 * m.m12 - m.m01 * m.m10 * m.m22 + m.m01 * m.m12 * m.m20 + m.m02 * m.m10 * m.m21 - m.m02 * m.m11 * m.m20
  {
    DistributeMinus(m.m00, m.m11 * m.m22, m.m21 * m.m12);
    DistributeMinus(m.m01, m.m10 * m.m22, m.m12 * m.m20);
    DistributeMinus(m.m02, m.m10 * m.m21, m.m11 * m.m20);
  }

  /** A row times a cross product. */
  lemma Triple(u0: real, u1: real, u2: real, v0: real, v1: real, v2: real, w0: real, w1: real, w2: real, c0: real, c1: real, c2: real)
    requires c0 == v1 * w2 - v2 * w1 && c1 == v2 * w0 - v0 * w2 && c2 == v0 * w1 - v1 * w0
    ensures u0 * c0 + u1 * c1 + u2 * c2 == u0 * v1 * w2 - u0 * v2 * w1 + u1 * v2 * w0 - u1 * v0 * w2 + u2 * v0 * w1 - u2 * v1 * w0
  {
    Cofactor(u0, c0, v1, w2, v2, w1);
    Cofactor(u1, c1, v2, w0, v0, w2);
    Cofactor(u2, c2, v0, w1, v1, w0);
  }

  lemma Row00(m: Mat, c: Mat)
    requires c == Adjugate(m)
    ensures m.m00 * c.m00 + m.m01 * c.m10 + m.m02 * c.m20 == Det(m)
  {
    Determinant(m);
    Triple(m.m00, m.m01, m.m02, m.m10, m.m11, m.m12, m.m20, m.m21, m.m22, c.m00, c.m10, c.m20);
  }

  lemma Row01(m: Mat, c: Mat)
    requires c == Adjugate(m)
    ensures m.m00 * c.m01 + m.m01 * c.m11 + m.m02 * c.m21 == 0.0
  {
    Triple(m.m00, m.m01, m.m02, m.m20, m.m21, m.m22, m.m00, m.m01, m.m02, c.m01, c.m11, c.m21);
  }

  lemma Row02(m: Mat, c: Mat)
    requires c == Adjugate(m)
    ensures m.m00 * c.m02 + m.m01 * c.m12 + m.m02 * c.m22 == 0.0
  {
    Triple(m.m00, m.m01, m.m02, m.m00, m.m01, m.m02, m.m10, m.m11, m.m12, c.m02, c.m12, c.m22);
  }

  lemma Row10(m: Mat, c: Mat)
    requires c == Adjugate(m)
    ensures m.m10 * c.m00 + m.m11 * c.m10 + m.m12 * c.m20 == 0.0
  {
    Triple(m.m10, m.m11, m.m12, m.m10, m.m11, m.m12, m.m20, m.m21, m.m22, c.m00, c.m10, c.m20);
  }

  lemma Row11(m: Mat, c: Mat)
    requires c == Adjugate(m)
    ensures m.m10 * c.m01 + m.m11 * c.m11 + m.m12 * c.m21 == Det(m)
  {
    Determinant(m);
    Triple(m.m10, m.m11, m.m12, m.m20, m.m21, m.m22, m.m00, m.m01, m.m02, c.m01, c.m11, c.m21);
  }

  lemma Row12(m: Mat, c: Mat)
    requires c == Adjugate(m)
    ensures m.m10 * c.m02 + m.m11 * c.m12 + m.m12 * c.m22 == 0.0
  {
    Triple(m.m10, m.m11, m.m12, m.m00, m.m01, m.m02, m.m10, m.m11, m.m12, c.m02, c.m12, c.m22);
  }

  lemma Row20(m: Mat, c: Mat)
    requires c == Adjugate(m)
    ensures m.m20 * c.m00 + m.m21 * c.m10 + m.m22 * c.m20 == 0.0
  {
    Triple(m.m20, m.m21, m.m22, m.m10, m.m11, m.m12, m.m20, m.m21, m.m22, c.m00, c.m10, c.m20);
  }

  lemma Row21(m: Mat, c: Mat)
    requires c == Adjugate(m)
    ensures m.m20 * c.m01 + m.m21 * c.m11 + m.m22 * c.m21 == 0.0
  {
    Triple(m.m20, m.m21, m.m22, m.m20, m.m21, m.m22, m.m00, m.m01, m.m02, c.m01, c.m11, c.m21);
  }

  lemma Row22(m: Mat, c: Mat)
    requires c == Adjugate(m)
    ensures m.m20 * c.m02 + m.m21 * c.m12 + m.m22 * c.m22 == Det(m)
  {
    Determinant(m);
    Triple(m.m20, m.m21, m.m22, m.m00, m.m01, m.m02, m.m10, m.m11, m.m12, c.m02, c.m12, c.m22);
  }

  lemma Column00(m: Mat, c: Mat)
    requires c == Adjugate(m)
    ensures c.m00 * m.m00 + c.m01 * m.m10 + c.m02 * m.m20 == Det(m)
  {
    Determinant(m);
    Triple(m.m00, m.m10, m.m20, m.m01, m.m11, m.m21, m.m02, m.m12, m.m22, c.m00, c.m01, c.m02);
  }

  lemma Column01(m: Mat, c: Mat)
    requires c == Adjugate(m)
    ensures c.m00 * m.m01 + c.m01 * m.m11 + c.m02 * m.m21 == 0.0
  {
    Triple(m.m01, m.m11, m.m21, m.m01, m.m11, m.m21, m.m02, m.m12, m.m22, c.m00, c.m01, c.m02);
  }

  lemma Column02(m: Mat, c: Mat)
    requires c == Adjugate(m)
    ensures c.m00 * m.m02 + c.m01 * m.m12 + c.m02 * m.m22 == 0.0
  {
    Triple(m.m02, m.m12, m.m22, m.m01, m.m11, m.m21, m.m02, m.m12, m.m22, c.m00, c.m01, c.m02);
  }

  lemma Column10(m: Mat, c: Mat)
    requires c == Adjugate(m)
    ensures c.m10 * m.m00 + c.m11 * m.m10 + c.m12 * m.m20 == 0.0
  {
    Triple(m.m00, m.m10, m.m20, m.m02, m.m12, m.m22, m.m00, m.m10, m.m20, c.m10, c.m11, c.m12);
  }

  lemma Column11(m: Mat, c: Mat)
    requires c == Adjugate(m)
    ensures c.m10 * m.m01 + c.m11 * m.m11 + c.m12 * m.m21 == Det(m)
  {
    Determinant(m);
    Triple(m.m01, m.m11, m.m21, m.m02, m.m12, m.m22, m.m00, m.m10, m.m20, c.m10, c.m11, c.m12);
  }

  lemma Column12(m: Mat, c: Mat)
    requires c == Adjugate(m)
    ensures c.m10 * m.m02 + c.m11 * m.m12 + c.m12 * m.m22 == 0.0
  {
    Triple(m.m02, m.m12, m.m22, m.m02, m.m12, m.m22, m.m00, m.m10, m.m20, c.m10, c.m11, c.m12);
  }

  lemma Column20(m: Mat, c: Mat)
    requires c == Adjugate(m)
    ensures c.m20 * m.m00 + c.m21 * m.m10 + c.m22 * m.m20 == 0.0
  {
    Triple(m.m00, m.m10, m.m20, m.m00, m.m10, m.m20, m.m01, m.m11, m.m21, c.m20, c.m21, c.m22);
  }

  lemma Column21(m: Mat, c: Mat)
    requires c == Adjugate(m)
    ensures c.m20 * m.m01 + c.m21 * m.m11 + c.m22 * m.m21 == 0.0
  {
    Triple(m.m01, m.m11, m.m21, m.m00, m.m10, m.m20, m.m01, m.m11, m.m21, c.m20, c.m21, c.m22);
  }

  lemma Column22(m: Mat, c: Mat)
    requires c == Adjugate(m)
    ensures c.m20 * m.m02 + c.m21 * m.m12 + c.m22 * m.m22 == Det(m)
  {
    Determinant(m);
    Triple(m.m02, m.m12, m.m22, m.m00, m.m10, m.m20, m.m01, m.m11, m.m21, c.m20, c.m21, c.m22);
  }

  lemma RowsX(m: Mat, c: Mat, v: Vec)
    requires c == Adjugate(m)
    ensures var w := Apply(c, v); m.m00 * w.x + m.m01 * w.y + m.m02 * w.z == Det(m) * v.x
  {
    var d := Det(m);
    Row00(m, c);
    Row01(m, c);
    Row02(m, c);
    RowTimes(m.m00, m.m01, m.m02, c, v, d, 0.0, 0.0);
  }

  lemma ColumnsX(m: Mat, c: Mat, v: Vec)
    requires c == Adjugate(m)
    ensures var w := Apply(m, v); c.m00 * w.x + c.m01 * w.y + c.m02 * w.z == Det(m) * v.x
  {
    var d := Det(m);
    Column00(m, c);
    Column01(m, c);
    Column02(m, c);
    RowTimes(c.m00, c.m01, c.m02, m, v, d, 0.0, 0.0);
  }

  lemma RowsY(m: Mat, c: Mat, v: Vec)
    requires c == Adjugate(m)
    ensures var w := Apply(c, v); m.m10 * w.x + m.m11 * w.y + m.m12 * w.z == Det(m) * v.y
  {
    var d := Det(m);
    Row10(m, c);
    Row11(m, c);
    Row12(m, c);
    RowTimes(m.m10, m.m11, m.m12, c, v, 0.0, d, 0.0);
  }

  lemma ColumnsY(m: Mat, c: Mat, v: Vec)
    requires c == Adjugate(m)
    ensures var w := Apply(m, v); c.m10 * w.x + c.m11 * w.y + c.m12 * w.z == Det(m) * v.y
  {
    var d := Det(m);
    Column10(m, c);
    Column11(m, c);
    Column12(m, c);
    RowTimes(c.m10, c.m11, c.m12, m, v, 0.0, d, 0.0);
  }

  lemma RowsZ(m: Mat, c: Mat, v: Vec)
    requires c == Adjugate(m)
    ensures var w := Apply(c, v); m.m20 * w.x + m.m21 * w.y + m.m22 * w.z == Det(m) * v.z
  {
    var d := Det(m);
    Row20(m, c);
    Row21(m, c);
    Row22(m, c);
    RowTimes(m.m20, m.m21, m.m22, c, v, 0.0, 0.0, d);
  }

  lemma ColumnsZ(m: Mat, c: Mat, v: Vec)
    requires c == Adjugate(m)
    ensures var w := Apply(m, v); c.m20 * w.x + c.m21 * w.y + c.m22 * w.z == Det(m) * v.z
  {
    var d := Det(m);
    Column20(m, c);
    Column21(m, c);
    Column22(m, c);
    RowTimes(c.m20, c.m21, c.m22, m, v, 0.0, 0.0, d);
  }

  /** The adjugate undoes the matrix up to the determinant, from either side. */
  lemma AdjugateUndoes(m: Mat, v: Vec)
    ensures Apply(m, Apply(Adjugate(m), v)) == Times(Det(m), v)
    ensures Apply(Adjugate(m), Apply(m, v)) == Times(Det(m), v)
  {
    RowsX(m, Adjugate(m), v);
    ColumnsX(m, Adjugate(m), v);
    RowsY(m, Adjugate(m), v);
    ColumnsY(m, Adjugate(m), v);
    RowsZ(m, Adjugate(m), v);
    ColumnsZ(m, Adjugate(m), v);
  }

  lemma ScaleApply(a: real, m: Mat, v: Vec)
    ensures Apply(Scale(a, m), v) == Times(a, Apply(m, v))
    ensures Apply(m, Times(a, v)) == Times(a, Apply(m, v))
  {
    var s, w := Scale(a, m), Apply(m, v);
    ScaledRow(a, Vec(m.m00, m.m01, m.m02), Vec(s.m00, s.m01, s.m02), v, w.x);
    ScaledRow(a, Vec(m.m10, m.m11, m.m12), Vec(s.m10, s.m11, s.m12), v, w.y);
    ScaledRow(a, Vec(m.m20, m.m21, m.m22), Vec(s.m20, s.m21, s.m22), v, w.z);
  }

  lemma ScaledRow(a: real, r: Vec, s: Vec, v: Vec, w: real)
    requires s.x == r.x * a && s.y == r.y * a && s.z == r.z * a && w == Dot(r, v)
    ensures Dot(s, v) == Product(a, w) == Dot(r, Times(a, v))
  {
    var t := Times(a, v);
    ScaledSum(a, r.x, r.y, r.z, v.x, v.y, v.z, s.x, s.y, s.z, t.x, t.y, t.z, w);
  }

  lemma ScaledSum(a: real, r0: real, r1: real, r2: real, x: real, y: real, z: real,
                  s0: real, s1: real, s2: real, t0: real, t1: real, t2: real, w: real)
    requires s0 == r0 * a && s1 == r1 * a && s2 == r2 * a && t0 == a * x && t1 == a * y && t2 == a * z
    requires w == r0 * x + r1 * y + r2 * z
    ensures s0 * x + s1 * y + s2 * z == a * w == r0 * t0 + r1 * t1 + r2 * t2
  {
    Substitute(x, y, z, s0, s1, s2, r0 * a, r1 * a, r2 * a);
    Substitute(r0, r1, r2, t0, t1, t2, a * x, a * y, a * z);
    Replace(a, w, r0 * x + r1 * y + r2 * z);
    DistributeThree(a, r0 * x, r1 * y, r2 * z);
  }

  lemma TimesTimes(a: real, b: real, v: Vec)
    requires a * b == 1.0
    ensures Times(a, Times(b, v)) == v
  {
    Cancel(a, b, v.x);
    Cancel(a, b, v.y);
    Cancel(a, b, v.z);
  }

  lemma Cancel(a: real, b: real, x: real)
    requires a * b == 1.0
    ensures a * (b * x) == x
  {
    calc {
      a * (b * x);
      (a * b) * x;
      x;
    }
  }

  /** With a determinant other than zero the scaled adjugate is the inverse. */
  lemma InverseUndoes(m: Mat, a: real, v: Vec)
    requires a * Det(m) == 1.0
    ensures Apply(m, Apply(Scale(a, Adjugate(m)), v)) == v
    ensures Apply(Scale(a, Adjugate(m)), Apply(m, v)) == v
  {
    AdjugateUndoes(m, v);
    ScaleApply(a, Adjugate(m), v);
    ScaleApply(a, Adjugate(m), Apply(m, v));
    ScaleApply(a, m, Apply(Adjugate(m), v));
    TimesTimes(a, Det(m), v);
  }

  // ----- sums over the wheels -----

  /** The sum of b[k] times row k. */
  function Weighted(rows: seq<Vec>, b: seq<real>, n: nat): Vec
    requires n <= |rows| && n <= |b|
  {
    if n == 0 then Vec(0.0, 0.0, 0.0) else Plus(Weighted(rows, b, n - 1), Times(b[n - 1], rows[n - 1]))
  }

  /** M u: each wheel's contact speed. */
  function Speeds(rows: seq<Vec>, u: Vec): (s: seq<real>)
    ensures |s| == |rows| && forall k :: 0 <= k < |rows| ==> s[k] == Dot(rows[k], u)
  {
    seq(|rows|, k requires 0 <= k < |rows| => Dot(rows[k], u))
  }

  /** Entry (i, j) of the transpose of M times M. */
  function Gram(rows: seq<Vec>, i: nat, j: nat, n: nat): real
    requires i < 3 && j < 3 && n <= |rows|
  {
    if n == 0 then 0.0 else Gram(rows, i, j, n - 1) + Component(rows[n - 1], i) * Component(rows[n - 1], j)
  }

  function GramMat(rows: seq<Vec>, n: nat): Mat
    requires n <= |rows|
  {
    Mat(Gram(rows, 0, 0, n), Gram(rows, 0, 1, n), Gram(rows, 0, 2, n),
        Gram(rows, 1, 0, n), Gram(rows, 1, 1, n), Gram(rows, 1, 2, n),
        Gram(rows, 2, 0, n), Gram(rows, 2, 1, n), Gram(rows, 2, 2, n))
  }

  /** How far the wheels' speeds are from b, as the sum of squares. */
  function Residual(rows: seq<Vec>, b: seq<real>, u: Vec, n: nat): real
    requires n <= |rows| && n <= |b|
  {
    if n == 0 then 0.0 else Residual(rows, b, u, n - 1) + Square(Dot(rows[n - 1], u) - b[n - 1])
  }

  lemma DotPlus(h: Vec, u: Vec, v: Vec)
    ensures Dot(h, Plus(u, v)) == Dot(h, u) + Dot(h, v)
  {
    PlusSum(h.x, h.y, h.z, u.x, u.y, u.z, v.x, v.y, v.z, u.x + v.x, u.y + v.y, u.z + v.z);
  }

  lemma PlusSum(h0: real, h1: real, h2: real, u0: real, u1: real, u2: real, v0: real, v1: real, v2: real, p0: real, p1: real, p2: real)
    requires p0 == u0 + v0 && p1 == u1 + v1 && p2 == u2 + v2
    ensures h0 * p0 + h1 * p1 + h2 * p2 == (h0 * u0 + h1 * u1 + h2 * u2) + (h0 * v0 + h1 * v1 + h2 * v2)
  {
    Substitute(h0, h1, h2, p0, p1, p2, u0 + v0, u1 + v1, u2 + v2);
    DistributePlus(h0, u0, v0);
    DistributePlus(h1, u1, v1);
    DistributePlus(h2, u2, v2);
  }

  // ----- the normal equations -----

  lemma OuterRow(a: real, r: Vec, u: Vec, prev: Vec, next: Vec)
    requires next.x == prev.x + a * r.x && next.y == prev.y + a * r.y && next.z == prev.z + a * r.z
    ensures Dot(next, u) == Dot(prev, u) + Product(Dot(r, u), a)
  {
    var s := Vec(a * r.x, a * r.y, a * r.z);
    PlusSum(u.x, u.y, u.z, prev.x, prev.y, prev.z, s.x, s.y, s.z, next.x, next.y, next.z);
    ScaledRow(a, r, Vec(r.x * a, r.y * a, r.z * a), u, Dot(r, u));
    Substitute(u.x, u.y, u.z, s.x, s.y, s.z, r.x * a, r.y * a, r.z * a);
  }

  /** Adding a row's products with itself to a matrix adds that row, weighted, to its results. */
  lemma OuterStep(p: Mat, g: Mat, r: Vec, u: Vec)
    requires g.m00 == p.m00 + r.x * r.x && g.m01 == p.m01 + r.x * r.y && g.m02 == p.m02 + r.x * r.z
    requires g.m10 == p.m10 + r.y * r.x && g.m11 == p.m11 + r.y * r.y && g.m12 == p.m12 + r.y * r.z
    requires g.m20 == p.m20 + r.z * r.x && g.m21 == p.m21 + r.z * r.y && g.m22 == p.m22 + r.z * r.z
    ensures Apply(g, u) == Plus(Apply(p, u), Times(Dot(r, u), r))
  {
    OuterRow(r.x, r, u, Vec(p.m00, p.m01, p.m02), Vec(g.m00, g.m01, g.m02));
    OuterRow(r.y, r, u, Vec(p.m10, p.m11, p.m12), Vec(g.m10, g.m11, g.m12));
    OuterRow(r.z, r, u, Vec(p.m20, p.m21, p.m22), Vec(g.m20, g.m21, g.m22));
  }

  /** The transpose of M times M, applied to u, is the sum of the rows weighted by M u. */
  lemma {:induction false} GramApplies(rows: seq<Vec>, u: Vec, n: nat)
    requires n <= |rows|
    ensures Apply(GramMat(rows, n), u) == Weighted(rows, Speeds(rows, u), n)
  {
    if n == 0 {
      assert Dot(Vec(0.0, 0.0, 0.0), u) == 0.0;
    } else {
      GramApplies(rows, u, n - 1);
      GramStep(rows, u, n);
    }
  }

  lemma GramStep(rows: seq<Vec>, u: Vec, n: nat)
    requires 0 < n <= |rows|
    ensures Apply(GramMat(rows, n), u) == Plus(Apply(GramMat(rows, n - 1), u), Times(Dot(rows[n - 1], u), rows[n - 1]))
  {
    OuterStep(GramMat(rows, n - 1), GramMat(rows, n), rows[n - 1], u);
  }

  /** The mixed terms of the two residuals. */
  function Mixed(rows: seq<Vec>, b: seq<real>, v: Vec, h: Vec, n: nat): real
    requires n <= |rows| && n <= |b|
  {
    if n == 0 then 0.0 else Mixed(rows, b, v, h, n - 1) + Product(Dot(rows[n - 1], v) - b[n - 1], Dot(h, rows[n - 1]))
  }

  lemma DotTimes(h: Vec, a: real, r: Vec)
    ensures Dot(h, Times(a, r)) == Product(a, Dot(h, r))
  {
    ScaledRow(a, h, Vec(h.x * a, h.y * a, h.z * a), r, Dot(h, r));
  }

  lemma {:induction false} MixedIsDifference(rows: seq<Vec>, b: seq<real>, v: Vec, h: Vec, n: nat)
    requires n <= |rows| && n <= |b|
    ensures Mixed(rows, b, v, h, n) == Dot(h, Weighted(rows, Speeds(rows, v), n)) - Dot(h, Weighted(rows, b, n))
  {
    if n > 0 {
      var r, s := rows[n - 1], Speeds(rows, v);
      MixedIsDifference(rows, b, v, h, n - 1);
      DotPlus(h, Weighted(rows, s, n - 1), Times(s[n - 1], r));
      DotPlus(h, Weighted(rows, b, n - 1), Times(b[n - 1], r));
      DotTimes(h, s[n - 1], r);
      DotTimes(h, b[n - 1], r);
      ProductMinus(s[n - 1], b[n - 1], Dot(h, r));
    }
  }

  lemma ProductMinus(x: real, y: real, a: real)
    ensures Product(x - y, a) == Product(x, a) - Product(y, a)
  {
    DistributeMinus(a, x, y);
  }

  lemma SquareSum(a: real, e: real)
    ensures Square(a + e) == Square(a) + Square(e) + 2.0 * Product(e, a)
  {
    DistributePlus(a + e, a, e);
    DistributePlus(a, a, e);
    DistributePlus(e, a, e);
  }

  lemma DotCommutes(u: Vec, v: Vec)
    ensures Dot(u, v) == Dot(v, u)
  {
  }

  lemma DotMinus(r: Vec, u: Vec, v: Vec)
    ensures Dot(r, u) == Dot(r, Minus(u, v)) + Dot(r, v)
  {
    assert Plus(Minus(u, v), v) == u;
    DotPlus(r, Minus(u, v), v);
  }

  /** How the residual of u exceeds that of v. */
  lemma {:induction false} ResidualGap(rows: seq<Vec>, b: seq<real>, u: Vec, v: Vec, n: nat)
    requires n <= |rows| && n <= |b|
    ensures Residual(rows, b, u, n) >= Residual(rows, b, v, n) + 2.0 * Mixed(rows, b, v, Minus(u, v), n)
  {
    if n > 0 {
      var r, h := rows[n - 1], Minus(u, v);
      var a, e := Dot(r, h), Dot(r, v) - b[n - 1];
      ResidualGap(rows, b, u, v, n - 1);
      DotMinus(r, u, v);
      DotCommutes(r, h);
      assert Dot(r, u) - b[n - 1] == a + e;
      SquareSum(a, e);
    }
  }

  /** A solution of the normal equations has the least sum of squared contact-speed residuals. */
  lemma NormalIsLeast(rows: seq<Vec>, b: seq<real>, v: Vec, u: Vec)
    requires |b| == |rows| && Apply(GramMat(rows, |rows|), v) == Weighted(rows, b, |rows|)
    ensures Residual(rows, b, v, |rows|) <= Residual(rows, b, u, |rows|)
  {
    var n, h := |rows|, Minus(u, v);
    GramApplies(rows, v, n);
    MixedIsDifference(rows, b, v, h, n);
    ResidualGap(rows, b, u, v, n);
  }

  lemma {:induction false} WeightedSame(rows: seq<Vec>, b: seq<real>, c: seq<real>, n: nat)
    requires n <= |rows| && n <= |b| && n <= |c| && forall k :: 0 <= k < n ==> b[k] == c[k]
    ensures Weighted(rows, b, n) == Weighted(rows, c, n)
  {
    if n > 0 {
      WeightedSame(rows, b, c, n - 1);
    }
  }

  // ----- the code -----

  /** Sum of the products with the inverse's rows, in the order the code adds them. */
  function Solved(m: Mat, rows: seq<Vec>, b: seq<real>, n: nat): Vec
    requires n <= |rows| && n <= |b|
  {
    if n == 0 then Vec(0.0, 0.0, 0.0) else Plus(Solved(m, rows, b, n - 1), Times(b[n - 1], Apply(m, rows[n - 1])))
  }

  lemma ApplyPlus(m: Mat, u: Vec, v: Vec)
    ensures Apply(m, Plus(u, v)) == Plus(Apply(m, u), Apply(m, v))
  {
    DotPlus(Vec(m.m00, m.m01, m.m02), u, v);
    DotPlus(Vec(m.m10, m.m11, m.m12), u, v);
    DotPlus(Vec(m.m20, m.m21, m.m22), u, v);
  }

  lemma {:induction false} SolvedIsApply(m: Mat, rows: seq<Vec>, b: seq<real>, n: nat)
    requires n <= |rows| && n <= |b|
    ensures Solved(m, rows, b, n) == Apply(m, Weighted(rows, b, n))
  {
    if n == 0 {
      assert Apply(m, Vec(0.0, 0.0, 0.0)) == Vec(0.0, 0.0, 0.0);
    } else {
      SolvedIsApply(m, rows, b, n - 1);
      ApplyPlus(m, Weighted(rows, b, n - 1), Times(b[n - 1], rows[n - 1]));
      ScaleApply(b[n - 1], m, rows[n - 1]);
    }
  }

  /** Wheel speeds for a chassis velocity: contact speed over radius. */
  method ChassisToWheels(t: Trig, wheels: seq<Wheel>, target: Vec) returns (vels: seq<real>)
    requires forall k :: 0 <= k < |wheels| ==> wheels[k].radius != 0.0
    ensures |vels| == |wheels| && forall k :: 0 <= k < |wheels| ==> vels[k] * wheels[k].radius == Dot(Row(t, wheels[k]), target)
  {
    vels := [];
    for i := 0 to |wheels|
      invariant |vels| == i && forall k :: 0 <= k < i ==> vels[k] * wheels[k].radius == Dot(Row(t, wheels[k]), target)
    {
      var w := wheels[i];
      var v := t.cos(w.gamma) * target.x + t.sin(w.gamma) * target.y + w.R * t.sin(w.gamma - w.phi) * target.z;
      QuotientTimes(v, w.radius);
      vels := vels + [v / w.radius];
    }
  }

  /** The triple loop that multiplies the transpose of M with M. */
  method GramMatrix(rows: seq<Vec>) returns (g: array2<real>)
    ensures fresh(g) && g.Length0 == 3 && g.Length1 == 3
    ensures forall i, j :: 0 <= i < 3 && 0 <= j < 3 ==> g[i, j] == Gram(rows, i, j, |rows|)
  {
    g := new real[3, 3]((_, _) => 0.0);
    for i := 0 to 3
      invariant forall a, b :: 0 <= a < i && 0 <= b < 3 ==> g[a, b] == Gram(rows, a, b, |rows|)
      invariant forall a, b :: i <= a < 3 && 0 <= b < 3 ==> g[a, b] == 0.0
    {
      for j := 0 to 3
        invariant forall a, b :: 0 <= a < 3 && 0 <= b < 3 && (a < i || (a == i && b < j)) ==> g[a, b] == Gram(rows, a, b, |rows|)
        invariant forall a, b :: 0 <= a < 3 && 0 <= b < 3 && (i < a || (a == i && j <= b)) ==> g[a, b] == 0.0
      {
        var sum := GramEntry(rows, i, j);
        g[i, j] := sum;
      }
    }
  }

  /** The innermost loop. */
  method GramEntry(rows: seq<Vec>, i: nat, j: nat) returns (sum: real)
    requires i < 3 && j < 3
    ensures sum == Gram(rows, i, j, |rows|)
  {
    sum := 0.0;
    for k := 0 to |rows|
      invariant sum == Gram(rows, i, j, k)
    {
      sum := sum + Component(rows[k], i) * Component(rows[k], j);
    }
  }

  function InverseRow(m: Mat, i: nat): Vec
    requires i < 3
  {
    if i == 0 then Vec(m.m00, m.m01, m.m02) else if i == 1 then Vec(m.m10, m.m11, m.m12) else Vec(m.m20, m.m21, m.m22)
  }

  /** The inverse times the transpose of M. */
  method PseudoInverse(inv: Mat, rows: seq<Vec>) returns (p: array2<real>)
    ensures fresh(p) && p.Length0 == 3 && p.Length1 == |rows|
    ensures forall i, j :: 0 <= i < 3 && 0 <= j < |rows| ==> p[i, j] == Dot(InverseRow(inv, i), rows[j])
  {
    p := new real[3, |rows|]((_, _) => 0.0);
    for i := 0 to 3
      invariant forall a, b :: 0 <= a < i && 0 <= b < |rows| ==> p[a, b] == Dot(InverseRow(inv, a), rows[b])
    {
      for j := 0 to |rows|
        invariant forall a, b :: 0 <= a < 3 && 0 <= b < |rows| && (a < i || (a == i && b < j)) ==> p[a, b] == Dot(InverseRow(inv, a), rows[b])
      {
        var r := InverseRow(inv, i);
        p[i, j] := r.x * rows[j].x + r.y * rows[j].y + r.z * rows[j].z;
      }
    }
  }

  /** The pseudo-inverse times the contact speeds, one component. */
  method Combine(p: array2<real>, inv: Mat, rows: seq<Vec>, b: seq<real>, i: nat) returns (sum: real)
    requires i < 3 && |b| == |rows| && p.Length0 == 3 && p.Length1 == |rows|
    requires forall j :: 0 <= j < |rows| ==> p[i, j] == Dot(InverseRow(inv, i), rows[j])
    ensures sum == Component(Solved(inv, rows, b, |rows|), i)
  {
    sum := 0.0;
    for j := 0 to |rows|
      invariant sum == Component(Solved(inv, rows, b, j), i)
    {
      var e := p[i, j];
      SolvedStep(inv, rows, b, j, i, e);
      sum := sum + Product(e, b[j]);
    }
  }

  lemma SolvedStep(inv: Mat, rows: seq<Vec>, b: seq<real>, j: nat, i: nat, e: real)
    requires i < 3 && j < |rows| == |b| && e == Dot(InverseRow(inv, i), rows[j])
    ensures Component(Solved(inv, rows, b, j + 1), i) == Component(Solved(inv, rows, b, j), i) + Product(e, b[j])
  {
    var a := Apply(inv, rows[j]);
    assert Component(a, i) == e;
    assert Component(Times(b[j], a), i) == Product(b[j], e);
  }

  const DET_MIN: real := 0.000_001

  /** What the code solves: zero when the determinant is too small, else the normal equations. */
  ghost predicate Answers(rows: seq<Vec>, b: seq<real>, v: Vec)
    requires |b| == |rows|
  {
    var g := GramMat(rows, |rows|);
    if Abs(Det(g)) < 0.000_001 then v == Vec(0.0, 0.0, 0.0) else Apply(g, v) == Weighted(rows, b, |rows|)
  }

  /** The linear velocity of every wheel's contact point. */
  function ContactSpeeds(wheels: seq<Wheel>, vels: seq<real>): (b: seq<real>)
    requires |vels| == |wheels|
    ensures |b| == |wheels| && forall k :: 0 <= k < |wheels| ==> b[k] == vels[k] * wheels[k].radius
  {
    seq(|wheels|, k requires 0 <= k < |wheels| => vels[k] * wheels[k].radius)
  }

  method WheelsToChassis(t: Trig, wheels: seq<Wheel>, vels: seq<real>) returns (v: Vec)
    requires |vels| == |wheels|
    ensures Answers(Rows(t, wheels), ContactSpeeds(wheels, vels), v)
  {
    var rows, b := Rows(t, wheels), ContactSpeeds(wheels, vels);
    var mtm := GramMatrix(rows);
    var g := Mat(mtm[0, 0], mtm[0, 1], mtm[0, 2], mtm[1, 0], mtm[1, 1], mtm[1, 2], mtm[2, 0], mtm[2, 1], mtm[2, 2]);
    var det := Det(g);
    if Abs(det) < DET_MIN {
      return Vec(0.0, 0.0, 0.0);
    }
    v := SolveNormal(g, det, rows, b);
  }

  /** Inverts the matrix by its adjugate and applies the result. */
  method SolveNormal(g: Mat, det: real, rows: seq<Vec>, b: seq<real>) returns (v: Vec)
    requires |b| == |rows| && det == Det(g) && det != 0.0
    ensures Apply(g, v) == Weighted(rows, b, |rows|)
  {
    var invDet := 1.0 / det;
    QuotientTimes(1.0, det);
    var inv := Scale(invDet, Adjugate(g));
    var p := PseudoInverse(inv, rows);
    var x := Combine(p, inv, rows, b, 0);
    var y := Combine(p, inv, rows, b, 1);
    var z := Combine(p, inv, rows, b, 2);
    v := Vec(x, y, z);
    SolvedIsApply(inv, rows, b, |rows|);
    InverseUndoes(g, invDet, Weighted(rows, b, |rows|));
  }

  /** No other chassis velocity fits the wheel speeds better. */
  lemma LeastSquares(rows: seq<Vec>, b: seq<real>, v: Vec, u: Vec)
    requires |b| == |rows| && Answers(rows, b, v) && Abs(Det(GramMat(rows, |rows|))) >= DET_MIN
    ensures Residual(rows, b, v, |rows|) <= Residual(rows, b, u, |rows|)
  {
    NormalIsLeast(rows, b, v, u);
  }

  /** Wheel speeds that come from a chassis velocity give it back. */
  lemma Inverts(rows: seq<Vec>, b: seq<real>, v: Vec, target: Vec)
    requires |b| == |rows| && Answers(rows, b, v) && Abs(Det(GramMat(rows, |rows|))) >= DET_MIN
    requires forall k :: 0 <= k < |rows| ==> b[k] == Dot(rows[k], target)
    ensures v == target
  {
    var n, g := |rows|, GramMat(rows, |rows|);
    var a := 1.0 / Det(g);
    QuotientTimes(1.0, Det(g));
    GramApplies(rows, target, n);
    WeightedSame(rows, b, Speeds(rows, target), n);
    InverseUndoes(g, a, v);
    InverseUndoes(g, a, target);
  }

  /** There and back again. */
  method RoundTrip(t: Trig, wheels: seq<Wheel>, target: Vec) returns (v: Vec)
    requires forall k :: 0 <= k < |wheels| ==> wheels[k].radius != 0.0
    ensures v == if Abs(Det(GramMat(Rows(t, wheels), |wheels|))) < 0.000_001 then Vec(0.0, 0.0, 0.0) else target
  {
    var vels := ChassisToWheels(t, wheels, target);
    v := WheelsToChassis(t, wheels, vels);
    if Abs(Det(GramMat(Rows(t, wheels), |wheels|))) >= DET_MIN {
      Inverts(Rows(t, wheels), ContactSpeeds(wheels, vels), v, target);
    }
  }
}

/**
 The scalars: a field with a conjugation. The routines are compiled once for real numbers, whose
 conjugation does nothing, and once for complex ones.
 */
module BlasScalar {
  import opened Reals

  datatype Field<!S> = Field(
    zero: S, one: S, plus: (S, S) -> S, negative: S -> S, times: (S, S) -> S, over: (S, S) -> S, conj: S -> S)
  {
    function minus(a: S, b: S): S {
      plus(a, negative(b))
    }
  }

  ghost predicate PlusLaws<S>(f: Field<S>, a: S, b: S, c: S) {
    && f.plus(f.plus(a, b), c) == f.plus(a, f.plus(b, c)) && f.plus(a, b) == f.plus(b, a)
    && f.plus(a, f.zero) == a && f.plus(a, f.negative(a)) == f.zero
  }

  ghost predicate TimesLaws<S>(f: Field<S>, a: S, b: S, c: S) {
    && f.times(f.times(a, b), c) == f.times(a, f.times(b, c)) && f.times(a, b) == f.times(b, a) && f.times(a, f.one) == a
    && f.times(a, f.plus(b, c)) == f.plus(f.times(a, b), f.times(a, c))
    && (b != f.zero ==> f.times(b, f.over(a, b)) == a)
  }

  ghost predicate ConjLaws<S>(f: Field<S>, a: S, b: S) {
    && f.conj(f.plus(a, b)) == f.plus(f.conj(a), f.conj(b)) && f.conj(f.times(a, b)) == f.times(f.conj(a), f.conj(b))
    && f.conj(f.conj(a)) == a
  }

  ghost predicate Laws<S>(f: Field<S>, a: S, b: S, c: S) {
    PlusLaws(f, a, b, c) && TimesLaws(f, a, b, c) && ConjLaws(f, a, b)
  }

  ghost predicate IsField<S(!new)>(f: Field<S>) {
    f.zero != f.one && forall a, b, c :: Laws(f, a, b, c)
  }

  // ----- what follows in any field -----

  lemma PlusZero<S(!new)>(f: Field<S>, a: S)
    requires IsField(f)
    ensures f.plus(a, f.zero) == a == f.plus(f.zero, a)
  {
    assert Laws(f, a, f.zero, a);
  }

  lemma Commute<S(!new)>(f: Field<S>, a: S, b: S)
    requires IsField(f)
    ensures f.plus(a, b) == f.plus(b, a)
  {
    assert Laws(f, a, b, a);
  }

  lemma Group<S(!new)>(f: Field<S>, a: S, b: S, c: S)
    requires IsField(f)
    ensures f.plus(f.plus(a, b), c) == f.plus(a, f.plus(b, c))
  {
    assert Laws(f, a, b, c);
  }

  /** Taking away what was added, on either side. */
  lemma TakeBack<S(!new)>(f: Field<S>, a: S, b: S)
    requires IsField(f)
    ensures f.minus(f.plus(a, b), b) == a == f.plus(f.minus(a, b), b) == f.plus(b, f.minus(a, b))
    ensures f.minus(f.plus(b, a), b) == a
  {
    assert Laws(f, b, f.negative(b), a);
    assert Laws(f, a, b, f.negative(b)) && Laws(f, a, f.negative(b), b);
    Commute(f, b, f.negative(b));
    PlusZero(f, a);
    Commute(f, b, a);
    Commute(f, b, f.minus(a, b));
  }

  lemma CancelPlus<S(!new)>(f: Field<S>, s: S, x: S, y: S)
    requires IsField(f) && f.plus(s, x) == f.plus(s, y)
    ensures x == y
  {
    TakeBack(f, x, s);
    TakeBack(f, y, s);
  }

  lemma MinusZero<S(!new)>(f: Field<S>, a: S)
    requires IsField(f)
    ensures f.minus(a, f.zero) == a
  {
    TakeBack(f, a, f.zero);
    PlusZero(f, a);
  }

  lemma NegativeUnique<S(!new)>(f: Field<S>, a: S, b: S)
    requires IsField(f) && f.plus(a, b) == f.zero
    ensures b == f.negative(a)
  {
    assert Laws(f, a, a, a);
    CancelPlus(f, a, b, f.negative(a));
  }

  /** Taking away two things one after the other. */
  lemma MinusMinus<S(!new)>(f: Field<S>, a: S, b: S, c: S)
    requires IsField(f)
    ensures f.minus(f.minus(a, b), c) == f.minus(a, f.plus(b, c))
  {
    var whole := f.minus(f.minus(a, b), c);
    Commute(f, b, c);
    Group(f, whole, c, b);
    TakeBack(f, f.minus(a, b), c);
    TakeBack(f, a, b);
    assert f.plus(whole, f.plus(b, c)) == a;
    TakeBack(f, whole, f.plus(b, c));
  }

  lemma AddBack<S(!new)>(f: Field<S>, a: S, b: S, c: S)
    requires IsField(f)
    ensures f.plus(f.minus(a, f.plus(b, c)), c) == f.minus(a, b)
  {
    MinusMinus(f, a, b, c);
    TakeBack(f, f.minus(a, b), c);
  }

  lemma TimesZero<S(!new)>(f: Field<S>, t: S)
    requires IsField(f)
    ensures f.times(f.zero, t) == f.zero == f.times(t, f.zero)
  {
    var z := f.times(t, f.zero);
    assert Laws(f, t, f.zero, f.zero);
    PlusZero(f, f.zero);
    PlusZero(f, z);
    CancelPlus(f, z, z, f.zero);
    assert Laws(f, f.zero, t, t);
  }

  lemma NothingAdded<S(!new)>(f: Field<S>, v: S, c: S)
    requires IsField(f)
    ensures f.plus(v, f.times(c, f.zero)) == v == f.plus(v, f.times(f.zero, c))
  {
    TimesZero(f, c);
    PlusZero(f, v);
  }

  lemma TimesOne<S(!new)>(f: Field<S>, t: S)
    requires IsField(f)
    ensures f.times(f.one, t) == t
  {
    assert Laws(f, t, f.one, t);
  }

  lemma TimesNegative<S(!new)>(f: Field<S>, c: S, t: S)
    requires IsField(f)
    ensures f.times(c, f.negative(t)) == f.negative(f.times(c, t))
  {
    assert Laws(f, c, t, f.negative(t)) && Laws(f, t, t, t);
    TimesZero(f, c);
    assert Laws(f, c, f.zero, c);
    NegativeUnique(f, f.times(c, t), f.times(c, f.negative(t)));
  }

  lemma TimesOver<S(!new)>(f: Field<S>, v: S, d: S)
    requires IsField(f) && d != f.zero
    ensures f.times(d, f.over(v, d)) == v
  {
    assert Laws(f, v, d, v);
  }

  /** A factor that is not zero can be cancelled. */
  lemma CancelTimes<S(!new)>(f: Field<S>, d: S, x: S, y: S)
    requires IsField(f) && d != f.zero && f.times(d, x) == f.times(d, y)
    ensures x == y
  {
    var inverse := f.over(f.one, d);
    TimesOver(f, f.one, d);
    assert Laws(f, inverse, d, x) && Laws(f, inverse, d, y);
    TimesOne(f, x);
    TimesOne(f, y);
  }

  /** Conjugation keeps one, zero, and what is not zero. */
  lemma ConjUnits<S(!new)>(f: Field<S>, a: S)
    requires IsField(f)
    ensures f.conj(f.one) == f.one && f.conj(f.zero) == f.zero && (a != f.zero ==> f.conj(a) != f.zero)
  {
    assert Laws(f, f.conj(f.one), f.one, a) && Laws(f, f.one, f.one, a);
    assert Laws(f, f.zero, f.zero, a) && Laws(f, a, a, a);
    TimesOne(f, f.conj(f.one));
    var z := f.conj(f.zero);
    PlusZero(f, f.zero);
    PlusZero(f, z);
    CancelPlus(f, z, z, f.zero);
  }

  // ----- the real numbers -----

  const REAL: Field<real> := Field(
    0.0, 1.0, (a, b) => a + b, a => -a, (a, b) => a * b, (a, b) => if b == 0.0 then 0.0 else a / b, a => a)

  lemma RealField()
    ensures IsField(REAL)
  {
    forall a, b, c ensures Laws(REAL, a, b, c) {
      if b != 0.0 {
        QuotientTimes(a, b);
      }
    }
  }

  // ----- the complex numbers -----

  datatype Complex = Complex(re: real, im: real)

  function Times(a: Complex, b: Complex): Complex {
    Complex(a.re * b.re - a.im * b.im, a.re * b.im + a.im * b.re)
  }

  function Conj(a: Complex): Complex {
    Complex(a.re, -a.im)
  }

  function SquaredSize(a: Complex): real {
    a.re * a.re + a.im * a.im
  }

  function Over(a: Complex, b: Complex): Complex {
    if b == Complex(0.0, 0.0) then b
    else
      Positive(b);
      var q := Times(a, Conj(b));
      Complex(q.re / SquaredSize(b), q.im / SquaredSize(b))
  }

  const COMPLEX: Field<Complex> := Field(
    Complex(0.0, 0.0), Complex(1.0, 0.0),
    (a: Complex, b: Complex) => Complex(a.re + b.re, a.im + b.im), (a: Complex) => Complex(-a.re, -a.im),
    Times, Over, Conj)

  /** A number times its conjugate is its squared size, without an imaginary part. */
  lemma ConjSize(a: Complex)
    ensures COMPLEX.times(a, COMPLEX.conj(a)) == Complex(SquaredSize(a), 0.0)
  {
    SizeParts(a.re, a.im);
  }

  lemma SizeParts(x: real, y: real)
    ensures x * x - y * (-y) == x * x + y * y && x * (-y) + y * x == 0.0
  {
  }

  lemma ComplexField()
    ensures IsField(COMPLEX)
  {
    forall a, b, c ensures Laws(COMPLEX, a, b, c) {
      ComplexPlus(a, b, c);
      ComplexTimes(a, b, c);
      ConjTimes(a, b);
    }
  }

  lemma ComplexPlus(a: Complex, b: Complex, c: Complex)
    ensures PlusLaws(COMPLEX, a, b, c)
  {
  }

  lemma ComplexTimes(a: Complex, b: Complex, c: Complex)
    ensures TimesLaws(COMPLEX, a, b, c)
  {
    TimesGroup(a, b, c);
    TimesPlus(a, b, c);
    if b != COMPLEX.zero {
      ComplexTimesOver(a, b);
    }
  }

  lemma TimesGroup(a: Complex, b: Complex, c: Complex)
    ensures Times(Times(a, b), c) == Times(a, Times(b, c)) && Times(a, b) == Times(b, a)
  {
    GroupParts(a.re, a.im, b.re, b.im, c.re, c.im);
  }

  lemma GroupParts(p: real, q: real, r: real, s: real, x: real, y: real)
    ensures (p * r - q * s) * x - (p * s + q * r) * y == p * (r * x - s * y) - q * (r * y + s * x)
    ensures (p * r - q * s) * y + (p * s + q * r) * x == p * (r * y + s * x) + q * (r * x - s * y)
  {
    assert (p * r - q * s) * x == p * (r * x) - q * (s * x) && (p * r - q * s) * y == p * (r * y) - q * (s * y);
    assert (p * s + q * r) * y == p * (s * y) + q * (r * y) && (p * s + q * r) * x == p * (s * x) + q * (r * x);
    DistributeMinus(p, r * x, s * y);
    DistributePlus(q, r * y, s * x);
    DistributePlus(p, r * y, s * x);
    DistributeMinus(q, r * x, s * y);
  }

  lemma TimesPlus(a: Complex, b: Complex, c: Complex)
    ensures Times(a, Complex(b.re + c.re, b.im + c.im)) == Complex(Times(a, b).re + Times(a, c).re, Times(a, b).im + Times(a, c).im)
  {
  }

  lemma ConjTimes(a: Complex, b: Complex)
    ensures ConjLaws(COMPLEX, a, b)
  {
  }

  lemma Positive(a: Complex)
    requires a != Complex(0.0, 0.0)
    ensures SquaredSize(a) > 0.0
  {
    SquareNonNegative(a.re);
    SquareNonNegative(a.im);
    if a.re != 0.0 {
      var s := SquareValue(a.re);
    } else {
      assert a == Complex(0.0, a.im);
      var s := SquareValue(a.im);
    }
  }

  lemma Quotients(p: real, q: real, x: real, y: real, s: real, z: real)
    requires s > 0.0 && p * x - q * y == z * s
    ensures p * (x / s) - q * (y / s) == z
  {
    QuotientTimes(x, s);
    QuotientTimes(y, s);
    var u, v := x / s, y / s;
    Replace(p, u * s, x);
    Replace(q, v * s, y);
    assert p * (u * s) == (p * u) * s && q * (v * s) == (q * v) * s;
    assert (p * u - q * v) * s == (p * u) * s - (q * v) * s;
    CancelFactor(p * u - q * v, z, s);
  }

  lemma Expand(p: real, q: real, x: real, y: real)
    ensures p * (x * p + y * q) - q * (y * p - x * q) == x * (p * p + q * q)
  {
    assert p * (x * p + y * q) == x * (p * p) + y * (p * q);
    assert q * (y * p - x * q) == y * (p * q) - x * (q * q);
  }

  lemma ComplexTimesOver(a: Complex, b: Complex)
    requires b != Complex(0.0, 0.0)
    ensures Times(b, Over(a, b)) == a
  {
    Positive(b);
    var q, s := Times(a, Conj(b)), SquaredSize(b);
    Expand(b.re, b.im, a.re, a.im);
    assert b.re * q.re - b.im * q.im == a.re * s;
    Quotients(b.re, b.im, q.re, q.im, s, a.re);
    Expand(b.re, -b.im, a.im, a.re);
    assert b.re * q.im - (-b.im) * q.re == a.im * s;
    Quotients(b.re, -b.im, q.im, q.re, s, a.im);
    assert b.re * (q.im / s) + b.im * (q.re / s) == a.im;
  }
}

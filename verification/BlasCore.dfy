/**
 Triangular matrices in band and packed storage, the product with a vector, and why a triangular
 system has one solution.
 */
module BlasCore {
  import opened BlasScalar

  datatype Op = NoTrans | Trans | Adjoint

  /** Which triangle, whether the diagonal is taken to be ones, and whether the transpose is meant, conjugated or not. */
  datatype Form = Form(upper: bool, unit: bool, op: Op)
  {
    predicate Turned() {
      !op.NoTrans?
    }
  }

  /** The operations that go by rows: the storage's columns are the rows that are meant. */
  function Turn(conj: bool): Op {
    if conj then Adjoint else Trans
  }

  function MaybeConj<S(!new)>(f: Field<S>, conj: bool, v: S): S {
    if conj then f.conj(v) else v
  }

  /**
   Band storage column by column: row k + i - j (upper) or i - j (lower) of column j holds entry (i, j).
   Packed storage: the columns of the triangle one behind the other.
   */
  datatype Mat<!S> =
    | Band(f: Field<S>, cols: seq<seq<S>>, k: nat, form: Form)
    | Packed(f: Field<S>, ap: seq<S>, n: nat, form: Form)

  /** 1 + 2 + ... + i, where column i of a packed upper triangle begins. */
  function UpperStart(i: nat): nat {
    if i == 0 then 0 else UpperStart(i - 1) + i
  }

  /** n + (n - 1) + ..., where column i of a packed lower triangle begins. */
  function LowerStart(n: nat, i: nat): nat
    requires i <= n
  {
    if i == 0 then 0 else LowerStart(n, i - 1) + (n - (i - 1))
  }

  lemma {:induction false} UpperMonotone(i: nat, j: nat)
    requires i <= j
    ensures UpperStart(i) <= UpperStart(j)
  {
    if i < j {
      UpperMonotone(i, j - 1);
    }
  }

  lemma UpperFits(i: nat, j: nat, n: nat)
    requires i <= j < n
    ensures UpperStart(j) + i < UpperStart(n)
  {
    UpperMonotone(j + 1, n);
  }

  /** Both ways of counting the triangle agree. */
  lemma {:induction false} LowerIsUpper(n: nat, i: nat)
    requires i <= n
    ensures LowerStart(n, i) + UpperStart(n - i) == UpperStart(n)
  {
    if i > 0 {
      LowerIsUpper(n, i - 1);
    }
  }

  lemma LowerFits(n: nat, i: nat, j: nat)
    requires j <= i < n
    ensures LowerStart(n, j) + (i - j) < UpperStart(n)
  {
    LowerIsUpper(n, j);
    UpperFits(0, n - j - 1, n - j);
    assert UpperStart(n - j) == UpperStart(n - j - 1) + (n - j);
  }

  /** The storage is as large as its size and bandwidth say, and its scalars form a field. */
  ghost predicate Stored<S(!new)>(m: Mat<S>) {
    IsField(m.f) &&
    match m
    case Band(_, cols, k, _) => forall j :: 0 <= j < |cols| ==> |cols[j]| >= k + 1
    case Packed(_, ap, n, _) => |ap| == UpperStart(n)
  }

  function Size<S(!new)>(m: Mat<S>): nat {
    match m
    case Band(_, cols, _, _) => |cols|
    case Packed(_, _, n, _) => n
  }

  /** Entry (i, j) inside the stored triangle, before transposing. */
  function Raw<S(!new)>(m: Mat<S>, i: nat, j: nat): S
    requires Stored(m) && i < Size(m) && j < Size(m) && (if m.form.upper then i <= j else j <= i)
  {
    match m
    case Band(_, cols, k, form) =>
      if form.upper then (if j - i <= k then cols[j][k + i - j] else m.f.zero)
      else (if i - j <= k then cols[j][i - j] else m.f.zero)
    case Packed(_, ap, n, form) =>
      if form.upper then (UpperFits(i, j, n); ap[UpperStart(j) + i])
      else (LowerFits(n, i, j); ap[LowerStart(n, j) + (i - j)])
  }

  /** Entry (i, j) of the matrix that is meant. */
  function At<S(!new)>(m: Mat<S>, i: nat, j: nat): S
    requires Stored(m) && i < Size(m) && j < Size(m)
  {
    if i == j && m.form.unit then m.f.one
    else
      var (r, c) := if m.form.Turned() then (j, i) else (i, j);
      if (if m.form.upper then r <= c else c <= r) then MaybeConj(m.f, m.form.op.Adjoint?, Raw(m, r, c)) else m.f.zero
  }

  /** The matrix that is meant is lower triangular. */
  predicate IsLower<S(!new)>(m: Mat<S>) {
    m.form.upper == m.form.Turned()
  }

  lemma Triangular<S(!new)>(m: Mat<S>, i: nat, j: nat)
    requires Stored(m) && i < Size(m) && j < Size(m) && (if IsLower(m) then i < j else j < i)
    ensures At(m, i, j) == m.f.zero
  {
  }

  /** The same storage, read as itself, its transpose or its conjugate transpose. */
  function Meaning<S(!new)>(m: Mat<S>, op: Op): (r: Mat<S>)
    ensures Size(r) == Size(m) && (Stored(m) ==> Stored(r))
  {
    var form := Form(m.form.upper, m.form.unit, op);
    match m
    case Band(f, cols, k, _) => Band(f, cols, k, form)
    case Packed(f, ap, n, _) => Packed(f, ap, n, form)
  }

  lemma RawSame<S(!new)>(m: Mat<S>, op: Op, i: nat, j: nat)
    requires Stored(m) && i < Size(m) && j < Size(m) && (if m.form.upper then i <= j else j <= i)
    ensures Raw(Meaning(m, op), i, j) == Raw(m, i, j)
  {
  }

  /** The conjugate transpose: entries change places and are conjugated, ones on the diagonal stay. */
  lemma AdjointEntry<S(!new)>(m: Mat<S>, i: nat, j: nat)
    requires Stored(m) && i < Size(m) && j < Size(m)
    ensures At(Meaning(m, Adjoint), i, j) == m.f.conj(At(Meaning(m, NoTrans), j, i))
    ensures At(Meaning(m, Trans), i, j) == At(Meaning(m, NoTrans), j, i)
  {
    ConjUnits(m.f, m.f.one);
    if if m.form.upper then j <= i else i <= j {
      RawSame(m, Adjoint, j, i);
      RawSame(m, Trans, j, i);
      RawSame(m, NoTrans, j, i);
    }
  }

  // ----- sums -----

  /** The sum of entry (i, j) times x[j] for j from lo up to hi. */
  function Sum<S(!new)>(m: Mat<S>, x: seq<S>, i: nat, lo: nat, hi: nat): S
    requires Stored(m) && |x| == Size(m) && i < Size(m) && hi <= Size(m)
  {
    if hi <= lo then m.f.zero else m.f.plus(Sum(m, x, i, lo, hi - 1), m.f.times(At(m, i, hi - 1), x[hi - 1]))
  }

  lemma {:induction false} SumSplit<S(!new)>(m: Mat<S>, x: seq<S>, i: nat, lo: nat, mid: nat, hi: nat)
    requires Stored(m) && |x| == Size(m) && i < Size(m) && lo <= mid <= hi <= Size(m)
    ensures Sum(m, x, i, lo, hi) == m.f.plus(Sum(m, x, i, lo, mid), Sum(m, x, i, mid, hi))
  {
    if mid < hi {
      SumSplit(m, x, i, lo, mid, hi - 1);
      Group(m.f, Sum(m, x, i, lo, mid), Sum(m, x, i, mid, hi - 1), m.f.times(At(m, i, hi - 1), x[hi - 1]));
    } else {
      PlusZero(m.f, Sum(m, x, i, lo, mid));
    }
  }

  lemma {:induction false} SumZero<S(!new)>(m: Mat<S>, x: seq<S>, i: nat, lo: nat, hi: nat)
    requires Stored(m) && |x| == Size(m) && i < Size(m) && lo <= hi <= Size(m)
    requires forall j :: lo <= j < hi ==> At(m, i, j) == m.f.zero
    ensures Sum(m, x, i, lo, hi) == m.f.zero
  {
    if lo < hi {
      SumZero(m, x, i, lo, hi - 1);
      TimesZero(m.f, x[hi - 1]);
      PlusZero(m.f, m.f.zero);
    }
  }

  lemma {:induction false} SumSame<S(!new)>(m: Mat<S>, x: seq<S>, y: seq<S>, i: nat, lo: nat, hi: nat)
    requires Stored(m) && |x| == |y| == Size(m) && i < Size(m) && lo <= hi <= Size(m)
    requires forall j :: lo <= j < hi ==> x[j] == y[j]
    ensures Sum(m, x, i, lo, hi) == Sum(m, y, i, lo, hi)
  {
    if lo < hi {
      SumSame(m, x, y, i, lo, hi - 1);
    }
  }

  lemma SumOne<S(!new)>(m: Mat<S>, x: seq<S>, i: nat, j: nat)
    requires Stored(m) && |x| == Size(m) && i < Size(m) && j < Size(m)
    ensures Sum(m, x, i, j, j + 1) == m.f.times(At(m, i, j), x[j])
  {
    assert Sum(m, x, i, j, j) == m.f.zero;
    PlusZero(m.f, m.f.times(At(m, i, j), x[j]));
  }

  /** Only one side of the diagonal counts. */
  lemma SumTriangle<S(!new)>(m: Mat<S>, x: seq<S>, i: nat)
    requires Stored(m) && |x| == Size(m) && i < Size(m)
    ensures var n, d := Size(m), m.f.times(At(m, i, i), x[i]);
            Sum(m, x, i, 0, n) == if IsLower(m) then m.f.plus(Sum(m, x, i, 0, i), d) else m.f.plus(d, Sum(m, x, i, i + 1, n))
  {
    var n, d := Size(m), m.f.times(At(m, i, i), x[i]);
    SumSplit(m, x, i, 0, i, n);
    SumSplit(m, x, i, i, i + 1, n);
    SumOne(m, x, i, i);
    PlusZero(m.f, d);
    PlusZero(m.f, m.f.plus(d, Sum(m, x, i, i + 1, n)));
    forall j | (if IsLower(m) then i < j < n else 0 <= j < i) ensures At(m, i, j) == m.f.zero {
      Triangular(m, i, j);
    }
    if IsLower(m) {
      SumZero(m, x, i, i + 1, n);
    } else {
      SumZero(m, x, i, 0, i);
    }
  }

  /** y is the matrix times x. */
  ghost predicate Multiplies<S(!new)>(m: Mat<S>, x: seq<S>, y: seq<S>) {
    && Stored(m) && |x| == |y| == Size(m)
    && forall i :: 0 <= i < |x| ==> y[i] == Sum(m, x, i, 0, |x|)
  }

  ghost predicate Regular<S(!new)>(m: Mat<S>) {
    Stored(m) && forall i :: 0 <= i < Size(m) ==> At(m, i, i) != m.f.zero
  }

  lemma CancelDiagonal<S(!new)>(f: Field<S>, d: S, x: S, y: S, s: S)
    requires IsField(f) && d != f.zero && f.plus(s, f.times(d, x)) == f.plus(s, f.times(d, y))
    ensures x == y
  {
    CancelPlus(f, s, f.times(d, x), f.times(d, y));
    CancelTimes(f, d, x, y);
  }

  /** From the end of the diagonal where the rows are shortest, one unknown after the other is determined. */
  lemma {:induction false} SameUpTo<S(!new)>(m: Mat<S>, x1: seq<S>, x2: seq<S>, y: seq<S>, p: nat)
    requires Regular(m) && Multiplies(m, x1, y) && Multiplies(m, x2, y) && p <= Size(m)
    ensures forall i :: 0 <= i < Size(m) && (if IsLower(m) then i < p else Size(m) - p <= i) ==> x1[i] == x2[i]
  {
    if p > 0 {
      SameUpTo(m, x1, x2, y, p - 1);
      var n := Size(m);
      var i := if IsLower(m) then p - 1 else n - p;
      SumTriangle(m, x1, i);
      SumTriangle(m, x2, i);
      if IsLower(m) {
        SumSame(m, x1, x2, i, 0, i);
        CancelDiagonal(m.f, At(m, i, i), x1[i], x2[i], Sum(m, x1, i, 0, i));
      } else {
        SumSame(m, x1, x2, i, i + 1, n);
        Commute(m.f, m.f.times(At(m, i, i), x1[i]), Sum(m, x1, i, i + 1, n));
        Commute(m.f, m.f.times(At(m, i, i), x2[i]), Sum(m, x1, i, i + 1, n));
        CancelDiagonal(m.f, At(m, i, i), x1[i], x2[i], Sum(m, x1, i, i + 1, n));
      }
    }
  }

  /** A triangular system without a zero on the diagonal has at most one solution. */
  lemma OneSolution<S(!new)>(m: Mat<S>, x1: seq<S>, x2: seq<S>, y: seq<S>)
    requires Regular(m) && Multiplies(m, x1, y) && Multiplies(m, x2, y)
    ensures x1 == x2
  {
    SameUpTo(m, x1, x2, y, Size(m));
  }

  // ----- substitution, in the order of either triangle -----

  /** The p-th unknown to be determined: from the top of a lower triangle, from the bottom of an upper one. */
  function Place<S(!new)>(m: Mat<S>, p: nat): nat
    requires p < Size(m)
  {
    if IsLower(m) then p else Size(m) - 1 - p
  }

  predicate Passed<S(!new)>(m: Mat<S>, p: nat, i: nat)
    requires p <= Size(m)
  {
    if IsLower(m) then i < p else Size(m) - p <= i
  }

  /** Row r's sum over the first p unknowns. */
  function Past<S(!new)>(m: Mat<S>, x: seq<S>, r: nat, p: nat): S
    requires Stored(m) && |x| == Size(m) && r < Size(m) && p <= Size(m)
  {
    if IsLower(m) then Sum(m, x, r, 0, p) else Sum(m, x, r, Size(m) - p, Size(m))
  }

  lemma PastNext<S(!new)>(m: Mat<S>, x: seq<S>, r: nat, p: nat)
    requires Stored(m) && |x| == Size(m) && r < Size(m) && p < Size(m)
    ensures Past(m, x, r, p + 1) == m.f.plus(Past(m, x, r, p), m.f.times(At(m, r, Place(m, p)), x[Place(m, p)]))
  {
    if !IsLower(m) {
      var n := Size(m);
      SumSplit(m, x, r, n - p - 1, n - p, n);
      SumOne(m, x, r, n - p - 1);
      Commute(m.f, Sum(m, x, r, n - p - 1, n - p), Sum(m, x, r, n - p, n));
    }
  }

  lemma PastSame<S(!new)>(m: Mat<S>, x: seq<S>, y: seq<S>, r: nat, p: nat)
    requires Stored(m) && |x| == |y| == Size(m) && r < Size(m) && p <= Size(m)
    requires forall i :: 0 <= i < |x| && Passed(m, p, i) ==> x[i] == y[i]
    ensures Past(m, x, r, p) == Past(m, y, r, p)
  {
    if IsLower(m) {
      SumSame(m, x, y, r, 0, p);
    } else {
      SumSame(m, x, y, r, Size(m) - p, Size(m));
    }
  }

  /** Row r is solved by the unknowns up to its own. */
  ghost predicate RowSolved<S(!new)>(m: Mat<S>, b: seq<S>, x: seq<S>, p: nat)
    requires Stored(m) && |x| == |b| == Size(m) && p < Size(m)
  {
    var r := Place(m, p);
    b[r] == m.f.plus(Past(m, x, r, p), m.f.times(At(m, r, r), x[r]))
  }

  lemma RowSolvedSame<S(!new)>(m: Mat<S>, b: seq<S>, x: seq<S>, y: seq<S>, p: nat)
    requires Stored(m) && |x| == |y| == |b| == Size(m) && p < Size(m) && RowSolved(m, b, x, p)
    requires forall i :: 0 <= i < |x| && Passed(m, p + 1, i) ==> x[i] == y[i]
    ensures RowSolved(m, b, y, p)
  {
    PastSame(m, x, y, Place(m, p), p);
  }

  /** When every row is solved, x is the solution. */
  lemma AllSolved<S(!new)>(m: Mat<S>, b: seq<S>, x: seq<S>)
    requires Stored(m) && |x| == |b| == Size(m) && forall p :: 0 <= p < Size(m) ==> RowSolved(m, b, x, p)
    ensures Multiplies(m, x, b)
  {
    forall i | 0 <= i < |x| ensures b[i] == Sum(m, x, i, 0, |x|) {
      var p := if IsLower(m) then i else Size(m) - 1 - i;
      assert RowSolved(m, b, x, p) && Place(m, p) == i;
      SumTriangle(m, x, i);
      Commute(m.f, Past(m, x, i, p), m.f.times(At(m, i, i), x[i]));
    }
  }

  /** Row by row: the first p unknowns are determined, the others not yet looked at. */
  ghost predicate ByRows<S(!new)>(m: Mat<S>, b: seq<S>, x: seq<S>, p: nat) {
    && Stored(m) && |x| == |b| == Size(m) && p <= Size(m)
    && (forall q :: 0 <= q < p ==> RowSolved(m, b, x, q))
    && (forall i :: 0 <= i < |x| && !Passed(m, p, i) ==> x[i] == b[i])
  }

  /** Column by column: the first p unknowns are determined and subtracted from the rows that follow. */
  ghost predicate ByColumns<S(!new)>(m: Mat<S>, b: seq<S>, x: seq<S>, p: nat) {
    && Stored(m) && |x| == |b| == Size(m) && p <= Size(m)
    && (forall q :: 0 <= q < p ==> RowSolved(m, b, x, q))
    && (forall i :: 0 <= i < |x| && !Passed(m, p, i) ==> x[i] == m.f.minus(b[i], Past(m, x, i, p)))
  }

  /** Nothing is determined yet. */
  lemma NothingSolved<S(!new)>(m: Mat<S>, b: seq<S>)
    requires Stored(m) && |b| == Size(m)
    ensures ByRows(m, b, b, 0) && ByColumns(m, b, b, 0)
  {
    forall i | 0 <= i < |b| ensures b[i] == m.f.minus(b[i], Past(m, b, i, 0)) {
      MinusZero(m.f, b[i]);
    }
  }

  /** The value that solves a row, where the diagonal is one or is divided by. */
  lemma Divides<S(!new)>(f: Field<S>, d: S, v: S, w: S)
    requires IsField(f) && d != f.zero && w == f.over(v, d)
    ensures f.times(d, w) == v
  {
    TimesOver(f, v, d);
  }

  lemma RowStep<S(!new)>(m: Mat<S>, b: seq<S>, x: seq<S>, p: nat, v: S)
    requires Regular(m) && ByRows(m, b, x, p) && p < Size(m)
    requires m.f.times(At(m, Place(m, p), Place(m, p)), v) == m.f.minus(x[Place(m, p)], Past(m, x, Place(m, p), p))
    ensures ByRows(m, b, x[Place(m, p) := v], p + 1)
  {
    var i := Place(m, p);
    var y := x[i := v];
    PastSame(m, x, y, i, p);
    TakeBack(m.f, b[i], Past(m, x, i, p));
    forall q | 0 <= q < p + 1 ensures RowSolved(m, b, y, q) {
      if q < p {
        RowSolvedSame(m, b, x, y, q);
      }
    }
  }

  lemma ColumnStep<S(!new)>(m: Mat<S>, b: seq<S>, x: seq<S>, y: seq<S>, p: nat)
    requires Regular(m) && ByColumns(m, b, x, p) && p < Size(m) && |y| == |x|
    requires m.f.times(At(m, Place(m, p), Place(m, p)), y[Place(m, p)]) == x[Place(m, p)]
    requires forall i :: 0 <= i < |x| && Passed(m, p, i) ==> y[i] == x[i]
    requires forall i :: 0 <= i < |x| && !Passed(m, p + 1, i) ==> y[i] == m.f.minus(x[i], m.f.times(At(m, i, Place(m, p)), y[Place(m, p)]))
    ensures ByColumns(m, b, y, p + 1)
  {
    forall q | 0 <= q < p + 1 ensures RowSolved(m, b, y, q) {
      if q < p {
        RowSolvedSame(m, b, x, y, q);
      } else {
        PastSame(m, x, y, Place(m, p), p);
        TakeBack(m.f, b[Place(m, p)], Past(m, x, Place(m, p), p));
      }
    }
    forall i | 0 <= i < |x| && !Passed(m, p + 1, i) ensures y[i] == m.f.minus(b[i], Past(m, y, i, p + 1)) {
      PastSame(m, x, y, i, p);
      PastNext(m, y, i, p);
      MinusMinus(m.f, b[i], Past(m, x, i, p), m.f.times(At(m, i, Place(m, p)), y[Place(m, p)]));
    }
  }

  lemma SolvedByRows<S(!new)>(m: Mat<S>, b: seq<S>, x: seq<S>)
    requires ByRows(m, b, x, Size(m)) || ByColumns(m, b, x, Size(m))
    ensures Multiplies(m, x, b)
  {
    AllSolved(m, b, x);
  }

  // ----- segments of vectors -----

  /** What adding a multiple of part of a column does to an entry. */
  function Added<S(!new)>(f: Field<S>, v: S, i: nat, start: nat, len: nat, temp: S, col: seq<S>, offset: nat): S
    requires offset + len <= |col|
  {
    if start <= i < start + len then f.plus(v, f.times(col[offset + (i - start)], temp)) else v
  }

  /** The segments are read and written as wholes. */
  method AddSegment<S(!new)>(f: Field<S>, x: array<S>, start: nat, len: nat, temp: S, col: seq<S>, offset: nat)
    requires start + len <= x.Length && offset + len <= |col|
    modifies x
    ensures forall i :: 0 <= i < x.Length ==> x[i] == Added(f, old(x[i]), i, start, len, temp, col, offset)
  {
    forall i | start <= i < start + len {
      x[i] := f.plus(x[i], f.times(col[offset + (i - start)], temp));
    }
  }

  /** The products of two segments, the first conjugated or not. */
  function Products<S(!new)>(f: Field<S>, conj: bool, col: seq<S>, offset: nat, x: seq<S>, start: nat, len: nat): (s: seq<S>)
    requires offset + len <= |col| && start + len <= |x|
    ensures |s| == len && forall p :: 0 <= p < len ==> s[p] == f.times(MaybeConj(f, conj, col[offset + p]), x[start + p])
  {
    seq(len, p requires 0 <= p < len => f.times(MaybeConj(f, conj, col[offset + p]), x[start + p]))
  }

  function Total<S(!new)>(f: Field<S>, s: seq<S>): S {
    if s == [] then f.zero else f.plus(Total(f, s[..|s| - 1]), s[|s| - 1])
  }

  /** Part of a row's sum, from the stored column. */
  lemma {:induction false} TotalIsSum<S(!new)>(m: Mat<S>, conj: bool, x: seq<S>, row: nat, col: seq<S>, offset: nat, start: nat, len: nat)
    requires Stored(m) && |x| == Size(m) && row < Size(m) && start + len <= |x| && offset + len <= |col|
    requires forall i :: start <= i < start + len ==> At(m, row, i) == MaybeConj(m.f, conj, col[offset + (i - start)])
    ensures Total(m.f, Products(m.f, conj, col, offset, x, start, len)) == Sum(m, x, row, start, start + len)
  {
    if len > 0 {
      var s := Products(m.f, conj, col, offset, x, start, len);
      TotalIsSum(m, conj, x, row, col, offset, start, len - 1);
      assert s[..len - 1] == Products(m.f, conj, col, offset, x, start, len - 1);
      assert At(m, row, start + (len - 1)) == MaybeConj(m.f, conj, col[offset + (len - 1)]);
    }
  }

  lemma MinusTimes<S(!new)>(f: Field<S>, v: S, c: S, t: S)
    requires IsField(f)
    ensures f.plus(v, f.times(c, f.negative(t))) == f.minus(v, f.times(c, t)) && f.minus(v, f.times(f.zero, t)) == v == f.plus(v, f.times(f.zero, t))
  {
    TimesNegative(f, c, t);
    TimesZero(f, t);
    PlusZero(f, v);
    MinusZero(f, v);
  }
}

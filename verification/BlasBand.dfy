/** tbmv and tbsv: a triangular band matrix times a vector, and the solver, both in place. */
module BlasBand {
  import opened BlasScalar
  import opened BlasCore

  // ----- the inner operations, as loops (narrow bands) and as segments (wide ones) -----

  method AddLoop<S(!new)>(f: Field<S>, x: array<S>, start: nat, len: nat, temp: S, col: seq<S>, offset: nat)
    requires start + len <= x.Length && offset + len <= |col|
    modifies x
    ensures forall i :: 0 <= i < x.Length ==> x[i] == Added(f, old(x[i]), i, start, len, temp, col, offset)
  {
    for p := 0 to len
      invariant forall i :: 0 <= i < x.Length ==> x[i] == Added(f, old(x[i]), i, start, p, temp, col, offset)
    {
      x[start + p] := f.plus(x[start + p], f.times(col[offset + p], temp));
    }
  }

  method AddColumn<S(!new)>(f: Field<S>, wide: bool, x: array<S>, start: nat, len: nat, temp: S, col: seq<S>, offset: nat)
    requires start + len <= x.Length && offset + len <= |col|
    modifies x
    ensures forall i :: 0 <= i < x.Length ==> x[i] == Added(f, old(x[i]), i, start, len, temp, col, offset)
  {
    if wide {
      if len > 0 {
        AddSegment(f, x, start, len, temp, col, offset);
      }
    } else {
      AddLoop(f, x, start, len, temp, col, offset);
    }
  }

  /** Adds the products of part of a column, conjugated or not, and part of x, term by term or as one sum. */
  method AddProducts<S(!new)>(f: Field<S>, wide: bool, conj: bool, temp0: S, x: array<S>, start: nat, len: nat, col: seq<S>, offset: nat, ghost m: Mat<S>, ghost row: nat) returns (temp: S)
    requires Stored(m) && m.f == f && x.Length == Size(m) && row < Size(m) && start + len <= x.Length && offset + len <= |col|
    requires forall i :: start <= i < start + len ==> At(m, row, i) == MaybeConj(f, conj, col[offset + (i - start)])
    ensures temp == f.plus(temp0, Sum(m, x[..], row, start, start + len))
  {
    temp := temp0;
    PlusZero(f, temp0);
    if wide {
      if len > 0 {
        TotalIsSum(m, conj, x[..], row, col, offset, start, len);
        temp := f.plus(temp, Total(f, Products(f, conj, col, offset, x[..], start, len)));
      }
    } else {
      for p := 0 to len
        invariant temp == f.plus(temp0, Sum(m, x[..], row, start, start + p))
      {
        assert At(m, row, start + p) == MaybeConj(f, conj, col[offset + p]);
        Group(f, temp0, Sum(m, x[..], row, start, start + p), f.times(At(m, row, start + p), x[start + p]));
        temp := f.plus(temp, f.times(MaybeConj(f, conj, col[offset + p]), x[start + p]));
      }
    }
  }

  // ----- where the band lies -----

  function Start(j: nat, k: nat): nat {
    if j < k then 0 else j - k
  }

  function Below(n: nat, j: nat, k: nat): nat
    requires j < n
  {
    (if j + k < n - 1 then j + k else n - 1) - j
  }

  /** The band layout: row k of the storage is the diagonal of an upper matrix, and row k - t the one t above it. */
  lemma UpperDiagonal<S(!new)>(m: Mat<S>, j: nat, t: nat)
    requires m.Band? && Stored(m) && m.form.upper && t <= j < Size(m)
    ensures Raw(m, j - t, j) == if t <= m.k then m.cols[j][m.k - t] else m.f.zero
  {
  }

  /** Row 0 is the diagonal of a lower matrix, and row t the one t below it. */
  lemma LowerDiagonal<S(!new)>(m: Mat<S>, j: nat, t: nat)
    requires m.Band? && Stored(m) && !m.form.upper && j + t < Size(m)
    ensures Raw(m, j + t, j) == if t <= m.k then m.cols[j][t] else m.f.zero
  {
  }

  /** Where the rows of a column beside the diagonal begin, how many are stored, and where. */
  function ColumnFrom<S(!new)>(m: Mat<S>, j: nat): nat
    requires m.Band? && j < Size(m)
  {
    if m.form.upper then Start(j, m.k) else j + 1
  }

  function ColumnLength<S(!new)>(m: Mat<S>, j: nat): nat
    requires m.Band? && j < Size(m)
  {
    if m.form.upper then j - Start(j, m.k) else Below(Size(m), j, m.k)
  }

  function ColumnOffset<S(!new)>(m: Mat<S>, j: nat): nat
    requires m.Band? && j < Size(m)
  {
    if m.form.upper then m.k - (j - Start(j, m.k)) else 1
  }

  /** Outside its band a row adds nothing. */
  lemma BandPast<S(!new)>(m: Mat<S>, x: seq<S>, p: nat)
    requires m.Band? && m.form.Turned() && Stored(m) && |x| == Size(m) && p < Size(m)
    ensures var j, n := Place(m, p), Size(m);
            Past(m, x, j, p) == Sum(m, x, j, ColumnFrom(m, j), ColumnFrom(m, j) + ColumnLength(m, j))
  {
    var j, n := Place(m, p), Size(m);
    ConjUnits(m.f, m.f.zero);
    PlusZero(m.f, Past(m, x, j, p));
    PlusZero(m.f, if m.form.upper then Sum(m, x, j, Start(j, m.k), j) else Sum(m, x, j, j + 1, j + 1 + Below(n, j, m.k)));
    if m.form.upper {
      SumSplit(m, x, j, 0, Start(j, m.k), j);
      SumZero(m, x, j, 0, Start(j, m.k));
    } else {
      SumSplit(m, x, j, j + 1, j + 1 + Below(n, j, m.k), n);
      SumZero(m, x, j, j + 1 + Below(n, j, m.k), n);
    }
  }

  /** A stored column is a row of the transpose. */
  lemma BandRow<S(!new)>(m: Mat<S>, j: nat)
    requires m.Band? && m.form.Turned() && Stored(m) && j < Size(m)
    ensures var start, len, offset := ColumnFrom(m, j), ColumnLength(m, j), ColumnOffset(m, j);
            && start + len <= Size(m) && offset + len <= |m.cols[j]|
            && forall i :: start <= i < start + len ==> At(m, j, i) == MaybeConj(m.f, m.form.op.Adjoint?, m.cols[j][offset + (i - start)])
  {
  }

  // ----- the product in place: the places are passed from the last to the first -----

  /** The columns from place p on have been added, their own rows replaced. */
  ghost predicate ColumnsAdded<S(!new)>(m: Mat<S>, x0: seq<S>, x: seq<S>, p: nat) {
    && Stored(m) && |x| == |x0| == Size(m) && p <= Size(m)
    && forall i :: 0 <= i < |x| ==> x[i] == if Passed(m, p, i) then x0[i] else m.f.minus(Sum(m, x0, i, 0, |x|), Past(m, x0, i, p))
  }

  /** The rows from place p on have been replaced. */
  ghost predicate RowsReplaced<S(!new)>(m: Mat<S>, x0: seq<S>, x: seq<S>, p: nat) {
    && Stored(m) && |x| == |x0| == Size(m) && p <= Size(m)
    && forall i :: 0 <= i < |x| ==> x[i] == if Passed(m, p, i) then x0[i] else Sum(m, x0, i, 0, |x|)
  }

  lemma AddStep<S(!new)>(m: Mat<S>, x0: seq<S>, x: seq<S>, y: seq<S>, p: nat)
    requires ColumnsAdded(m, x0, x, p + 1) && |y| == |x|
    requires var j := Place(m, p);
             forall i :: 0 <= i < |x| ==>
               y[i] == if i == j then m.f.times(At(m, j, j), x0[j]) else if Passed(m, p, i) then x[i] else m.f.plus(x[i], m.f.times(At(m, i, j), x0[j]))
    ensures ColumnsAdded(m, x0, y, p)
  {
    var j, n := Place(m, p), Size(m);
    forall i | 0 <= i < n && !Passed(m, p, i) ensures y[i] == m.f.minus(Sum(m, x0, i, 0, n), Past(m, x0, i, p)) {
      if i == j {
        SumTriangle(m, x0, j);
        TakeBack(m.f, y[j], Past(m, x0, j, p));
      } else {
        PastNext(m, x0, i, p);
        AddBack(m.f, Sum(m, x0, i, 0, n), Past(m, x0, i, p), m.f.times(At(m, i, j), x0[j]));
      }
    }
  }

  lemma ReplaceStep<S(!new)>(m: Mat<S>, x0: seq<S>, x: seq<S>, p: nat, v: S)
    requires RowsReplaced(m, x0, x, p + 1) && v == m.f.plus(m.f.times(At(m, Place(m, p), Place(m, p)), x0[Place(m, p)]), Past(m, x, Place(m, p), p))
    ensures RowsReplaced(m, x0, x[Place(m, p) := v], p)
  {
    var j := Place(m, p);
    SumTriangle(m, x0, j);
    PastSame(m, x, x0, j, p);
    Commute(m.f, Past(m, x0, j, p), m.f.times(At(m, j, j), x0[j]));
  }

  /** Adding the stored segment of a column, t times, does to entry r what the whole column would. */
  lemma ColumnAdds<S(!new)>(m: Mat<S>, p: nat, r: nat, v: S, t: S)
    requires m.Band? && !m.form.Turned() && Stored(m) && p < Size(m) && r < Size(m)
    ensures var n, j, k := Size(m), Place(m, p), m.k;
            var start, len, offset := ColumnFrom(m, j), ColumnLength(m, j), ColumnOffset(m, j);
            && start + len <= n && offset + len <= |m.cols[j]|
            && Added(m.f, v, r, start, len, t, m.cols[j], offset) ==
               if Passed(m, p + 1, r) then v else m.f.plus(v, m.f.times(At(m, r, j), t))
  {
    NothingAdded(m.f, v, t);
  }

  lemma ColumnAdded<S(!new)>(m: Mat<S>, x0: seq<S>, x: seq<S>, y: seq<S>, p: nat)
    requires m.Band? && !m.form.Turned() && ColumnsAdded(m, x0, x, p + 1) && |y| == |x|
    requires var j := Place(m, p); var t := x[j];
             && ColumnFrom(m, j) + ColumnLength(m, j) <= |x| && ColumnOffset(m, j) + ColumnLength(m, j) <= |m.cols[j]|
             && forall i :: 0 <= i < |x| ==>
                  y[i] == if t == m.f.zero then x[i]
                          else if i == j then (if m.form.unit then t else m.f.times(m.cols[j][if m.form.upper then m.k else 0], t))
                          else Added(m.f, x[i], i, ColumnFrom(m, j), ColumnLength(m, j), t, m.cols[j], ColumnOffset(m, j))
    ensures ColumnsAdded(m, x0, y, p)
  {
    var j := Place(m, p);
    TimesZero(m.f, At(m, j, j));
    TimesOne(m.f, x[j]);
    forall i | 0 <= i < |x| && i != j ensures y[i] == if Passed(m, p, i) then x[i] else m.f.plus(x[i], m.f.times(At(m, i, j), x0[j])) {
      ColumnAdds(m, p, i, x[i], x[j]);
      NothingAdded(m.f, x[i], At(m, i, j));
    }
    AddStep(m, x0, x, y, p);
  }

  /** x := x + the column at place p, and the diagonal's share. */
  method AddOne<S(==, !new)>(m: Mat<S>, x: array<S>, j: nat, ghost x0: seq<S>, ghost p: nat)
    requires m.Band? && !m.form.Turned() && Stored(m) && x.Length == Size(m) && p < Size(m) && j == Place(m, p)
    requires ColumnsAdded(m, x0, x[..], p + 1)
    modifies x
    ensures ColumnsAdded(m, x0, x[..], p)
  {
    ghost var before := x[..];
    var temp := x[j];
    if temp != m.f.zero {
      ColumnAdds(m, p, j, temp, temp);
      AddColumn(m.f, m.k >= 8, x, ColumnFrom(m, j), ColumnLength(m, j), temp, m.cols[j], ColumnOffset(m, j));
      if !m.form.unit {
        x[j] := m.f.times(m.cols[j][if m.form.upper then m.k else 0], temp);
      }
    }
    ColumnAdded(m, x0, before, x[..], p);
  }

  /** The diagonal's share of a row; ones are not multiplied by. */
  method TimesDiagonal<S(!new)>(m: Mat<S>, j: nat, v: S) returns (temp: S)
    requires m.Band? && Stored(m) && j < Size(m)
    ensures temp == m.f.times(At(m, j, j), v)
  {
    temp := v;
    if m.form.unit {
      TimesOne(m.f, v);
    } else {
      var d := MaybeConj(m.f, m.form.op.Adjoint?, m.cols[j][if m.form.upper then m.k else 0]);
      assert d == At(m, j, j);
      temp := m.f.times(d, temp);
    }
  }

  /** A row of the transpose times x. */
  method RowValue<S(!new)>(m: Mat<S>, x: array<S>, j: nat, ghost p: nat) returns (temp: S)
    requires m.Band? && m.form.Turned() && Stored(m) && x.Length == Size(m) && p < Size(m) && j == Place(m, p)
    ensures temp == m.f.plus(m.f.times(At(m, j, j), x[j]), Past(m, x[..], j, p))
  {
    BandPast(m, x[..], p);
    BandRow(m, j);
    temp := TimesDiagonal(m, j, x[j]);
    temp := AddProducts(m.f, m.k >= 8, m.form.op.Adjoint?, temp, x, ColumnFrom(m, j), ColumnLength(m, j), m.cols[j], ColumnOffset(m, j), m, j);
  }

  /** x := x with the row at place p replaced. */
  method ReplaceOne<S(!new)>(m: Mat<S>, x: array<S>, j: nat, ghost x0: seq<S>, ghost p: nat)
    requires m.Band? && m.form.Turned() && Stored(m) && x.Length == Size(m) && p < Size(m) && j == Place(m, p)
    requires RowsReplaced(m, x0, x[..], p + 1)
    modifies x
    ensures RowsReplaced(m, x0, x[..], p)
  {
    ghost var before := x[..];
    var temp := RowValue(m, x, j, p);
    ReplaceStep(m, x0, before, p, temp);
    x[j] := temp;
    assert x[..] == before[j := temp];
  }

  lemma AllAdded<S(!new)>(m: Mat<S>, x0: seq<S>, x: seq<S>)
    requires RowsReplaced(m, x0, x, 0) || ColumnsAdded(m, x0, x, 0)
    ensures Multiplies(m, x0, x)
  {
    forall i | 0 <= i < |x| ensures x[i] == Sum(m, x0, i, 0, |x|) {
      MinusZero(m.f, Sum(m, x0, i, 0, |x|));
    }
  }

  /** x := A x, for A, its transpose or its conjugate transpose; bandwidths from 8 on use segments. */
  method Tbmv<S(==, !new)>(f: Field<S>, cols: seq<seq<S>>, k: nat, form: Form, x: array<S>)
    requires Stored(Band(f, cols, k, form)) && x.Length == |cols|
    modifies x
    ensures Multiplies(Band(f, cols, k, form), old(x[..]), x[..])
  {
    var m := Band(f, cols, k, form);
    var n := |cols|;
    ghost var x0 := x[..];
    // from the far end of the triangle: forwards for an upper one, backwards for a lower one
    var forwards := form.upper != form.Turned();
    for jj := 0 to n
      invariant if form.Turned() then RowsReplaced(m, x0, x[..], n - jj) else ColumnsAdded(m, x0, x[..], n - jj)
    {
      var j := if forwards then jj else n - 1 - jj;
      if form.Turned() {
        ReplaceOne(m, x, j, x0, n - 1 - jj);
      } else {
        AddOne(m, x, j, x0, n - 1 - jj);
      }
    }
    AllAdded(m, x0, x[..]);
  }

  // ----- the solver -----

  function LeastOf(a: nat, b: nat): nat {
    if a < b then a else b
  }

  /** The first half of a row: what is left of it once the solved unknowns are taken out. */
  method RowRest<S(!new)>(f: Field<S>, cols: seq<seq<S>>, k: nat, unit: bool, lower: bool, conj: bool, x: array<S>, ii: nat, i: nat) returns (v: S)
    requires var m := Band(f, cols, k, Form(lower, unit, Turn(conj)));
             Stored(m) && x.Length == |cols| && ii < |cols| && i == Place(m, ii)
    ensures v == f.minus(x[i], Past(Band(f, cols, k, Form(lower, unit, Turn(conj))), x[..], i, ii))
  {
    ghost var m := Band(f, cols, k, Form(lower, unit, Turn(conj)));
    var actualK := LeastOf(k, ii);
    var actualStart := if lower then k - actualK else 1;
    BandPast(m, x[..], ii);
    BandRow(m, i);
    v := x[i];
    MinusZero(f, v);
    if actualK > 0 {
      var from := if lower then i - actualK else i + 1;
      assert actualK == ColumnLength(m, i) && actualStart == ColumnOffset(m, i) && from == ColumnFrom(m, i);
      TotalIsSum(m, conj, x[..], i, cols[i], actualStart, from, actualK);
      v := f.minus(v, Total(f, Products(f, conj, cols[i], actualStart, x[..], from, actualK)));
    }
  }

  /** One row of the solver that goes row by row; the columns of the storage are the rows of the transpose. */
  method SolveRow<S(!new)>(f: Field<S>, cols: seq<seq<S>>, k: nat, unit: bool, lower: bool, conj: bool, x: array<S>, ghost b: seq<S>, ii: nat)
    requires var m := Band(f, cols, k, Form(lower, unit, Turn(conj)));
             Regular(m) && x.Length == |cols| && ii < |cols| && ByRows(m, b, x[..], ii)
    modifies x
    ensures ByRows(Band(f, cols, k, Form(lower, unit, Turn(conj))), b, x[..], ii + 1)
  {
    ghost var m := Band(f, cols, k, Form(lower, unit, Turn(conj)));
    ghost var before := x[..];
    var n := |cols|;
    var i := if lower then ii else n - ii - 1;
    var v := RowRest(f, cols, k, unit, lower, conj, x, ii, i);
    if !unit {
      var d := MaybeConj(f, conj, cols[i][if lower then k else 0]);
      assert d == At(m, i, i);
      Divides(f, d, v, f.over(v, d));
      v := f.over(v, d);
    }
    TimesOne(f, v);
    RowStep(m, b, before, ii, v);
    x[i] := v;
    assert x[..] == before[i := v];
  }

  /** The first half of a column: the division by the diagonal, unless it is one. */
  method DivideDiagonal<S(!new)>(f: Field<S>, cols: seq<seq<S>>, k: nat, unit: bool, lower: bool, x: array<S>, i: nat)
    requires Regular(Band(f, cols, k, Form(!lower, unit, NoTrans))) && x.Length == |cols| && i < |cols|
    modifies x
    ensures x[..] == old(x[..])[i := x[i]] && f.times(At(Band(f, cols, k, Form(!lower, unit, NoTrans)), i, i), x[i]) == old(x[i])
  {
    ghost var m := Band(f, cols, k, Form(!lower, unit, NoTrans));
    if unit {
      TimesOne(f, x[i]);
    } else {
      var d := cols[i][if lower then 0 else k];
      assert d == At(m, i, i);
      Divides(f, d, x[i], f.over(x[i], d));
      x[i] := f.over(x[i], d);
    }
  }

  lemma ColumnTaken<S(!new)>(m: Mat<S>, b: seq<S>, x: seq<S>, y: seq<S>, p: nat, t: S)
    requires m.Band? && !m.form.Turned() && Regular(m) && p < Size(m) && ByColumns(m, b, x, p) && |y| == |x|
    requires m.f.times(At(m, Place(m, p), Place(m, p)), t) == x[Place(m, p)]
    requires var i := Place(m, p);
             && ColumnFrom(m, i) + ColumnLength(m, i) <= |x| && ColumnOffset(m, i) + ColumnLength(m, i) <= |m.cols[i]|
             && forall r :: 0 <= r < |x| ==>
                  y[r] == Added(m.f, x[i := t][r], r, ColumnFrom(m, i), ColumnLength(m, i), m.f.negative(t), m.cols[i], ColumnOffset(m, i))
    ensures ByColumns(m, b, y, p + 1)
  {
    var i := Place(m, p);
    ColumnAdds(m, p, i, t, m.f.negative(t));
    forall r | 0 <= r < |x| && r != i ensures y[r] == if Passed(m, p + 1, r) then x[r] else m.f.minus(x[r], m.f.times(At(m, r, i), t)) {
      ColumnAdds(m, p, r, x[r], m.f.negative(t));
      MinusTimes(m.f, x[r], At(m, r, i), t);
    }
    ColumnStep(m, b, x, y, p);
  }

  /** One column of the solver that goes column by column. */
  method SolveColumn<S(!new)>(f: Field<S>, cols: seq<seq<S>>, k: nat, unit: bool, lower: bool, x: array<S>, ghost b: seq<S>, ii: nat)
    requires var m := Band(f, cols, k, Form(!lower, unit, NoTrans));
             Regular(m) && x.Length == |cols| && ii < |cols| && ByColumns(m, b, x[..], ii)
    modifies x
    ensures ByColumns(Band(f, cols, k, Form(!lower, unit, NoTrans)), b, x[..], ii + 1)
  {
    ghost var m := Band(f, cols, k, Form(!lower, unit, NoTrans));
    ghost var before := x[..];
    var n := |cols|;
    var i := if lower then ii else n - ii - 1;
    var actualK := LeastOf(k, n - ii - 1);
    var actualStart := if lower then 1 else k - actualK;
    ColumnAdds(m, ii, i, x[i], x[i]);
    assert actualK == ColumnLength(m, i) && actualStart == ColumnOffset(m, i) && ColumnFrom(m, i) == if lower then i + 1 else i - actualK;
    DivideDiagonal(f, cols, k, unit, lower, x, i);
    ghost var t := x[i];
    if actualK > 0 {
      AddSegment(f, x, if lower then i + 1 else i - actualK, actualK, f.negative(x[i]), cols[i], actualStart);
    }
    ColumnTaken(m, b, before, x[..], ii, t);
  }

  lemma {:induction false} IdentitySum<S(!new)>(m: Mat<S>, x: seq<S>, i: nat, hi: nat)
    requires m.Band? && m.k == 0 && m.form.unit && Stored(m) && |x| == Size(m) && i < Size(m) && hi <= Size(m)
    ensures Sum(m, x, i, 0, hi) == if i < hi then x[i] else m.f.zero
  {
    if hi > 0 {
      IdentitySum(m, x, i, hi - 1);
      ConjUnits(m.f, m.f.zero);
      TimesOne(m.f, x[hi - 1]);
      NothingAdded(m.f, Sum(m, x, i, 0, hi - 1), x[hi - 1]);
      PlusZero(m.f, x[hi - 1]);
    }
  }

  lemma Identity<S(!new)>(m: Mat<S>, x: seq<S>)
    requires m.Band? && Stored(m) && |x| == Size(m) && (|x| == 0 || (m.k == 0 && m.form.unit))
    ensures Multiplies(m, x, x)
  {
    forall i | 0 <= i < |x| ensures x[i] == Sum(m, x, i, 0, |x|) {
      IdentitySum(m, x, i, |x|);
    }
  }

  /** x := the solution of A x = b for the b that was in x, for A, its transpose or its conjugate transpose. */
  method Tbsv<S(!new)>(f: Field<S>, cols: seq<seq<S>>, k: nat, form: Form, x: array<S>)
    requires Regular(Band(f, cols, k, form)) && x.Length == |cols|
    modifies x
    ensures Multiplies(Band(f, cols, k, form), x[..], old(x[..]))
  {
    ghost var m := Band(f, cols, k, form);
    ghost var b := x[..];
    var n := |cols|;
    if n == 0 || (k == 0 && form.unit) {
      Identity(m, b);
      return;
    }
    NothingSolved(m, b);
    if form.Turned() {
      for ii := 0 to n
        invariant ByRows(m, b, x[..], ii)
      {
        SolveRow(f, cols, k, form.unit, form.upper, form.op.Adjoint?, x, b, ii);
      }
    } else {
      for ii := 0 to n
        invariant ByColumns(m, b, x[..], ii)
      {
        SolveColumn(f, cols, k, form.unit, !form.upper, x, b, ii);
      }
    }
    SolvedByRows(m, b, x[..]);
  }

  /** The solver undoes the product. */
  method TbmvThenTbsv<S(==, !new)>(f: Field<S>, cols: seq<seq<S>>, k: nat, form: Form, x: array<S>)
    requires Regular(Band(f, cols, k, form)) && x.Length == |cols|
    modifies x
    ensures x[..] == old(x[..])
  {
    ghost var x0 := x[..];
    Tbmv(f, cols, k, form, x);
    ghost var y := x[..];
    Tbsv(f, cols, k, form, x);
    OneSolution(Band(f, cols, k, form), x0, x[..], y);
  }

  /** And the product undoes the solver. */
  method TbsvThenTbmv<S(==, !new)>(f: Field<S>, cols: seq<seq<S>>, k: nat, form: Form, x: array<S>)
    requires Regular(Band(f, cols, k, form)) && x.Length == |cols|
    modifies x
    ensures x[..] == old(x[..])
  {
    ghost var b := x[..];
    Tbsv(f, cols, k, form, x);
    ghost var y := x[..];
    Tbmv(f, cols, k, form, x);
    assert forall i :: 0 <= i < |b| ==> x[..][i] == b[i];
  }
}

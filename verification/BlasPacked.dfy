/** tpmv and tpsv: the same for packed storage, where a running offset finds the columns. */
module BlasPacked {
  import opened BlasScalar
  import opened BlasCore

  lemma {:induction false} TriangleClosed(n: nat)
    ensures 2 * UpperStart(n) == n * (n + 1)
  {
    if n > 0 {
      TriangleClosed(n - 1);
    }
  }

  lemma {:induction false} LowerClosed(n: nat, i: nat)
    requires i <= n
    ensures 2 * LowerStart(n, i) == i * (2 * n - i + 1)
  {
    if i > 0 {
      LowerClosed(n, i - 1);
    }
  }

  /** The packed layout in closed form: column j of the upper triangle is entries j(j+1)/2 on, of the lower one j(2n-j+1)/2 on. */
  lemma PackedLayout<S(!new)>(m: Mat<S>, i: nat, j: nat, at: nat)
    requires m.Packed? && Stored(m) && i < m.n && j < m.n && (if m.form.upper then i <= j else j <= i)
    requires 2 * at == if m.form.upper then j * (j + 1) else j * (2 * m.n - j + 1)
    ensures var place := if m.form.upper then at + i else at + (i - j);
            place < |m.ap| && Raw(m, i, j) == m.ap[place]
  {
    if m.form.upper {
      TriangleClosed(j);
      UpperFits(i, j, m.n);
    } else {
      LowerClosed(m.n, j);
      LowerFits(m.n, i, j);
    }
  }

  /** Where column i begins. */
  function ColumnStart(n: nat, upper: bool, i: nat): nat
    requires i <= n
  {
    if upper then UpperStart(i) else LowerStart(n, i)
  }

  /** The offset of column i and its length stay inside the storage. */
  lemma ColumnFits(n: nat, upper: bool, i: nat)
    requires i < n
    ensures ColumnStart(n, upper, i) + (if upper then i + 1 else n - i) <= UpperStart(n)
    ensures ColumnStart(n, upper, i + 1) == ColumnStart(n, upper, i) + if upper then i + 1 else n - i
  {
    if upper {
      UpperFits(i, i, n);
    } else {
      LowerFits(n, n - 1, i);
    }
  }

  // ----- the product, accumulated in a fresh vector -----

  /** The first i columns have been added. */
  ghost predicate FirstColumns<S(!new)>(m: Mat<S>, x: seq<S>, res: seq<S>, i: nat) {
    && Stored(m) && |x| == |res| == Size(m) && i <= Size(m)
    && forall r :: 0 <= r < |x| ==> res[r] == Sum(m, x, r, 0, i)
  }

  /** The first i rows are complete, the others still zero. */
  ghost predicate FirstRows<S(!new)>(m: Mat<S>, x: seq<S>, res: seq<S>, i: nat) {
    && Stored(m) && |x| == |res| == Size(m) && i <= Size(m)
    && forall r :: 0 <= r < |x| ==> res[r] == if r < i then Sum(m, x, r, 0, |x|) else m.f.zero
  }

  /** Where entry q of the column at offset lhs is stored. */
  function Slot(lower: bool, lhs: nat, i: nat, q: nat): nat
    requires if lower then i <= q else q <= i
  {
    lhs + if lower then q - i else q
  }

  /** What column i holds: a one, the stored part of the triangle, and nothing past it. */
  lemma ColumnEntry<S(!new)>(m: Mat<S>, lower: bool, i: nat, q: nat)
    requires m.Packed? && !m.form.Turned() && m.form.upper == !lower && Stored(m) && i < m.n && q < m.n
    ensures ColumnStart(m.n, !lower, i) + (if lower then m.n - i else i + 1) <= |m.ap|
    ensures var lhs := ColumnStart(m.n, !lower, i);
            At(m, q, i) == if q == i && m.form.unit then m.f.one
                           else if if lower then i <= q else q <= i then m.ap[Slot(lower, lhs, i, q)]
                           else m.f.zero
  {
    ColumnFits(m.n, !lower, i);
  }

  /** What a column adds to entry q. */
  function WithColumn<S(!new)>(f: Field<S>, v: S, ap: seq<S>, n: nat, unit: bool, lower: bool, t: S, i: nat, lhs: nat, q: nat): S
    requires i < n && q < n && lhs + (if lower then n - i else i + 1) <= |ap|
  {
    if q == i && unit then f.plus(v, t)
    else if if lower then i <= q else q <= i then f.plus(v, f.times(ap[Slot(lower, lhs, i, q)], t))
    else v
  }

  /** The loop body: a segment, and the diagonal apart when it is one. */
  method AddPart<S(!new)>(f: Field<S>, ap: seq<S>, n: nat, unit: bool, lower: bool, t: S, res: array<S>, i: nat, lhs: nat)
    requires res.Length == n && i < n && lhs + (if lower then n - i else i + 1) <= |ap|
    modifies res
    ensures forall q :: 0 <= q < n ==> res[q] == WithColumn(f, old(res[q]), ap, n, unit, lower, t, i, lhs, q)
  {
    var s := if lower && unit then 1 else 0;
    var r := if lower then n - i else i + 1;
    if unit {
      r := r - 1;
    }
    if !unit || r > 0 {
      AddSegment(f, res, if lower then s + i else 0, r, t, ap, lhs + s);
    }
    if unit {
      res[i] := f.plus(res[i], t);
    }
  }

  lemma WithColumnIs<S(!new)>(m: Mat<S>, lower: bool, v: S, t: S, i: nat, lhs: nat, q: nat)
    requires m.Packed? && !m.form.Turned() && m.form.upper == !lower && Stored(m) && i < m.n && q < m.n
    requires lhs == ColumnStart(m.n, !lower, i) && lhs + (if lower then m.n - i else i + 1) <= |m.ap|
    ensures WithColumn(m.f, v, m.ap, m.n, m.form.unit, lower, t, i, lhs, q) == m.f.plus(v, m.f.times(At(m, q, i), t))
  {
    ColumnEntry(m, lower, i, q);
    MinusTimes(m.f, v, At(m, q, i), t);
    TimesOne(m.f, t);
  }

  /** One column of the column-major product. */
  method ProductColumn<S(!new)>(f: Field<S>, ap: seq<S>, n: nat, unit: bool, lower: bool, x: seq<S>, res: array<S>, i: nat, lhs: nat)
    requires var m := Packed(f, ap, n, Form(!lower, unit, NoTrans));
             res.Length == n && i < n && FirstColumns(m, x, res[..], i) && lhs == ColumnStart(n, !lower, i)
    modifies res
    ensures FirstColumns(Packed(f, ap, n, Form(!lower, unit, NoTrans)), x, res[..], i + 1)
  {
    ghost var m := Packed(f, ap, n, Form(!lower, unit, NoTrans));
    ColumnFits(n, !lower, i);
    ghost var before := res[..];
    AddPart(f, ap, n, unit, lower, x[i], res, i, lhs);
    forall q | 0 <= q < n ensures res[..][q] == f.plus(before[q], f.times(At(m, q, i), x[i])) {
      WithColumnIs(m, lower, before[q], x[i], i, lhs, q);
    }
    NextColumn(m, x, before, res[..], i);
  }

  lemma NextColumn<S(!new)>(m: Mat<S>, x: seq<S>, before: seq<S>, after: seq<S>, i: nat)
    requires FirstColumns(m, x, before, i) && i < Size(m) && |after| == |before|
    requires forall q :: 0 <= q < |after| ==> after[q] == m.f.plus(before[q], m.f.times(At(m, q, i), x[i]))
    ensures FirstColumns(m, x, after, i + 1)
  {
  }

  /** One row of the row-major product. */
  method ProductRow<S(!new)>(f: Field<S>, ap: seq<S>, n: nat, unit: bool, lower: bool, conj: bool, x: seq<S>, res: array<S>, i: nat, lhs: nat)
    requires var m := Packed(f, ap, n, Form(lower, unit, Turn(conj)));
             res.Length == n && i < n && FirstRows(m, x, res[..], i) && lhs == ColumnStart(n, lower, i)
    modifies res
    ensures FirstRows(Packed(f, ap, n, Form(lower, unit, Turn(conj))), x, res[..], i + 1)
  {
    var s := if !lower && unit then 1 else 0;
    var r := if lower then i + 1 else n - i;
    if unit {
      r := r - 1;
    }
    var from := if lower then 0 else s + i;
    RowAdds(f, ap, n, unit, lower, conj, x, i, lhs, s, r, from);
    PlusZero(f, Total(f, Products(f, conj, ap, lhs + s, x, from, r)));
    if !unit || r > 0 {
      res[i] := f.plus(res[i], Total(f, Products(f, conj, ap, lhs + s, x, from, r)));
    }
    if unit {
      res[i] := f.plus(res[i], x[i]);
    }
  }

  /** What one row of the product adds up to. */
  lemma RowAdds<S(!new)>(f: Field<S>, ap: seq<S>, n: nat, unit: bool, lower: bool, conj: bool, x: seq<S>, i: nat, lhs: nat, s: nat, r: nat, from: nat)
    requires var m := Packed(f, ap, n, Form(lower, unit, Turn(conj)));
             Stored(m) && |x| == n && i < n && lhs == ColumnStart(n, lower, i)
    requires s == (if !lower && unit then 1 else 0) && from == (if lower then 0 else s + i)
    requires r == (if lower then i + 1 else n - i) - (if unit then 1 else 0)
    ensures lhs + s + r <= |ap| && from + r <= n
    ensures Sum(Packed(f, ap, n, Form(lower, unit, Turn(conj))), x, i, 0, n) == f.plus(Total(f, Products(f, conj, ap, lhs + s, x, from, r)), if unit then x[i] else f.zero)
  {
    var m := Packed(f, ap, n, Form(lower, unit, Turn(conj)));
    ColumnFits(n, lower, i);
    RowSegment(f, ap, n, unit, lower, conj, x, i, lhs, s, r, from);
    RowTotal(m, x, i);
    var total := Total(f, Products(f, conj, ap, lhs + s, x, from, r));
    Commute(f, x[i], total);
    PlusZero(f, total);
    assert from == (if lower then 0 else if unit then i + 1 else i) && from + r == if !lower then n else if unit then i else i + 1;
  }

  /** The stored part of a row, as the segment the loop multiplies. */
  lemma RowSegment<S(!new)>(f: Field<S>, ap: seq<S>, n: nat, unit: bool, lower: bool, conj: bool, x: seq<S>, i: nat, lhs: nat, s: nat, r: nat, from: nat)
    requires var m := Packed(f, ap, n, Form(lower, unit, Turn(conj)));
             Stored(m) && |x| == n && i < n && lhs == ColumnStart(n, lower, i)
    requires s == (if !lower && unit then 1 else 0) && from == (if lower then 0 else s + i)
    requires r == (if lower then i + 1 else n - i) - (if unit then 1 else 0)
    requires lhs + s + r <= |ap| && from + r <= n
    ensures Total(f, Products(f, conj, ap, lhs + s, x, from, r)) == Sum(Packed(f, ap, n, Form(lower, unit, Turn(conj))), x, i, from, from + r)
  {
    TotalIsSum(Packed(f, ap, n, Form(lower, unit, Turn(conj))), conj, x, i, ap, lhs + s, from, r);
  }

  /** A row's sum over its triangle, the diagonal apart when it is one. */
  lemma RowTotal<S(!new)>(m: Mat<S>, x: seq<S>, i: nat)
    requires Stored(m) && |x| == Size(m) && i < Size(m)
    ensures var n := Size(m); var total := Sum(m, x, i, 0, n);
            if m.form.unit then total == m.f.plus(x[i], if IsLower(m) then Sum(m, x, i, 0, i) else Sum(m, x, i, i + 1, n))
            else total == if IsLower(m) then Sum(m, x, i, 0, i + 1) else Sum(m, x, i, i, n)
  {
    var n := Size(m);
    SumTriangle(m, x, i);
    if m.form.unit {
      TimesOne(m.f, x[i]);
      Commute(m.f, Sum(m, x, i, 0, i), x[i]);
    } else if !IsLower(m) {
      SumSplit(m, x, i, i, i + 1, n);
      SumOne(m, x, i, i);
    }
  }

  /** x := A x, for A, its transpose or its conjugate transpose. */
  method Tpmv<S(!new)>(f: Field<S>, ap: seq<S>, n: nat, form: Form, x: array<S>)
    requires Stored(Packed(f, ap, n, form)) && x.Length == n
    modifies x
    ensures Multiplies(Packed(f, ap, n, form), old(x[..]), x[..])
  {
    ghost var m := Packed(f, ap, n, form);
    var x0 := x[..];
    var res := new S[n](_ => f.zero);
    var lhs := 0;
    for i := 0 to n
      invariant x[..] == x0 && fresh(res) && lhs == ColumnStart(n, form.upper, i)
      invariant if form.Turned() then FirstRows(m, x0, res[..], i) else FirstColumns(m, x0, res[..], i)
    {
      ColumnFits(n, form.upper, i);
      if form.Turned() {
        ProductRow(f, ap, n, form.unit, form.upper, form.op.Adjoint?, x0, res, i, lhs);
      } else {
        ProductColumn(f, ap, n, form.unit, !form.upper, x0, res, i, lhs);
      }
      lhs := lhs + if form.upper then i + 1 else n - i;
    }
    forall i | 0 <= i < n {
      x[i] := res[i];
    }
    assert x[..] == res[..];
  }

  // ----- the solver -----

  /** A stored column is a row of the transpose. */
  lemma PackedRow<S(!new)>(m: Mat<S>, lower: bool, conj: bool, i: nat, s: nat, from: nat, len: nat)
    requires m.Packed? && Stored(m) && i < m.n && m.form.upper == lower && m.form.op == Turn(conj)
    requires s == (if lower then 0 else 1) && from == (if lower then 0 else i + 1) && len == if lower then i else m.n - i - 1
    ensures var offset := ColumnStart(m.n, lower, i) + s;
            && offset + len <= |m.ap| && from + len <= m.n
            && forall q :: from <= q < from + len ==> At(m, i, q) == MaybeConj(m.f, conj, m.ap[offset + (q - from)])
  {
    ColumnFits(m.n, lower, i);
  }

  /** The solved unknowns' share of a row, as the segment the loop multiplies. */
  lemma PastSegment<S(!new)>(f: Field<S>, ap: seq<S>, n: nat, unit: bool, lower: bool, conj: bool, x: seq<S>, pi: nat, i: nat, lhs: nat, s: nat, from: nat)
    requires var m := Packed(f, ap, n, Form(lower, unit, Turn(conj)));
             Stored(m) && |x| == n && pi < n && i == Place(m, pi) && lhs == ColumnStart(n, lower, i)
    requires s == (if lower then 0 else 1) && from == (if lower then 0 else i + 1)
    ensures lhs + s + pi <= |ap| && from + pi <= n
    ensures Past(Packed(f, ap, n, Form(lower, unit, Turn(conj))), x, i, pi) == Total(f, Products(f, conj, ap, lhs + s, x, from, pi))
  {
    PackedRow(Packed(f, ap, n, Form(lower, unit, Turn(conj))), lower, conj, i, s, from, pi);
    TotalIsSum(Packed(f, ap, n, Form(lower, unit, Turn(conj))), conj, x, i, ap, lhs + s, from, pi);
  }

  /** The first half of a row: what is left of it once the solved unknowns are taken out. */
  method RowRest<S(!new)>(f: Field<S>, ap: seq<S>, n: nat, unit: bool, lower: bool, conj: bool, x: array<S>, pi: nat, i: nat, lhs: nat) returns (v: S)
    requires var m := Packed(f, ap, n, Form(lower, unit, Turn(conj)));
             Stored(m) && x.Length == n && pi < n && i == Place(m, pi) && lhs == ColumnStart(n, lower, i)
    ensures v == f.minus(x[i], Past(Packed(f, ap, n, Form(lower, unit, Turn(conj))), x[..], i, pi))
  {
    ColumnFits(n, lower, i);
    var s := if lower then 0 else 1;
    var from := if lower then 0 else i + 1;
    PastSegment(f, ap, n, unit, lower, conj, x[..], pi, i, lhs, s, from);
    v := x[i];
    MinusZero(f, v);
    if pi > 0 {
      v := f.minus(v, Total(f, Products(f, conj, ap, lhs + s, x[..], from, pi)));
    }
  }

  /** One row of the row-major solver. */
  method SolveRow<S(!new)>(f: Field<S>, ap: seq<S>, n: nat, unit: bool, lower: bool, conj: bool, x: array<S>, ghost b: seq<S>, pi: nat, lhs: nat)
    requires var m := Packed(f, ap, n, Form(lower, unit, Turn(conj)));
             Regular(m) && x.Length == n && pi < n && ByRows(m, b, x[..], pi) && lhs == ColumnStart(n, lower, Place(m, pi))
    modifies x
    ensures ByRows(Packed(f, ap, n, Form(lower, unit, Turn(conj))), b, x[..], pi + 1)
  {
    ghost var m := Packed(f, ap, n, Form(lower, unit, Turn(conj)));
    ghost var before := x[..];
    var i := if lower then pi else n - pi - 1;
    ColumnFits(n, lower, i);
    var v := RowRest(f, ap, n, unit, lower, conj, x, pi, i, lhs);
    if !unit {
      var d := MaybeConj(f, conj, ap[lhs + if lower then i else 0]);
      assert d == At(m, i, i);
      Divides(f, d, v, f.over(v, d));
      v := f.over(v, d);
    }
    TimesOne(f, v);
    RowStep(m, b, before, pi, v);
    x[i] := v;
    assert x[..] == before[i := v];
  }

  /** The first half of a column: the division by the diagonal, unless it is one. */
  method DivideDiagonal<S(!new)>(f: Field<S>, ap: seq<S>, n: nat, unit: bool, lower: bool, x: array<S>, i: nat, lhs: nat)
    requires var m := Packed(f, ap, n, Form(!lower, unit, NoTrans));
             Regular(m) && x.Length == n && i < n && lhs == ColumnStart(n, !lower, i)
    modifies x
    ensures x[..] == old(x[..])[i := x[i]] && f.times(At(Packed(f, ap, n, Form(!lower, unit, NoTrans)), i, i), x[i]) == old(x[i])
  {
    ghost var m := Packed(f, ap, n, Form(!lower, unit, NoTrans));
    ColumnFits(n, !lower, i);
    TimesOne(f, x[i]);
    if !unit {
      var d := ap[lhs + if lower then 0 else i];
      assert d == At(m, i, i);
      Divides(f, d, x[i], f.over(x[i], d));
      x[i] := f.over(x[i], d);
    }
  }

  lemma ColumnTaken<S(!new)>(m: Mat<S>, lower: bool, b: seq<S>, x: seq<S>, y: seq<S>, p: nat, t: S)
    requires m.Packed? && !m.form.Turned() && m.form.upper == !lower && Regular(m)
    requires p < Size(m) && ByColumns(m, b, x, p) && |y| == |x|
    requires m.f.times(At(m, Place(m, p), Place(m, p)), t) == x[Place(m, p)]
    requires var i := Place(m, p); var offset, len := ColumnStart(m.n, !lower, i) + (if lower then 1 else 0), m.n - p - 1;
             && offset + len <= |m.ap|
             && forall r :: 0 <= r < |x| ==> y[r] == Added(m.f, x[i := t][r], r, if lower then i + 1 else 0, len, m.f.negative(t), m.ap, offset)
    ensures ByColumns(m, b, y, p + 1)
  {
    var i := Place(m, p);
    forall r | 0 <= r < |x| && r != i ensures y[r] == if Passed(m, p + 1, r) then x[r] else m.f.minus(x[r], m.f.times(At(m, r, i), t)) {
      ColumnEntry(m, lower, i, r);
      MinusTimes(m.f, x[r], At(m, r, i), t);
    }
    ColumnStep(m, b, x, y, p);
  }

  /** One column of the column-major solver. */
  method SolveColumn<S(!new)>(f: Field<S>, ap: seq<S>, n: nat, unit: bool, lower: bool, x: array<S>, ghost b: seq<S>, pi: nat, lhs: nat)
    requires var m := Packed(f, ap, n, Form(!lower, unit, NoTrans));
             Regular(m) && x.Length == n && pi < n && ByColumns(m, b, x[..], pi) && lhs == ColumnStart(n, !lower, Place(m, pi))
    modifies x
    ensures ByColumns(Packed(f, ap, n, Form(!lower, unit, NoTrans)), b, x[..], pi + 1)
  {
    ghost var m := Packed(f, ap, n, Form(!lower, unit, NoTrans));
    ghost var before := x[..];
    var i := if lower then pi else n - pi - 1;
    var r := n - pi - 1;
    ColumnFits(n, !lower, i);
    DivideDiagonal(f, ap, n, unit, lower, x, i, lhs);
    ghost var t := x[i];
    if r > 0 {
      AddSegment(f, x, if lower then i + 1 else 0, r, f.negative(x[i]), ap, lhs + if lower then 1 else 0);
    }
    ColumnTaken(m, lower, b, before, x[..], pi, t);
  }

  /** The offset of the first column looked at, and how it moves on; below a triangle it ends in front of the storage. */
  function FirstOffset(n: nat, form: Form): int {
    if form.upper == form.Turned() then 0
    else if form.Turned() then n * (n + 1) / 2 - 1
    else n * (n - 1) / 2
  }

  lemma FirstOffsetIs(n: nat, form: Form)
    requires n > 0
    ensures FirstOffset(n, form) == ColumnStart(n, form.upper, if form.upper == form.Turned() then 0 else n - 1)
  {
    TriangleClosed(n);
    TriangleClosed(n - 1);
    LowerIsUpper(n, n - 1);
    assert UpperStart(1) == 1;
  }

  function NextOffset(n: nat, form: Form, pi: nat, lhs: int): int {
    if form.Turned() then (if form.upper then lhs + (pi + 1) else lhs - (pi + 2))
    else (if form.upper then lhs - (n - pi - 1) else lhs + (n - pi))
  }

  lemma NextOffsetIs(n: nat, form: Form, pi: nat, lhs: int)
    requires pi + 1 < n
    requires lhs == ColumnStart(n, form.upper, if form.upper == form.Turned() then pi else n - 1 - pi)
    ensures NextOffset(n, form, pi, lhs) == ColumnStart(n, form.upper, if form.upper == form.Turned() then pi + 1 else n - 2 - pi)
  {
    if form.upper == form.Turned() {
      ColumnFits(n, form.upper, pi);
    } else {
      ColumnFits(n, form.upper, n - 2 - pi);
    }
  }

  /** x := the solution of A x = b for the b that was in x, for A, its transpose or its conjugate transpose. */
  method Tpsv<S(!new)>(f: Field<S>, ap: seq<S>, n: nat, form: Form, x: array<S>)
    requires Regular(Packed(f, ap, n, form)) && x.Length == n
    modifies x
    ensures Multiplies(Packed(f, ap, n, form), x[..], old(x[..]))
  {
    ghost var m := Packed(f, ap, n, form);
    ghost var b := x[..];
    var lhs := FirstOffset(n, form);
    if n > 0 {
      FirstOffsetIs(n, form);
    }
    NothingSolved(m, b);
    for pi := 0 to n
      invariant if form.Turned() then ByRows(m, b, x[..], pi) else ByColumns(m, b, x[..], pi)
      invariant pi < n ==> lhs == ColumnStart(n, form.upper, Place(m, pi))
    {
      if form.Turned() {
        SolveRow(f, ap, n, form.unit, form.upper, form.op.Adjoint?, x, b, pi, lhs);
      } else {
        SolveColumn(f, ap, n, form.unit, !form.upper, x, b, pi, lhs);
      }
      if pi + 1 < n {
        NextOffsetIs(n, form, pi, lhs);
      }
      lhs := NextOffset(n, form, pi, lhs);
    }
    SolvedByRows(m, b, x[..]);
  }

  /** The solver undoes the product. */
  method TpmvThenTpsv<S(!new)>(f: Field<S>, ap: seq<S>, n: nat, form: Form, x: array<S>)
    requires Regular(Packed(f, ap, n, form)) && x.Length == n
    modifies x
    ensures x[..] == old(x[..])
  {
    ghost var x0 := x[..];
    Tpmv(f, ap, n, form, x);
    ghost var y := x[..];
    Tpsv(f, ap, n, form, x);
    OneSolution(Packed(f, ap, n, form), x0, x[..], y);
  }

  /** And the product undoes the solver. */
  method TpsvThenTpmv<S(!new)>(f: Field<S>, ap: seq<S>, n: nat, form: Form, x: array<S>)
    requires Regular(Packed(f, ap, n, form)) && x.Length == n
    modifies x
    ensures x[..] == old(x[..])
  {
    ghost var b := x[..];
    Tpsv(f, ap, n, form, x);
    Tpmv(f, ap, n, form, x);
    assert forall i :: 0 <= i < |b| ==> x[..][i] == b[i];
  }
}

/** The k-d tree as a value: what it holds, the order at every split, and what pruning may skip. */
module KdTree {
  import opened Reals

  type Point = seq<real>

  datatype Tree = Leaf | Branch(left: Tree, idx: nat, axis: nat, right: Tree)

  /** How often each index occurs. */
  function Bag(t: Tree): multiset<nat> {
    match t
    case Leaf => multiset{}
    case Branch(left, idx, _, right) => Bag(left) + multiset{idx} + Bag(right)
  }

  function Height(t: Tree): nat {
    match t
    case Leaf => 0
    case Branch(left, _, _, right) => 1 + if Height(left) < Height(right) then Height(right) else Height(left)
  }

  /** Points of one dimension; which is at least one. */
  predicate Cloud(points: seq<Point>, dim: nat) {
    dim > 0 && forall i :: 0 <= i < |points| ==> |points[i]| == dim
  }

  /** Every index in the bag is at most (or at least) c on the axis. */
  ghost predicate AllBelow(bag: multiset<nat>, points: seq<Point>, dim: nat, axis: nat, c: real)
    requires Cloud(points, dim) && axis < dim
  {
    forall i :: i in bag ==> i < |points| && points[i][axis] <= c
  }

  ghost predicate AllAbove(bag: multiset<nat>, points: seq<Point>, dim: nat, axis: nat, c: real)
    requires Cloud(points, dim) && axis < dim
  {
    forall i :: i in bag ==> i < |points| && points[i][axis] >= c
  }

  /** The axes cycle with the depth, and each node splits its whole subtrees, not only its children. */
  ghost predicate Split(t: Tree, points: seq<Point>, dim: nat, depth: nat)
    requires Cloud(points, dim)
  {
    match t
    case Leaf => true
    case Branch(left, idx, axis, right) =>
      && idx < |points| && axis == depth % dim
      && AllBelow(Bag(left), points, dim, axis, points[idx][axis])
      && AllAbove(Bag(right), points, dim, axis, points[idx][axis])
      && Split(left, points, dim, depth + 1) && Split(right, points, dim, depth + 1)
  }

  /** Exactly the indices 0 to n - 1, each once. */
  ghost predicate Each(bag: multiset<nat>, n: nat) {
    forall i: nat :: bag[i] == if i < n then 1 else 0
  }

  /** Indices and axes in range: what following the pointers needs. */
  predicate Fits(t: Tree, n: nat, dim: nat) {
    match t
    case Leaf => true
    case Branch(left, idx, axis, right) => idx < n && axis < dim && Fits(left, n, dim) && Fits(right, n, dim)
  }

  lemma {:induction false} SplitFits(t: Tree, points: seq<Point>, dim: nat, depth: nat)
    requires Cloud(points, dim) && Split(t, points, dim, depth)
    ensures Fits(t, |points|, dim)
  {
    match t
    case Leaf =>
    case Branch(left, _, _, right) =>
      SplitFits(left, points, dim, depth + 1);
      SplitFits(right, points, dim, depth + 1);
  }

  // ----- insertion -----

  /** The tree after inserting an index at the given depth. */
  function Insert(t: Tree, points: seq<Point>, dim: nat, idx: nat, depth: nat): Tree
    requires Cloud(points, dim) && idx < |points| && Fits(t, |points|, dim)
  {
    match t
    case Leaf => Branch(Leaf, idx, depth % dim, Leaf)
    case Branch(left, at, axis, right) =>
      if points[idx][axis] < points[at][axis]
      then Branch(Insert(left, points, dim, idx, depth + 1), at, axis, right)
      else Branch(left, at, axis, Insert(right, points, dim, idx, depth + 1))
  }

  lemma BagLeft(a: multiset<nat>, b: multiset<nat>, c: multiset<nat>, d: multiset<nat>)
    ensures a + d + b + c == a + b + c + d && a + b + (c + d) == a + b + c + d
  {
  }

  lemma {:induction false} InsertBag(t: Tree, points: seq<Point>, dim: nat, idx: nat, depth: nat)
    requires Cloud(points, dim) && idx < |points| && Fits(t, |points|, dim)
    ensures Bag(Insert(t, points, dim, idx, depth)) == Bag(t) + multiset{idx}
  {
    match t
    case Leaf =>
    case Branch(left, at, axis, right) =>
      var side := if points[idx][axis] < points[at][axis] then left else right;
      InsertBag(side, points, dim, idx, depth + 1);
      BagLeft(Bag(left), multiset{at}, Bag(right), multiset{idx});
  }

  lemma BelowAdd(bag: multiset<nat>, i: nat, points: seq<Point>, dim: nat, axis: nat, c: real)
    requires Cloud(points, dim) && axis < dim && i < |points|
    ensures AllBelow(bag, points, dim, axis, c) && points[i][axis] <= c ==> AllBelow(bag + multiset{i}, points, dim, axis, c)
    ensures AllAbove(bag, points, dim, axis, c) && points[i][axis] >= c ==> AllAbove(bag + multiset{i}, points, dim, axis, c)
  {
  }

  /** Insertion keeps the split order of every node above the new one. */
  lemma {:induction false} InsertSplit(t: Tree, points: seq<Point>, dim: nat, idx: nat, depth: nat)
    requires Cloud(points, dim) && idx < |points| && Split(t, points, dim, depth) && Fits(t, |points|, dim)
    ensures Split(Insert(t, points, dim, idx, depth), points, dim, depth)
  {
    match t
    case Leaf =>
    case Branch(left, at, axis, right) =>
      var side := if points[idx][axis] < points[at][axis] then left else right;
      InsertBag(side, points, dim, idx, depth + 1);
      InsertSplit(side, points, dim, idx, depth + 1);
      BelowAdd(Bag(side), idx, points, dim, axis, points[at][axis]);
  }

  /** Points added at the end do not disturb the tree. */
  lemma {:induction false} SplitExtend(t: Tree, points: seq<Point>, point: Point, dim: nat, depth: nat)
    requires Cloud(points, dim) && |point| == dim && Split(t, points, dim, depth)
    ensures Split(t, points + [point], dim, depth)
  {
    match t
    case Leaf =>
    case Branch(left, at, axis, right) =>
      SplitExtend(left, points, point, dim, depth + 1);
      SplitExtend(right, points, point, dim, depth + 1);
  }

  /** What a tree over these points is: each index once, the split order at every node. */
  ghost predicate Indexed(t: Tree, points: seq<Point>, dim: nat)
    requires Cloud(points, dim)
  {
    Each(Bag(t), |points|) && Split(t, points, dim, 0)
  }

  lemma EachNext(bag: multiset<nat>, n: nat)
    requires Each(bag, n)
    ensures Each(bag + multiset{n}, n + 1)
  {
  }

  /** Adding a point and inserting its index keeps the tree one over all points. */
  lemma IndexedInsert(t: Tree, points: seq<Point>, point: Point, dim: nat)
    requires Cloud(points, dim) && |point| == dim && Indexed(t, points, dim)
    ensures Fits(t, |points| + 1, dim) && Cloud(points + [point], dim)
    ensures Indexed(Insert(t, points + [point], dim, |points|, 0), points + [point], dim)
  {
    var longer := points + [point];
    SplitExtend(t, points, point, dim, 0);
    SplitFits(t, longer, dim, 0);
    InsertBag(t, longer, dim, |points|, 0);
    InsertSplit(t, longer, dim, |points|, 0);
    EachNext(Bag(t), |points|);
  }

  // ----- height -----

  function FloorLog2(n: nat): nat {
    if n < 2 then 0 else 1 + FloorLog2(n / 2)
  }

  lemma {:induction false} FloorLog2Monotone(m: nat, n: nat)
    requires m <= n
    ensures FloorLog2(m) <= FloorLog2(n)
  {
    if m >= 2 {
      FloorLog2Monotone(m / 2, n / 2);
    }
  }

  /** The height a median split of n points gives. */
  function Levels(n: nat): nat {
    if n == 0 then 0 else FloorLog2(n) + 1
  }

  lemma LevelsBranch(left: nat, right: nat, hl: nat, hr: nat)
    requires left == (left + right) / 2 && hl <= Levels(left) && hr <= Levels(right)
    ensures 1 + hl <= Levels(left + 1 + right) && 1 + hr <= Levels(left + 1 + right)
  {
    var n := left + 1 + right;
    assert right == n / 2 && left <= n / 2;
    FloorLog2Monotone(left, n / 2);
  }

  // ----- distances -----

  /** A search: the points, where to look from, and the root function. */
  datatype Query = Query(points: seq<Point>, dim: nat, at: Point, sqrt: real -> real)

  predicate Shaped(q: Query) {
    Cloud(q.points, q.dim) && |q.at| == q.dim
  }

  ghost predicate Ok(q: Query) {
    Shaped(q) && IsSqrt(q.sqrt)
  }

  function SumSquares(p: Point, q: Point, n: nat): (s: real)
    requires n <= |p| && n <= |q|
    ensures s >= 0.0
  {
    if n == 0 then 0.0 else SumSquares(p, q, n - 1) + Square(p[n - 1] - q[n - 1])
  }

  /** Points that differ on one axis only are as far apart as their coordinates there. */
  lemma {:induction false} OneAxis(p: Point, q: Point, n: nat, axis: nat)
    requires axis < n <= |p| && n <= |q| && forall j :: 0 <= j < n && j != axis ==> p[j] == q[j]
    ensures SumSquares(p, q, n) == Square(p[axis] - q[axis])
  {
    if axis < n - 1 {
      OneAxis(p, q, n - 1, axis);
    } else {
      SameBefore(p, q, n - 1);
    }
  }

  lemma {:induction false} SameBefore(p: Point, q: Point, n: nat)
    requires n <= |p| && n <= |q| && forall j :: 0 <= j < n ==> p[j] == q[j]
    ensures SumSquares(p, q, n) == 0.0
  {
    if n > 0 {
      SameBefore(p, q, n - 1);
    }
  }

  /** Moving a point along one axis exchanges that axis's share of the squared distance. */
  lemma {:induction false} AxisShare(p: Point, q: Point, n: nat, axis: nat, x: real)
    requires axis < n <= |p| && n <= |q|
    ensures SumSquares(p, q[axis := x], n) == SumSquares(p, q, n) - Square(p[axis] - q[axis]) + Square(p[axis] - x)
  {
    if axis < n - 1 {
      AxisShare(p, q, n - 1, axis, x);
    } else {
      Unmoved(p, q, n - 1, axis, x);
    }
  }

  lemma {:induction false} Unmoved(p: Point, q: Point, n: nat, axis: nat, x: real)
    requires n <= axis < |q| && n <= |p|
    ensures SumSquares(p, q[axis := x], n) == SumSquares(p, q, n)
  {
    if n > 0 {
      Unmoved(p, q, n - 1, axis, x);
    }
  }

  lemma {:induction false} TermBelowSum(p: Point, q: Point, n: nat, axis: nat)
    requires axis < n <= |p| && n <= |q|
    ensures Square(p[axis] - q[axis]) <= SumSquares(p, q, n)
  {
    if axis < n - 1 {
      TermBelowSum(p, q, n - 1, axis);
    }
  }

  /** The Euclidean distance to point i. */
  function Dist(q: Query, i: nat): real
    requires Shaped(q) && i < |q.points|
  {
    q.sqrt(SumSquares(q.at, q.points[i], q.dim))
  }

  /** Every index in the bag is at least this far away. */
  ghost predicate Far(q: Query, bag: multiset<nat>, bound: real)
    requires Shaped(q)
  {
    forall i :: i in bag ==> i < |q.points| && Dist(q, i) >= bound
  }

  /** Along one axis the distance is the difference of the coordinates. */
  lemma DistAlongAxis(q: Query, i: nat, axis: nat)
    requires Ok(q) && i < |q.points| && axis < q.dim
    requires forall j :: 0 <= j < q.dim && j != axis ==> q.at[j] == q.points[i][j]
    ensures Dist(q, i) == Abs(q.at[axis] - q.points[i][axis])
  {
    var x := q.at[axis] - q.points[i][axis];
    OneAxis(q.at, q.points[i], q.dim, axis);
    SquareOrder(Dist(q, i), Abs(x));
    SquareOrder(Abs(x), Dist(q, i));
  }

  lemma AxisBelowDist(q: Query, i: nat, axis: nat)
    requires Ok(q) && i < |q.points| && axis < q.dim
    ensures Abs(q.at[axis] - q.points[i][axis]) <= Dist(q, i)
  {
    TermBelowSum(q.at, q.points[i], q.dim, axis);
    AbsBelowSqrt(q.sqrt, q.at[axis] - q.points[i][axis], SumSquares(q.at, q.points[i], q.dim));
  }

  /** The subtree on the query's side of the split, and the other one. */
  function Near(q: Query, t: Tree): Tree
    requires Shaped(q) && t.Branch? && t.idx < |q.points| && t.axis < q.dim
  {
    if q.at[t.axis] < q.points[t.idx][t.axis] then t.left else t.right
  }

  function Other(q: Query, t: Tree): Tree
    requires Shaped(q) && t.Branch? && t.idx < |q.points| && t.axis < q.dim
  {
    if q.at[t.axis] < q.points[t.idx][t.axis] then t.right else t.left
  }

  /** How far the splitting plane is. */
  function PlaneDist(q: Query, t: Tree): real
    requires Shaped(q) && t.Branch? && t.idx < |q.points| && t.axis < q.dim
  {
    Abs(q.at[t.axis] - q.points[t.idx][t.axis])
  }

  lemma Sides(q: Query, t: Tree, depth: nat)
    requires Ok(q) && Split(t, q.points, q.dim, depth) && t.Branch?
    ensures Bag(t) == multiset{t.idx} + Bag(Near(q, t)) + Bag(Other(q, t))
    ensures Split(Near(q, t), q.points, q.dim, depth + 1) && Split(Other(q, t), q.points, q.dim, depth + 1)
  {
  }

  /** The pruning rule: nothing on the other side is closer than the splitting plane. */
  lemma OtherSideFar(q: Query, t: Tree, depth: nat)
    requires Ok(q) && Split(t, q.points, q.dim, depth) && t.Branch?
    ensures Far(q, Bag(Other(q, t)), PlaneDist(q, t))
  {
    var c, x := q.points[t.idx][t.axis], q.at[t.axis];
    var bag := Bag(Other(q, t));
    assert if x < c then AllAbove(bag, q.points, q.dim, t.axis, c) else AllBelow(bag, q.points, q.dim, t.axis, c);
    forall i | i in bag ensures i < |q.points| && Dist(q, i) >= Abs(x - c) {
      AxisBelowDist(q, i, t.axis);
    }
  }
}

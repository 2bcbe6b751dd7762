/** The k-d tree as the code keeps it: heap nodes linked in place, built and extended in place. */
module KdBuild {
  import opened KdTree

  class Node {
    var idx: nat
    var next0: Node?
    var next1: Node?
    var axis: nat
    ghost var Repr: set<Node>
    ghost var tree: Tree

    ghost predicate Valid()
      reads this, Repr
      decreases Repr
    {
      && this in Repr
      && (next0 != null ==> next0 in Repr && next0.Repr <= Repr && this !in next0.Repr && next0.Valid())
      && (next1 != null ==> next1 in Repr && next1.Repr <= Repr && this !in next1.Repr && next1.Valid())
      && ReprOf(next0) !! ReprOf(next1)
      && tree == Branch(TreeOf(next0), idx, axis, TreeOf(next1))
    }

    constructor (idx: nat, axis: nat)
      ensures Valid() && tree == Branch(Leaf, idx, axis, Leaf) && Repr == {this}
      ensures this.idx == idx && this.axis == axis && next0 == null && next1 == null
    {
      this.idx, this.axis := idx, axis;
      next0, next1 := null, null;
      Repr, tree := {this}, Branch(Leaf, idx, axis, Leaf);
    }
  }

  ghost function TreeOf(n: Node?): Tree
    reads n
  {
    if n == null then Leaf else n.tree
  }

  ghost function ReprOf(n: Node?): set<Node>
    reads n
  {
    if n == null then {} else n.Repr
  }

  ghost predicate Sound(n: Node?)
    reads n, ReprOf(n)
  {
    n != null ==> n.Valid()
  }

  // ----- std::nth_element, by its contract -----

  ghost predicate InBounds(s: seq<nat>, points: seq<Point>) {
    forall k :: 0 <= k < |s| ==> s[k] < |points|
  }

  /** Position m holds what sorting would put there: nothing before it is larger, nothing after it smaller. */
  ghost predicate Median(s: seq<nat>, m: nat, points: seq<Point>, dim: nat, axis: nat)
    requires Cloud(points, dim) && axis < dim && InBounds(s, points) && m < |s|
  {
    && (forall k :: 0 <= k < m ==> points[s[k]][axis] <= points[s[m]][axis])
    && (forall k :: m < k < |s| ==> points[s[m]][axis] <= points[s[k]][axis])
  }

  lemma SwapBag(s: seq<nat>, i: nat, j: nat)
    requires i <= j < |s|
    ensures multiset(s[i := s[j]][j := s[i]]) == multiset(s)
  {
  }

  /** The position of a least key from position i on. */
  method Least(s: seq<nat>, i: nat, points: seq<Point>, dim: nat, axis: nat) returns (m: nat)
    requires Cloud(points, dim) && axis < dim && InBounds(s, points) && i < |s|
    ensures i <= m < |s| && forall k :: i <= k < |s| ==> points[s[m]][axis] <= points[s[k]][axis]
  {
    m := i;
    for j := i + 1 to |s|
      invariant i <= m < |s| && forall k :: i <= k < j ==> points[s[m]][axis] <= points[s[k]][axis]
    {
      if points[s[j]][axis] < points[s[m]][axis] {
        m := j;
      }
    }
  }

  /** One way to meet the contract: select the least keys one after the other. */
  method Select(s0: seq<nat>, nth: nat, points: seq<Point>, dim: nat, axis: nat) returns (s: seq<nat>)
    requires Cloud(points, dim) && axis < dim && InBounds(s0, points) && nth < |s0|
    ensures |s| == |s0| && multiset(s) == multiset(s0) && InBounds(s, points) && Median(s, nth, points, dim, axis)
  {
    s := s0;
    for i := 0 to nth + 1
      invariant |s| == |s0| && multiset(s) == multiset(s0) && InBounds(s, points) && Leading(s, i, points, dim, axis)
    {
      var m := Least(s, i, points, dim, axis);
      SwapBag(s, i, m);
      SwapLeads(s, i, m, points, dim, axis);
      s := s[i := s[m]][m := s[i]];
    }
  }

  /** The first i keys are in order and no larger than any behind them. */
  ghost predicate Leading(s: seq<nat>, i: nat, points: seq<Point>, dim: nat, axis: nat)
    requires Cloud(points, dim) && axis < dim && InBounds(s, points) && i <= |s|
  {
    forall j, k :: 0 <= j < i && j <= k < |s| ==> points[s[j]][axis] <= points[s[k]][axis]
  }

  lemma SwapLeads(s: seq<nat>, i: nat, m: nat, points: seq<Point>, dim: nat, axis: nat)
    requires Cloud(points, dim) && axis < dim && InBounds(s, points) && i <= m < |s| && Leading(s, i, points, dim, axis)
    requires forall k :: i <= k < |s| ==> points[s[m]][axis] <= points[s[k]][axis]
    ensures InBounds(s[i := s[m]][m := s[i]], points) && Leading(s[i := s[m]][m := s[i]], i + 1, points, dim, axis)
  {
    var t := s[i := s[m]][m := s[i]];
    forall j, k | 0 <= j < i + 1 && j <= k < |t| ensures points[t[j]][axis] <= points[t[k]][axis] {
      var back := if k == i then m else if k == m then i else k;
      assert t[k] == s[back] && t[j] == if j == i then s[m] else s[j];
    }
  }

  /** The array holds s from position lo on. */
  ghost predicate Holds(a: array<nat>, lo: nat, s: seq<nat>)
    reads a
  {
    lo + |s| <= a.Length && forall k :: 0 <= k < |s| ==> a[lo + k] == s[k]
  }

  method NthElement(indices: array<nat>, lo: nat, nth: nat, ghost s0: seq<nat>, n: nat, points: seq<Point>, dim: nat, axis: nat) returns (ghost s: seq<nat>)
    requires Holds(indices, lo, s0) && |s0| == n && nth < n && Cloud(points, dim) && axis < dim && InBounds(s0, points)
    modifies indices
    ensures forall k :: 0 <= k < indices.Length && !(lo <= k < lo + n) ==> indices[k] == old(indices[k])
    ensures Holds(indices, lo, s) && |s| == n && multiset(s) == multiset(s0)
    ensures InBounds(s, points) && Median(s, nth, points, dim, axis)
  {
    assert indices[lo..lo + n] == s0;
    var chosen := Select(indices[lo..lo + n], nth, points, dim, axis);
    forall k | lo <= k < lo + n {
      indices[k] := chosen[k - lo];
    }
    s := chosen;
  }

  // ----- build -----

  lemma MedianBag(s: seq<nat>, m: nat)
    requires m < |s|
    ensures multiset(s) == multiset(s[..m]) + multiset{s[m]} + multiset(s[m + 1..])
  {
    assert s == s[..m] + [s[m]] + s[m + 1..];
  }

  /** Brings a node's ghost state up to date with its children. */
  ghost method Refresh(node: Node)
    requires Sound(node.next0) && Sound(node.next1) && ReprOf(node.next0) !! ReprOf(node.next1)
    requires node !in ReprOf(node.next0) && node !in ReprOf(node.next1)
    modifies node`Repr, node`tree
    ensures node.Valid() && node.Repr == {node} + old(ReprOf(node.next0)) + old(ReprOf(node.next1))
    ensures node.tree == Branch(old(TreeOf(node.next0)), node.idx, node.axis, old(TreeOf(node.next1)))
  {
    node.Repr := {node} + ReprOf(node.next0) + ReprOf(node.next1);
    node.tree := Branch(TreeOf(node.next0), node.idx, node.axis, TreeOf(node.next1));
  }

  /** Hangs two subtrees under a fresh node. */
  method Join(node: Node, left: Node?, right: Node?)
    requires Sound(left) && Sound(right) && ReprOf(left) !! ReprOf(right) && node !in ReprOf(left) && node !in ReprOf(right)
    modifies node
    ensures node.Valid() && node.Repr == {node} + old(ReprOf(left)) + old(ReprOf(right))
    ensures node.tree == Branch(old(TreeOf(left)), old(node.idx), old(node.axis), old(TreeOf(right)))
  {
    node.next0 := left;
    node.next1 := right;
    Refresh(node);
  }

  /** The segment's entries before, at and behind the median. */
  datatype Parts = Parts(left: seq<nat>, median: nat, right: seq<nat>)

  /** What nth_element leaves in the segment from lo on. */
  ghost predicate Parted(a: array<nat>, lo: nat, p: Parts)
    reads a
  {
    var mid := lo + |p.left|;
    mid < a.Length && Holds(a, lo, p.left) && a[mid] == p.median && Holds(a, mid + 1, p.right)
  }

  ghost predicate PartsOrdered(p: Parts, points: seq<Point>, dim: nat, axis: nat)
    requires Cloud(points, dim) && axis < dim
  {
    && p.median < |points|
    && (forall k :: 0 <= k < |p.left| ==> p.left[k] < |points| && points[p.left[k]][axis] <= points[p.median][axis])
    && (forall k :: 0 <= k < |p.right| ==> p.right[k] < |points| && points[p.right[k]][axis] >= points[p.median][axis])
  }

  lemma PartsSplit(p: Parts, points: seq<Point>, dim: nat, axis: nat)
    requires Cloud(points, dim) && axis < dim && PartsOrdered(p, points, dim, axis)
    ensures AllBelow(multiset(p.left), points, dim, axis, points[p.median][axis])
    ensures AllAbove(multiset(p.right), points, dim, axis, points[p.median][axis])
  {
    forall i | i in multiset(p.left) ensures i < |points| && points[i][axis] <= points[p.median][axis] {
      assert i in p.left;
    }
    forall i | i in multiset(p.right) ensures i < |points| && points[i][axis] >= points[p.median][axis] {
      assert i in p.right;
    }
  }

  method PartAtMedian(indices: array<nat>, lo: nat, ghost s0: seq<nat>, npoints: nat, points: seq<Point>, dim: nat, axis: nat) returns (mid: nat, ghost p: Parts)
    requires Holds(indices, lo, s0) && |s0| == npoints > 0 && Cloud(points, dim) && axis < dim && InBounds(s0, points)
    modifies indices
    ensures forall k :: 0 <= k < indices.Length && !(lo <= k < lo + npoints) ==> indices[k] == old(indices[k])
    ensures mid == (npoints - 1) / 2 == |p.left| && npoints == mid + 1 + |p.right| && Parted(indices, lo, p)
    ensures multiset(s0) == multiset(p.left) + multiset{p.median} + multiset(p.right) && PartsOrdered(p, points, dim, axis)
  {
    mid := (npoints - 1) / 2;
    ghost var s := NthElement(indices, lo, mid, s0, npoints, points, dim, axis);
    p := Parts(s[..mid], s[mid], s[mid + 1..]);
    MedianBag(s, mid);
  }

  /** How the segments happened to be parted, all the way down. */
  datatype Plan = Empty | Halve(parts: Parts, left: Plan, right: Plan)

  ghost predicate Follows(plan: Plan, s: seq<nat>, points: seq<Point>, dim: nat, depth: nat)
    requires Cloud(points, dim)
  {
    match plan
    case Empty => s == []
    case Halve(p, left, right) =>
      && |p.left| == (|s| - 1) / 2 && |s| == |p.left| + 1 + |p.right|
      && multiset(s) == multiset(p.left) + multiset{p.median} + multiset(p.right)
      && PartsOrdered(p, points, dim, depth % dim)
      && Follows(left, p.left, points, dim, depth + 1) && Follows(right, p.right, points, dim, depth + 1)
  }

  lemma FollowsHalve(p: Parts, left: Plan, right: Plan, s: seq<nat>, points: seq<Point>, dim: nat, depth: nat, axis: nat)
    requires Cloud(points, dim) && axis == depth % dim && PartsOrdered(p, points, dim, axis)
    requires |p.left| == (|s| - 1) / 2 && |s| == |p.left| + 1 + |p.right|
    requires multiset(s) == multiset(p.left) + multiset{p.median} + multiset(p.right)
    requires Follows(left, p.left, points, dim, depth + 1) && Follows(right, p.right, points, dim, depth + 1)
    ensures Follows(Halve(p, left, right), s, points, dim, depth)
    ensures PlanTree(Halve(p, left, right), dim, depth) == Branch(PlanTree(left, dim, depth + 1), p.median, axis, PlanTree(right, dim, depth + 1))
  {
  }

  function PlanTree(plan: Plan, dim: nat, depth: nat): Tree
    requires dim > 0
  {
    match plan
    case Empty => Leaf
    case Halve(p, left, right) => Branch(PlanTree(left, dim, depth + 1), p.median, depth % dim, PlanTree(right, dim, depth + 1))
  }

  lemma {:induction false} PlanBag(plan: Plan, s: seq<nat>, points: seq<Point>, dim: nat, depth: nat)
    requires Cloud(points, dim) && Follows(plan, s, points, dim, depth)
    ensures Bag(PlanTree(plan, dim, depth)) == multiset(s)
  {
    match plan
    case Empty =>
    case Halve(p, left, right) =>
      PlanBag(left, p.left, points, dim, depth + 1);
      PlanBag(right, p.right, points, dim, depth + 1);
  }

  lemma {:induction false} PlanSplit(plan: Plan, s: seq<nat>, points: seq<Point>, dim: nat, depth: nat)
    requires Cloud(points, dim) && Follows(plan, s, points, dim, depth)
    ensures Split(PlanTree(plan, dim, depth), points, dim, depth)
  {
    match plan
    case Empty =>
    case Halve(p, left, right) =>
      PlanBag(left, p.left, points, dim, depth + 1);
      PlanBag(right, p.right, points, dim, depth + 1);
      PlanSplit(left, p.left, points, dim, depth + 1);
      PlanSplit(right, p.right, points, dim, depth + 1);
      BranchSplit(PlanTree(left, dim, depth + 1), PlanTree(right, dim, depth + 1), p, points, dim, depth);
  }

  lemma BranchSplit(left: Tree, right: Tree, p: Parts, points: seq<Point>, dim: nat, depth: nat)
    requires Cloud(points, dim) && PartsOrdered(p, points, dim, depth % dim)
    requires Bag(left) == multiset(p.left) && Bag(right) == multiset(p.right)
    requires Split(left, points, dim, depth + 1) && Split(right, points, dim, depth + 1)
    ensures Split(Branch(left, p.median, depth % dim, right), points, dim, depth)
  {
    PartsSplit(p, points, dim, depth % dim);
  }

  lemma {:induction false} PlanHeight(plan: Plan, s: seq<nat>, points: seq<Point>, dim: nat, depth: nat)
    requires Cloud(points, dim) && Follows(plan, s, points, dim, depth)
    ensures Height(PlanTree(plan, dim, depth)) <= Levels(|s|)
  {
    match plan
    case Empty =>
    case Halve(p, left, right) =>
      PlanHeight(left, p.left, points, dim, depth + 1);
      PlanHeight(right, p.right, points, dim, depth + 1);
      LevelsBranch(|p.left|, |p.right|, Height(PlanTree(left, dim, depth + 1)), Height(PlanTree(right, dim, depth + 1)));
  }

  /** The two recursive calls, on the parts before and behind the median. */
  method BuildHalves(indices: array<nat>, lo: nat, npoints: nat, mid: nat, depth: nat, points: seq<Point>, dim: nat, ghost p: Parts)
    returns (left: Node?, right: Node?, ghost leftPlan: Plan, ghost rightPlan: Plan)
    requires Parted(indices, lo, p) && mid == |p.left| && npoints == mid + 1 + |p.right|
    requires Cloud(points, dim) && InBounds(p.left, points) && InBounds(p.right, points)
    modifies indices
    ensures forall k :: 0 <= k < indices.Length && !(lo <= k < lo + npoints) ==> indices[k] == old(indices[k])
    ensures Sound(left) && Sound(right) && fresh(ReprOf(left)) && fresh(ReprOf(right)) && ReprOf(left) !! ReprOf(right)
    ensures TreeOf(left) == PlanTree(leftPlan, dim, depth + 1) && Follows(leftPlan, p.left, points, dim, depth + 1)
    ensures TreeOf(right) == PlanTree(rightPlan, dim, depth + 1) && Follows(rightPlan, p.right, points, dim, depth + 1)
    decreases npoints, 0
  {
    left, leftPlan := BuildLeft(indices, lo, mid, depth, points, dim, p);
    right, rightPlan := BuildRecursive(indices, lo + mid + 1, npoints - mid - 1, depth + 1, points, dim, p.right);
  }

  /** The part before the median leaves the one behind it alone. */
  method BuildLeft(indices: array<nat>, lo: nat, mid: nat, depth: nat, points: seq<Point>, dim: nat, ghost p: Parts)
    returns (left: Node?, ghost plan: Plan)
    requires Parted(indices, lo, p) && mid == |p.left| && Cloud(points, dim) && InBounds(p.left, points)
    modifies indices
    ensures forall k :: 0 <= k < indices.Length && !(lo <= k < lo + mid) ==> indices[k] == old(indices[k])
    ensures Holds(indices, lo + mid + 1, p.right)
    ensures Sound(left) && fresh(ReprOf(left))
    ensures TreeOf(left) == PlanTree(plan, dim, depth + 1) && Follows(plan, p.left, points, dim, depth + 1)
    decreases mid, 4
  {
    left, plan := BuildRecursive(indices, lo, mid, depth + 1, points, dim, p.left);
  }

  method BuildRecursive(indices: array<nat>, lo: nat, npoints: nat, depth: nat, points: seq<Point>, dim: nat, ghost s0: seq<nat>)
    returns (node: Node?, ghost plan: Plan)
    requires Holds(indices, lo, s0) && |s0| == npoints && Cloud(points, dim) && InBounds(s0, points)
    modifies indices
    ensures forall k :: 0 <= k < indices.Length && !(lo <= k < lo + npoints) ==> indices[k] == old(indices[k])
    ensures Sound(node) && fresh(ReprOf(node))
    ensures TreeOf(node) == PlanTree(plan, dim, depth) && Follows(plan, s0, points, dim, depth)
    decreases npoints, 3
  {
    if npoints <= 0 {
      return null, Empty;
    }
    var left, right;
    node, left, right, plan := BuildParts(indices, lo, npoints, depth, points, dim, s0);
    Join(node, left, right);
  }

  /** The node for the median and the two subtrees, not yet joined. */
  method BuildParts(indices: array<nat>, lo: nat, npoints: nat, depth: nat, points: seq<Point>, dim: nat, ghost s0: seq<nat>)
    returns (node: Node, left: Node?, right: Node?, ghost plan: Plan)
    requires Holds(indices, lo, s0) && |s0| == npoints > 0 && Cloud(points, dim) && InBounds(s0, points)
    modifies indices
    ensures forall k :: 0 <= k < indices.Length && !(lo <= k < lo + npoints) ==> indices[k] == old(indices[k])
    ensures Sound(left) && Sound(right) && fresh(node) && fresh(ReprOf(left)) && fresh(ReprOf(right))
    ensures ReprOf(left) !! ReprOf(right) && node !in ReprOf(left) && node !in ReprOf(right)
    ensures PlanTree(plan, dim, depth) == Branch(TreeOf(left), node.idx, node.axis, TreeOf(right))
    ensures Follows(plan, s0, points, dim, depth)
    decreases npoints, 2
  {
    var axis := depth % dim;
    var mid, p := PartAtMedian(indices, lo, s0, npoints, points, dim, axis);
    ghost var leftPlan, rightPlan;
    node, left, right, leftPlan, rightPlan := BuildNode(indices, lo, npoints, mid, depth, points, dim, p, axis);
    plan := Halve(p, leftPlan, rightPlan);
    FollowsHalve(p, leftPlan, rightPlan, s0, points, dim, depth, axis);
  }

  /** Allocates the median's node, then builds what hangs under it. */
  method BuildNode(indices: array<nat>, lo: nat, npoints: nat, mid: nat, depth: nat, points: seq<Point>, dim: nat, ghost p: Parts, axis: nat)
    returns (node: Node, left: Node?, right: Node?, ghost leftPlan: Plan, ghost rightPlan: Plan)
    requires Parted(indices, lo, p) && mid == |p.left| && npoints == mid + 1 + |p.right|
    requires Cloud(points, dim) && InBounds(p.left, points) && InBounds(p.right, points)
    modifies indices
    ensures forall k :: 0 <= k < indices.Length && !(lo <= k < lo + npoints) ==> indices[k] == old(indices[k])
    ensures fresh(node) && node.idx == p.median && node.axis == axis && node !in ReprOf(left) && node !in ReprOf(right)
    ensures Sound(left) && Sound(right) && fresh(ReprOf(left)) && fresh(ReprOf(right)) && ReprOf(left) !! ReprOf(right)
    ensures TreeOf(left) == PlanTree(leftPlan, dim, depth + 1) && Follows(leftPlan, p.left, points, dim, depth + 1)
    ensures TreeOf(right) == PlanTree(rightPlan, dim, depth + 1) && Follows(rightPlan, p.right, points, dim, depth + 1)
    decreases npoints, 1
  {
    node := new Node(indices[lo + mid], axis);
    left, right, leftPlan, rightPlan := BuildHalves(indices, lo, npoints, mid, depth, points, dim, p);
  }

  // ----- insert -----

  method InsertRecursive(node: Node?, idx: nat, depth: nat, points: seq<Point>, dim: nat) returns (r: Node)
    requires Sound(node) && Cloud(points, dim) && idx < |points| && Fits(TreeOf(node), |points|, dim)
    modifies ReprOf(node)
    ensures r.Valid() && fresh(r.Repr - old(ReprOf(node)))
    ensures r.tree == Insert(old(TreeOf(node)), points, dim, idx, depth)
    decreases TreeOf(node)
  {
    if node == null {
      r := new Node(idx, depth % dim);
      return;
    }
    var axis := node.axis;
    if points[idx][axis] < points[node.idx][axis] {
      ghost var other := node.next1;
      assert other != null ==> other.Valid() && other.Repr !! ReprOf(node.next0) && node !in other.Repr;
      var child := InsertRecursive(node.next0, idx, depth + 1, points, dim);
      assert other != null ==> other.Valid() && other.Repr == old(other.Repr);
      node.next0 := child;
    } else {
      ghost var other := node.next0;
      assert other != null ==> other.Valid() && other.Repr !! ReprOf(node.next1) && node !in other.Repr;
      var child := InsertRecursive(node.next1, idx, depth + 1, points, dim);
      assert other != null ==> other.Valid() && other.Repr == old(other.Repr);
      node.next1 := child;
    }
    Refresh(node);
    r := node;
  }

  // ----- the class -----

  lemma BuiltWhole(plan: Plan, s: seq<nat>, points: seq<Point>, dim: nat)
    requires Cloud(points, dim) && |s| == |points| && (forall i :: 0 <= i < |s| ==> s[i] == i) && Follows(plan, s, points, dim, 0)
    ensures Indexed(PlanTree(plan, dim, 0), points, dim) && Height(PlanTree(plan, dim, 0)) <= Levels(|points|)
  {
    PlanIndexed(plan, s, points, dim);
    PlanHeight(plan, s, points, dim, 0);
  }

  class KDTree {
    const dim: nat
    var points: seq<Point>
    var root: Node?

    /** Each index exactly once, and the split order at every node. */
    ghost predicate Valid()
      reads this, root, ReprOf(root)
    {
      Cloud(points, dim) && Sound(root) && Indexed(TreeOf(root), points, dim)
    }

    constructor (dim: nat)
      requires dim > 0
      ensures Valid() && this.dim == dim && points == [] && root == null
    {
      this.dim := dim;
      points, root := [], null;
    }

    /** Whatever was in the tree before is gone. */
    method Build(points: seq<Point>)
      requires Cloud(points, dim)
      modifies this
      ensures Valid() && this.points == points && fresh(ReprOf(root))
      ensures Height(TreeOf(root)) <= Levels(|points|)
    {
      Clear();
      this.points := points;
      var indices := new nat[|points|](i => i);
      ghost var s := seq(|points|, i => i);
      ghost var plan;
      root, plan := BuildRecursive(indices, 0, |points|, 0, points, dim, s);
      BuiltWhole(plan, s, points, dim);
    }

    method Clear()
      modifies this
      ensures points == [] && root == null
    {
      root := null;
      points := [];
    }

    method Insert(point: Point)
      requires Valid() && |point| == dim
      modifies this, ReprOf(root)
      ensures Valid() && points == old(points) + [point] && fresh(ReprOf(root) - old(ReprOf(root)))
    {
      root := InsertInto(root, points, point, dim);
      points := points + [point];
    }
  }

  /** Inserts the index of a point just appended. */
  method InsertInto(root: Node?, points: seq<Point>, point: Point, dim: nat) returns (r: Node)
    requires Cloud(points, dim) && |point| == dim && Sound(root) && Indexed(TreeOf(root), points, dim)
    modifies ReprOf(root)
    ensures r.Valid() && fresh(r.Repr - old(ReprOf(root)))
    ensures Cloud(points + [point], dim) && Indexed(r.tree, points + [point], dim)
  {
    IndexedInsert(TreeOf(root), points, point, dim);
    r := InsertRecursive(root, |points|, 0, points + [point], dim);
  }

  lemma PlanIndexed(plan: Plan, s: seq<nat>, points: seq<Point>, dim: nat)
    requires Cloud(points, dim) && s == seq(|points|, i => i) && Follows(plan, s, points, dim, 0)
    ensures Indexed(PlanTree(plan, dim, 0), points, dim)
  {
    PlanBag(plan, s, points, dim, 0);
    PlanSplit(plan, s, points, dim, 0);
    IotaEach(|points|, s);
  }

  lemma {:induction false} IotaEach(n: nat, s: seq<nat>)
    requires |s| == n && forall i :: 0 <= i < n ==> s[i] == i
    ensures Each(multiset(s), n)
  {
    if n > 0 {
      IotaEach(n - 1, s[..n - 1]);
      assert s == s[..n - 1] + [s[n - 1]];
    }
  }
}

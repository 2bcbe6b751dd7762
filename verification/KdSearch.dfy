/** The three searches, each proved to agree with a scan of all points. */
module KdSearch {
  import opened Common
  import opened Reals
  import opened KdTree
  import opened KdBuild
  import opened KdQueue

  // ----- nearest neighbour: the search as a function of the tree -----

  datatype Guess = Guess(at: Option<nat>, dist: real)

  function NnHere(q: Query, i: nat, g: Guess): Guess
    requires Shaped(q) && i < |q.points|
  {
    if Dist(q, i) < g.dist then Guess(Some(i), Dist(q, i)) else g
  }

  function NnTree(q: Query, t: Tree, g: Guess): Guess
    requires Shaped(q) && Fits(t, |q.points|, q.dim)
  {
    if t.Leaf? then g
    else
      var near := NnTree(q, Near(q, t), NnHere(q, t.idx, g));
      if PlaneDist(q, t) < near.dist then NnTree(q, Other(q, t), near) else near
  }

  /** Guess g1 after looking at all of the bag with guess g0: the least distance, and where it was found. */
  ghost predicate Nearest(q: Query, bag: multiset<nat>, g0: Guess, g1: Guess)
    requires Shaped(q)
  {
    && g1.dist <= g0.dist && Far(q, bag, g1.dist)
    && (g1 == g0 || (g1.dist < g0.dist && g1.at.Some? && g1.at.value in bag && Dist(q, g1.at.value) == g1.dist))
  }

  lemma NearestThen(q: Query, a: multiset<nat>, b: multiset<nat>, g0: Guess, g1: Guess, g2: Guess)
    requires Ok(q) && Nearest(q, a, g0, g1) && Nearest(q, b, g1, g2)
    ensures Nearest(q, a + b, g0, g2)
  {
  }

  lemma NearestHere(q: Query, i: nat, g: Guess)
    requires Ok(q) && i < |q.points|
    ensures Nearest(q, multiset{i}, g, NnHere(q, i, g))
  {
  }

  lemma NearestSkip(q: Query, bag: multiset<nat>, diff: real, g: Guess)
    requires Ok(q) && Far(q, bag, diff) && g.dist <= diff
    ensures Nearest(q, bag, g, g)
  {
  }

  /** Despite pruning, the search has looked at the whole subtree. */
  lemma {:induction false} NnCorrect(q: Query, t: Tree, depth: nat, g: Guess)
    requires Ok(q) && Fits(t, |q.points|, q.dim) && Split(t, q.points, q.dim, depth)
    ensures Nearest(q, Bag(t), g, NnTree(q, t, g))
  {
    match t
    case Leaf =>
    case Branch(_, idx, _, _) =>
      var near, other := Near(q, t), Other(q, t);
      var g1 := NnHere(q, idx, g);
      var g2 := NnTree(q, near, g1);
      Sides(q, t, depth);
      OtherSideFar(q, t, depth);
      NearestHere(q, idx, g);
      NnCorrect(q, near, depth + 1, g1);
      NearestThen(q, multiset{idx}, Bag(near), g, g1, g2);
      var g3 := if PlaneDist(q, t) < g2.dist then NnTree(q, other, g2) else g2;
      if PlaneDist(q, t) < g2.dist {
        NnCorrect(q, other, depth + 1, g2);
      } else {
        NearestSkip(q, Bag(other), PlaneDist(q, t), g2);
      }
      NearestThen(q, multiset{idx} + Bag(near), Bag(other), g, g2, g3);
  }

  // ----- radius -----

  function RadiusTree(q: Query, t: Tree, radius: real, found: seq<nat>): seq<nat>
    requires Shaped(q) && Fits(t, |q.points|, q.dim)
  {
    if t.Leaf? then found
    else
      var near := RadiusTree(q, Near(q, t), radius, RadiusHere(q, t.idx, radius, found));
      if PlaneDist(q, t) < radius then RadiusTree(q, Other(q, t), radius, near) else near
  }

  /** What the search adds: every index of the bag strictly within the radius, as often as it is there. */
  ghost predicate Within(q: Query, bag: multiset<nat>, radius: real, r0: seq<nat>, r1: seq<nat>)
    requires Shaped(q)
  {
    forall i: nat :: multiset(r1)[i] == multiset(r0)[i] + if i < |q.points| && Dist(q, i) < radius then bag[i] else 0
  }

  lemma WithinThen(q: Query, a: multiset<nat>, b: multiset<nat>, radius: real, r0: seq<nat>, r1: seq<nat>, r2: seq<nat>)
    requires Ok(q) && Within(q, a, radius, r0, r1) && Within(q, b, radius, r1, r2)
    ensures Within(q, a + b, radius, r0, r2)
  {
  }

  lemma WithinHere(q: Query, i: nat, radius: real, r: seq<nat>)
    requires Ok(q) && i < |q.points|
    ensures Within(q, multiset{i}, radius, r, if Dist(q, i) < radius then r + [i] else r)
  {
  }

  lemma WithinSkip(q: Query, bag: multiset<nat>, diff: real, radius: real, r: seq<nat>)
    requires Ok(q) && Far(q, bag, diff) && radius <= diff
    ensures Within(q, bag, radius, r, r)
  {
  }

  function RadiusHere(q: Query, i: nat, radius: real, r: seq<nat>): seq<nat>
    requires Shaped(q) && i < |q.points|
  {
    if Dist(q, i) < radius then r + [i] else r
  }

  lemma {:induction false} RadiusCorrect(q: Query, t: Tree, depth: nat, radius: real, r: seq<nat>)
    requires Ok(q) && Fits(t, |q.points|, q.dim) && Split(t, q.points, q.dim, depth)
    ensures Within(q, Bag(t), radius, r, RadiusTree(q, t, radius, r))
    decreases t, 1
  {
    match t
    case Leaf =>
    case Branch(_, idx, _, _) =>
      var near, other := Near(q, t), Other(q, t);
      var r2 := RadiusTree(q, near, radius, RadiusHere(q, idx, radius, r));
      RadiusNearCorrect(q, t, depth, radius, r);
      Sides(q, t, depth);
      OtherSideFar(q, t, depth);
      var r3 := if PlaneDist(q, t) < radius then RadiusTree(q, other, radius, r2) else r2;
      if PlaneDist(q, t) < radius {
        RadiusCorrect(q, other, depth + 1, radius, r2);
      } else {
        WithinSkip(q, Bag(other), PlaneDist(q, t), radius, r2);
      }
      WithinThen(q, multiset{idx} + Bag(near), Bag(other), radius, r, r2, r3);
  }

  lemma {:induction false} RadiusNearCorrect(q: Query, t: Tree, depth: nat, radius: real, r: seq<nat>)
    requires Ok(q) && Fits(t, |q.points|, q.dim) && Split(t, q.points, q.dim, depth) && t.Branch?
    ensures Within(q, multiset{t.idx} + Bag(Near(q, t)), radius, r, RadiusTree(q, Near(q, t), radius, RadiusHere(q, t.idx, radius, r)))
    decreases t, 0
  {
    var r1 := RadiusHere(q, t.idx, radius, r);
    WithinHere(q, t.idx, radius, r);
    RadiusCorrect(q, Near(q, t), depth + 1, radius, r1);
    WithinThen(q, multiset{t.idx}, Bag(Near(q, t)), radius, r, r1, RadiusTree(q, Near(q, t), radius, r1));
  }

  // ----- k nearest neighbours -----

  /** Is there anything to gain on the other side? */
  predicate Open(es: seq<Entry>, k: nat, diff: real) {
    |es| < k || (es != [] && diff < es[|es| - 1].0)
  }

  /** The node itself and the query's side of it. */
  function KnnNear(q: Query, t: Tree, k: nat, es: seq<Entry>): seq<Entry>
    requires Shaped(q) && Fits(t, |q.points|, q.dim) && t.Branch?
    decreases t, 0
  {
    KnnTree(q, Near(q, t), k, Pushed(es, (Dist(q, t.idx), t.idx), k))
  }

  function KnnTree(q: Query, t: Tree, k: nat, es: seq<Entry>): seq<Entry>
    requires Shaped(q) && Fits(t, |q.points|, q.dim)
    decreases t, 1
  {
    if t.Leaf? then es
    else
      var near := KnnNear(q, t, k, es);
      if Open(near, k, PlaneDist(q, t)) then KnnTree(q, Other(q, t), k, near) else near
  }

  /** Despite pruning and the bound, the queue holds the k nearest of the subtree and what came before. */
  lemma {:induction false} KnnCorrect(q: Query, t: Tree, depth: nat, k: nat, bag: multiset<nat>, es: seq<Entry>)
    requires Ok(q) && Fits(t, |q.points|, q.dim) && Split(t, q.points, q.dim, depth) && k >= 1 && HoldsNearest(q, bag, es, k)
    ensures HoldsNearest(q, bag + Bag(t), KnnTree(q, t, k, es), k)
    decreases t, 1
  {
    match t
    case Leaf =>
      assert bag + Bag(t) == bag;
    case Branch(_, idx, _, _) =>
      var near, other := Near(q, t), Other(q, t);
      var b2, e2 := bag + multiset{idx} + Bag(near), KnnNear(q, t, k, es);
      KnnNearCorrect(q, t, depth, k, bag, es);
      Sides(q, t, depth);
      OtherSideFar(q, t, depth);
      if Open(e2, k, PlaneDist(q, t)) {
        KnnCorrect(q, other, depth + 1, k, b2, e2);
      } else {
        SkipHolds(q, b2, Bag(other), PlaneDist(q, t), e2, k);
      }
      BagsJoin(bag, multiset{idx}, Bag(near), Bag(other));
  }

  lemma {:induction false} KnnNearCorrect(q: Query, t: Tree, depth: nat, k: nat, bag: multiset<nat>, es: seq<Entry>)
    requires Ok(q) && Fits(t, |q.points|, q.dim) && Split(t, q.points, q.dim, depth) && k >= 1 && HoldsNearest(q, bag, es, k) && t.Branch?
    ensures HoldsNearest(q, bag + multiset{t.idx} + Bag(Near(q, t)), KnnNear(q, t, k, es), k)
    decreases t, 0
  {
    PushHolds(q, bag, es, k, t.idx);
    KnnCorrect(q, Near(q, t), depth + 1, k, bag + multiset{t.idx}, Pushed(es, (Dist(q, t.idx), t.idx), k));
  }

  lemma BagsJoin(a: multiset<nat>, b: multiset<nat>, c: multiset<nat>, d: multiset<nat>)
    ensures a + b + c + d == a + (b + c + d)
  {
  }

  // ----- the code, on heap nodes -----

  /** The loop over the coordinates. */
  method Distance(q: Query, i: nat) returns (d: real)
    requires Shaped(q) && i < |q.points|
    ensures d == Dist(q, i)
  {
    var dist := 0.0;
    for j := 0 to q.dim
      invariant dist == SumSquares(q.at, q.points[i], j)
    {
      dist := dist + (q.at[j] - q.points[i][j]) * (q.at[j] - q.points[i][j]);
    }
    d := q.sqrt(dist);
  }

  /** The child on the query's side, the other one, and how far the splitting plane is. */
  method Children(q: Query, node: Node) returns (near: Node?, other: Node?, diff: real)
    requires Shaped(q) && node.Valid() && Fits(node.tree, |q.points|, q.dim)
    ensures Sound(near) && Sound(other) && node.idx == node.tree.idx
    ensures TreeOf(near) == Near(q, node.tree) && TreeOf(other) == Other(q, node.tree)
    ensures diff == PlaneDist(q, node.tree)
  {
    var axis := node.axis;
    var train := q.points[node.idx];
    if q.at[axis] < train[axis] {
      near, other := node.next0, node.next1;
    } else {
      near, other := node.next1, node.next0;
    }
    diff := Abs(q.at[axis] - train[axis]);
  }

  method NnSearchRecursive(q: Query, node: Node?, g0: Guess) returns (g: Guess)
    requires Shaped(q) && Sound(node) && Fits(TreeOf(node), |q.points|, q.dim)
    ensures g == NnTree(q, TreeOf(node), g0)
    decreases TreeOf(node)
  {
    g := g0;
    if node == null {
      return;
    }
    var near, other, diff := Children(q, node);
    var dist := Distance(q, node.idx);
    if dist < g.dist {
      g := Guess(Some(node.idx), dist);
    }
    g := NnSearchRecursive(q, near, g);
    if diff < g.dist {
      g := NnSearchRecursive(q, other, g);
    }
  }

  method RadiusSearchRecursive(q: Query, node: Node?, indices0: seq<nat>, radius: real) returns (indices: seq<nat>)
    requires Shaped(q) && Sound(node) && Fits(TreeOf(node), |q.points|, q.dim)
    ensures indices == RadiusTree(q, TreeOf(node), radius, indices0)
    decreases TreeOf(node)
  {
    indices := indices0;
    if node == null {
      return;
    }
    var near, other, diff := Children(q, node);
    var dist := Distance(q, node.idx);
    if dist < radius {
      indices := indices + [node.idx];
    }
    indices := RadiusSearchRecursive(q, near, indices, radius);
    if diff < radius {
      indices := RadiusSearchRecursive(q, other, indices, radius);
    }
  }

  method KnnSearchRecursive(q: Query, node: Node?, queue: BoundedPriorityQueue, k: nat)
    requires Shaped(q) && Sound(node) && Fits(TreeOf(node), |q.points|, q.dim) && queue.bound == k >= 1
    modifies queue
    ensures queue.elements == KnnTree(q, TreeOf(node), k, old(queue.elements))
    decreases TreeOf(node), 1
  {
    if node == null {
      return;
    }
    var near, other, diff := Children(q, node);
    KnnSearchNear(q, node, near, queue, k);
    if |queue.elements| < k || (queue.elements != [] && diff < queue.elements[|queue.elements| - 1].0) {
      KnnSearchRecursive(q, other, queue, k);
    }
  }

  /** The first half: the node itself and the query's side of it. */
  method KnnSearchNear(q: Query, node: Node, near: Node?, queue: BoundedPriorityQueue, k: nat)
    requires Shaped(q) && node.Valid() && Fits(node.tree, |q.points|, q.dim) && queue.bound == k >= 1
    requires Sound(near) && TreeOf(near) == Near(q, node.tree) && node.idx == node.tree.idx
    modifies queue
    ensures queue.elements == KnnNear(q, node.tree, k, old(queue.elements))
    decreases TreeOf(node), 0
  {
    var dist := Distance(q, node.idx);
    queue.Push((dist, node.idx));
    KnnSearchRecursive(q, near, queue, k);
  }

  // ----- the public searches -----

  /** The query a tree's search works on. */
  function QueryOf(tree: KDTree, at: Point, sqrt: real -> real): Query
    reads tree
  {
    Query(tree.points, tree.dim, at, sqrt)
  }

  /**
   The index of a nearest point and its distance, provided some point is closer than the largest
   double; otherwise (as for an empty tree) the code's guess stays uninitialised.
   */
  method NnSearch(tree: KDTree, at: Point, sqrt: real -> real, maxDouble: real) returns (g: Guess)
    requires tree.Valid() && |at| == tree.dim && IsSqrt(sqrt)
    ensures var q := QueryOf(tree, at, sqrt);
            && (forall i :: 0 <= i < |tree.points| ==> g.dist <= Dist(q, i)) && g.dist <= maxDouble
            && (g.at.Some? ==> g.at.value < |tree.points| && g.dist == Dist(q, g.at.value) < maxDouble)
            && (g.at.None? ==> g.dist == maxDouble)
  {
    var q := QueryOf(tree, at, sqrt);
    ghost var t := TreeOf(tree.root);
    SplitFits(t, q.points, q.dim, 0);
    g := NnSearchRecursive(q, tree.root, Guess(None, maxDouble));
    NnCorrect(q, t, 0, Guess(None, maxDouble));
  }

  /** Exactly the indices strictly within the radius, each once. */
  method RadiusSearch(tree: KDTree, at: Point, sqrt: real -> real, radius: real) returns (indices: seq<nat>)
    requires tree.Valid() && |at| == tree.dim && IsSqrt(sqrt)
    ensures var q := QueryOf(tree, at, sqrt);
            forall i: nat :: multiset(indices)[i] == if i < |tree.points| && Dist(q, i) < radius then 1 else 0
  {
    var q := QueryOf(tree, at, sqrt);
    ghost var t := TreeOf(tree.root);
    SplitFits(t, q.points, q.dim, 0);
    indices := RadiusSearchRecursive(q, tree.root, [], radius);
    RadiusWhole(q, t, radius, indices);
  }

  lemma RadiusWhole(q: Query, t: Tree, radius: real, r: seq<nat>)
    requires Ok(q) && Indexed(t, q.points, q.dim) && Fits(t, |q.points|, q.dim) && r == RadiusTree(q, t, radius, [])
    ensures forall i: nat :: multiset(r)[i] == if i < |q.points| && Dist(q, i) < radius then 1 else 0
  {
    RadiusCorrect(q, t, 0, radius, []);
  }

  /** The search on a whole tree, from an empty queue. */
  lemma KnnWhole(q: Query, t: Tree, k: nat, es: seq<Entry>, r: seq<nat>)
    requires Ok(q) && k >= 1 && Indexed(t, q.points, q.dim) && Fits(t, |q.points|, q.dim) && es == KnnTree(q, t, k, [])
    requires |r| == |es| && forall i :: 0 <= i < |es| ==> r[i] == es[i].1
    ensures KNearest(q, r, k)
  {
    assert HoldsNearest(q, multiset{}, [], k);
    KnnCorrect(q, t, 0, k, multiset{}, []);
    assert multiset{} + Bag(t) == Bag(t);
    HoldsKNearest(q, Bag(t), es, k, r);
  }

  /** Copies the indices out of the queue. */
  method Indices(es: seq<Entry>) returns (indices: seq<nat>)
    ensures |indices| == |es| && forall i :: 0 <= i < |es| ==> indices[i] == es[i].1
  {
    indices := [];
    for i := 0 to |es|
      invariant |indices| == i && forall j :: 0 <= j < i ==> indices[j] == es[j].1
    {
      indices := indices + [es[i].1];
    }
  }

  method KnnSearch(tree: KDTree, at: Point, sqrt: real -> real, k: nat) returns (indices: seq<nat>)
    requires tree.Valid() && |at| == tree.dim && IsSqrt(sqrt) && k >= 1
    ensures KNearest(QueryOf(tree, at, sqrt), indices, k)
  {
    var q := QueryOf(tree, at, sqrt);
    ghost var t := TreeOf(tree.root);
    SplitFits(t, q.points, q.dim, 0);
    var queue := new BoundedPriorityQueue(k);
    KnnSearchRecursive(q, tree.root, queue, k);
    indices := Indices(queue.elements);
    KnnWhole(q, t, k, queue.elements, indices);
  }

  /** min(k, n) different indices in ascending distance order, and no other point is closer than the last. */
  ghost predicate KNearest(q: Query, r: seq<nat>, k: nat)
    requires Shaped(q)
  {
    && |r| == (if |q.points| < k then |q.points| else k)
    && (forall i :: 0 <= i < |r| ==> r[i] < |q.points|)
    && (forall i, j :: 0 <= i < j < |r| ==> r[i] != r[j] && Dist(q, r[i]) <= Dist(q, r[j]))
    && (forall i :: 0 <= i < |q.points| && i !in r ==> r != [] && Dist(q, i) >= Dist(q, r[|r| - 1]))
  }

  lemma HoldsKNearest(q: Query, bag: multiset<nat>, es: seq<Entry>, k: nat, r: seq<nat>)
    requires Ok(q) && k >= 1 && Each(bag, |q.points|) && HoldsNearest(q, bag, es, k)
    requires |r| == |es| && forall i :: 0 <= i < |es| ==> r[i] == es[i].1
    ensures KNearest(q, r, k)
  {
    EachCount(bag, |q.points|);
    SecondsAre(es, r);
    forall i, j | 0 <= i < j < |r| ensures r[i] != r[j] && Dist(q, r[i]) <= Dist(q, r[j]) {
      assert !Less(es[j], es[i]);
      Twice(r, i, j);
    }
    forall i | 0 <= i < |q.points| && i !in r ensures r != [] && Dist(q, i) >= Dist(q, r[|r| - 1]) {
      assert i in bag - Seconds(es);
    }
  }

  lemma {:induction false} SecondsAre(es: seq<Entry>, r: seq<nat>)
    requires |r| == |es| && forall i :: 0 <= i < |es| ==> r[i] == es[i].1
    ensures Seconds(es) == multiset(r)
  {
    if es != [] {
      var n := |es| - 1;
      SecondsAre(es[..n], r[..n]);
      assert r == r[..n] + [r[n]];
    }
  }

  lemma Twice(r: seq<nat>, i: nat, j: nat)
    requires i < j < |r|
    ensures r[i] == r[j] ==> multiset(r)[r[i]] >= 2
  {
    assert r == r[..j] + [r[j]] + r[j + 1..];
    assert r[..j][i] == r[i];
    assert r[i] in multiset(r[..j]);
  }

  lemma {:induction false} EachCount(bag: multiset<nat>, n: nat)
    requires Each(bag, n)
    ensures |bag| == n
  {
    if n == 0 {
      assert bag == multiset{};
    } else {
      EachCount(bag - multiset{n - 1}, n - 1);
      assert bag == bag - multiset{n - 1} + multiset{n - 1};
    }
  }
}

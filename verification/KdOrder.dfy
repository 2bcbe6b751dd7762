/** The k nearest neighbours by their distances: the front of the sorted list of all distances. */
module KdOrder {
  import opened KdTree
  import opened KdSearch

  ghost predicate Ascending(s: seq<real>) {
    forall i, j :: 0 <= i < j < |s| ==> s[i] <= s[j]
  }

  function InsertReal(x: real, s: seq<real>): seq<real> {
    if s == [] || x <= s[0] then [x] + s else [s[0]] + InsertReal(x, s[1..])
  }

  /** Insertion sort, as the reference. */
  function Sort(s: seq<real>): seq<real> {
    if s == [] then [] else InsertReal(s[0], Sort(s[1..]))
  }

  lemma {:induction false} InsertRealSorts(x: real, s: seq<real>)
    requires Ascending(s)
    ensures multiset(InsertReal(x, s)) == multiset(s) + multiset{x}
    ensures Ascending(InsertReal(x, s)) && InsertReal(x, s) != []
    ensures InsertReal(x, s)[0] == if s == [] || x <= s[0] then x else s[0]
  {
    if s != [] && x > s[0] {
      InsertRealSorts(x, s[1..]);
      var r := InsertReal(x, s[1..]);
      assert s == [s[0]] + s[1..];
      forall i | 0 <= i < |r| ensures s[0] <= r[i] {
        assert r[0] <= r[i];
      }
    }
  }

  lemma {:induction false} SortSorts(s: seq<real>)
    ensures multiset(Sort(s)) == multiset(s) && Ascending(Sort(s))
  {
    if s != [] {
      SortSorts(s[1..]);
      InsertRealSorts(s[0], Sort(s[1..]));
      assert s == [s[0]] + s[1..];
    }
  }

  /** There is only one way to sort. */
  lemma {:induction false} SortedUnique(a: seq<real>, b: seq<real>)
    requires Ascending(a) && Ascending(b) && multiset(a) == multiset(b)
    ensures a == b
  {
    assert |multiset(a)| == |multiset(b)|;
    if a != [] {
      SameFirst(a, b);
      SortedUnique(a[1..], b[1..]);
      assert a == [a[0]] + a[1..] && b == [b[0]] + b[1..];
    }
  }

  lemma SameFirst(a: seq<real>, b: seq<real>)
    requires Ascending(a) && Ascending(b) && multiset(a) == multiset(b) && a != [] && b != []
    ensures a[0] == b[0] && multiset(a[1..]) == multiset(b[1..])
  {
    assert a == [a[0]] + a[1..] && b == [b[0]] + b[1..];
    assert a[0] in multiset(a) && b[0] in multiset(b);
    assert a[0] in b && b[0] in a;
    assert a[0] == b[0];
    assert multiset(a[1..]) == multiset(a) - multiset{a[0]};
    assert multiset(b[1..]) == multiset(b) - multiset{b[0]};
  }

  /** The distances of some indices. */
  function Distances(q: Query, r: seq<nat>): (ds: seq<real>)
    requires Shaped(q) && forall i :: 0 <= i < |r| ==> r[i] < |q.points|
    ensures |ds| == |r| && forall i :: 0 <= i < |r| ==> ds[i] == Dist(q, r[i])
  {
    if r == [] then [] else Distances(q, r[..|r| - 1]) + [Dist(q, r[|r| - 1])]
  }

  function Iota(n: nat): (s: seq<nat>)
    ensures |s| == n && forall i :: 0 <= i < n ==> s[i] == i
  {
    if n == 0 then [] else Iota(n - 1) + [n - 1]
  }

  /** The indices below n that r leaves out. */
  function Others(n: nat, r: seq<nat>): (s: seq<nat>)
    ensures forall i :: 0 <= i < |s| ==> s[i] < n && s[i] !in r
  {
    if n == 0 then [] else if n - 1 in r then Others(n - 1, r) else Others(n - 1, r) + [n - 1]
  }

  lemma {:induction false} OthersBag(n: nat, r: seq<nat>)
    ensures forall i: nat :: multiset(Others(n, r))[i] == if i < n && i !in r then 1 else 0
  {
    if n > 0 {
      OthersBag(n - 1, r);
    }
  }

  lemma {:induction false} DistinctBag(r: seq<nat>)
    requires forall i, j :: 0 <= i < j < |r| ==> r[i] != r[j]
    ensures forall x: nat :: multiset(r)[x] == if x in r then 1 else 0
  {
    if r != [] {
      var n := |r| - 1;
      DistinctBag(r[..n]);
      assert r == r[..n] + [r[n]];
    }
  }

  lemma {:induction false} IotaBag(n: nat)
    ensures forall i: nat :: multiset(Iota(n))[i] == if i < n then 1 else 0
  {
    if n > 0 {
      IotaBag(n - 1);
    }
  }

  /** Chosen and other indices together are all indices. */
  lemma Complement(n: nat, r: seq<nat>)
    requires forall i :: 0 <= i < |r| ==> r[i] < n
    requires forall i, j :: 0 <= i < j < |r| ==> r[i] != r[j]
    ensures multiset(r + Others(n, r)) == multiset(Iota(n))
  {
    OthersBag(n, r);
    DistinctBag(r);
    IotaBag(n);
    assert forall x: nat :: multiset(r + Others(n, r))[x] == multiset(Iota(n))[x];
  }

  lemma {:induction false} DistancesConcat(q: Query, a: seq<nat>, b: seq<nat>)
    requires Shaped(q) && forall i :: 0 <= i < |a| ==> a[i] < |q.points|
    requires forall i :: 0 <= i < |b| ==> b[i] < |q.points|
    ensures forall i :: 0 <= i < |a + b| ==> (a + b)[i] < |q.points|
    ensures Distances(q, a + b) == Distances(q, a) + Distances(q, b)
  {
  }

  /** The same indices in another order have the same distances in another order. */
  lemma {:induction false} SameBag(q: Query, a: seq<nat>, b: seq<nat>)
    requires Shaped(q) && forall i :: 0 <= i < |a| ==> a[i] < |q.points|
    requires forall i :: 0 <= i < |b| ==> b[i] < |q.points|
    requires multiset(a) == multiset(b)
    ensures multiset(Distances(q, a)) == multiset(Distances(q, b))
  {
    if a == [] {
      assert b == [] by {
        assert |multiset(b)| == |b|;
      }
    } else {
      var front, x := a[..|a| - 1], a[|a| - 1];
      assert a == front + [x];
      var left, right := Locate(b, x);
      RemoveOne(front, x, left, right);
      SameBag(q, front, left + right);
      SameBagAround(q, front, x, left, right);
    }
  }

  lemma Locate(b: seq<nat>, x: nat) returns (left: seq<nat>, right: seq<nat>)
    requires x in multiset(b)
    ensures b == left + [x] + right && (forall i :: 0 <= i < |left| ==> left[i] in b) && forall i :: 0 <= i < |right| ==> right[i] in b
  {
    var j :| 0 <= j < |b| && b[j] == x;
    left, right := b[..j], b[j + 1..];
  }

  lemma SameBagAround(q: Query, a: seq<nat>, x: nat, left: seq<nat>, right: seq<nat>)
    requires Shaped(q) && x < |q.points| && (forall i :: 0 <= i < |a| ==> a[i] < |q.points|)
    requires forall i :: 0 <= i < |left| ==> left[i] < |q.points|
    requires forall i :: 0 <= i < |right| ==> right[i] < |q.points|
    requires multiset(Distances(q, a)) == multiset(Distances(q, left + right))
    ensures forall i :: 0 <= i < |a + [x]| ==> (a + [x])[i] < |q.points|
    ensures forall i :: 0 <= i < |left + [x] + right| ==> (left + [x] + right)[i] < |q.points|
    ensures multiset(Distances(q, a + [x])) == multiset(Distances(q, left + [x] + right))
  {
    DistancesConcat(q, a, [x]);
    DistancesAround(q, left, x, right);
  }

  lemma RemoveOne(a: seq<nat>, x: nat, left: seq<nat>, right: seq<nat>)
    requires multiset(a + [x]) == multiset(left + [x] + right)
    ensures multiset(a) == multiset(left + right)
  {
    assert multiset(a) == multiset(a + [x]) - multiset{x};
  }

  lemma DistancesAround(q: Query, left: seq<nat>, x: nat, right: seq<nat>)
    requires Shaped(q) && x < |q.points| && forall i :: 0 <= i < |left| ==> left[i] < |q.points|
    requires forall i :: 0 <= i < |right| ==> right[i] < |q.points|
    ensures forall i :: 0 <= i < |left + [x] + right| ==> (left + [x] + right)[i] < |q.points|
    ensures multiset(Distances(q, left + [x] + right)) == multiset(Distances(q, left + right)) + multiset{Dist(q, x)}
  {
    DistancesConcat(q, left, [x]);
    DistancesConcat(q, left + [x], right);
    DistancesConcat(q, left, right);
  }

  /** What the search returns has the distances of the first min(k, n) entries of the sorted list. */
  lemma KNearestIsFront(q: Query, r: seq<nat>, k: nat)
    requires Shaped(q) && KNearest(q, r, k)
    ensures |r| <= |Sort(Distances(q, Iota(|q.points|)))|
    ensures Distances(q, r) == Sort(Distances(q, Iota(|q.points|)))[..|r|]
  {
    var n := |q.points|;
    var others := Others(n, r);
    var all := Sort(Distances(q, Iota(n)));
    var rest := Sort(Distances(q, others));
    Complement(n, r);
    DistancesConcat(q, r, others);
    SameBag(q, r + others, Iota(n));
    SortSorts(Distances(q, Iota(n)));
    SortSorts(Distances(q, others));
    RestAbove(q, r, others, rest);
    SortedUnique(Distances(q, r) + rest, all);
  }

  lemma RestAbove(q: Query, r: seq<nat>, others: seq<nat>, rest: seq<real>)
    requires Shaped(q) && KNearest(q, r, |r|) && others == Others(|q.points|, r) && rest == Sort(Distances(q, others))
    ensures Ascending(Distances(q, r) + rest)
  {
    SortSorts(Distances(q, others));
    forall j | 0 <= j < |rest| ensures r != [] && rest[j] >= Dist(q, r[|r| - 1]) {
      assert rest[j] in multiset(rest);
      OtherAbove(q, r, others, rest[j]);
    }
    Append(Distances(q, r), rest);
  }

  lemma OtherAbove(q: Query, r: seq<nat>, others: seq<nat>, d: real)
    requires Shaped(q) && KNearest(q, r, |r|) && others == Others(|q.points|, r) && d in multiset(Distances(q, others))
    ensures r != [] && d >= Dist(q, r[|r| - 1])
  {
    assert d in Distances(q, others);
    var i :| 0 <= i < |others| && Distances(q, others)[i] == d;
  }

  lemma Append(a: seq<real>, b: seq<real>)
    requires Ascending(a) && Ascending(b)
    requires forall j :: 0 <= j < |b| ==> a != [] && b[j] >= a[|a| - 1]
    ensures Ascending(a + b)
  {
  }
}

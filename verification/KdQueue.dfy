/** The bounded priority queue of (distance, index) pairs, and what it keeps when it drops the rest. */
module KdQueue {
  import opened Common
  import opened KdTree

  type Entry = (real, nat)

  /** std::less on pairs. */
  predicate Less(a: Entry, b: Entry) {
    a.0 < b.0 || (a.0 == b.0 && a.1 < b.1)
  }

  ghost predicate Sorted(es: seq<Entry>) {
    forall i, j :: 0 <= i < j < |es| ==> !Less(es[j], es[i])
  }

  /** The first position whose entry is above val. */
  function Position(es: seq<Entry>, val: Entry, from: nat): (p: nat)
    requires from <= |es|
    ensures from <= p <= |es|
    ensures forall i :: from <= i < p ==> !Less(val, es[i])
    ensures p < |es| ==> Less(val, es[p])
    decreases |es| - from
  {
    if from == |es| || Less(val, es[from]) then from else Position(es, val, from + 1)
  }

  function Truncate(es: seq<Entry>, bound: nat): seq<Entry> {
    if |es| > bound then es[..bound] else es
  }

  function Pushed(es: seq<Entry>, val: Entry, bound: nat): seq<Entry> {
    var p := Position(es, val, 0);
    Truncate(es[..p] + [val] + es[p..], bound)
  }

  class BoundedPriorityQueue {
    const bound: nat
    var elements: seq<Entry>

    constructor (bound: nat)
      ensures this.bound == bound && elements == []
    {
      this.bound := bound;
      elements := [];
    }

    method Push(val: Entry)
      modifies this
      ensures elements == Pushed(old(elements), val, bound)
    {
      var it := 0;
      while it < |elements| && !Less(val, elements[it])
        invariant 0 <= it <= |elements| && Position(elements, val, it) == Position(elements, val, 0)
      {
        it := it + 1;
      }
      elements := elements[..it] + [val] + elements[it..];
      if |elements| > bound {
        elements := elements[..bound];
      }
    }
  }

  /** The indices in the queue. */
  function Seconds(es: seq<Entry>): multiset<nat> {
    if es == [] then multiset{} else Seconds(es[..|es| - 1]) + multiset{es[|es| - 1].1}
  }

  lemma SecondsLast(es: seq<Entry>, val: Entry)
    ensures Seconds(es + [val]) == Seconds(es) + multiset{val.1}
  {
    ConcatSplit(es, [val]);
  }

  lemma {:induction false} SecondsConcat(a: seq<Entry>, b: seq<Entry>)
    ensures Seconds(a + b) == Seconds(a) + Seconds(b)
  {
    if b == [] {
      assert a + b == a;
    } else {
      var front, last := b[..|b| - 1], b[|b| - 1];
      assert b == front + [last];
      SecondsConcat(a, front);
      Assoc(a, front, [last]);
      SecondsLast(a + front, last);
      SecondsLast(front, last);
    }
  }

  lemma {:induction false} SecondsCount(es: seq<Entry>)
    ensures |Seconds(es)| == |es|
  {
    if es != [] {
      SecondsCount(es[..|es| - 1]);
    }
  }

  /** Every entry carries its index's distance. */
  ghost predicate Truthful(q: Query, es: seq<Entry>)
    requires Shaped(q)
  {
    forall i :: 0 <= i < |es| ==> es[i].1 < |q.points| && es[i].0 == Dist(q, es[i].1)
  }

  /**
   The queue holds k of the bag's indices, or all when there are fewer, sorted, with their distances;
   what it dropped is no closer than its last entry.
   */
  ghost predicate HoldsNearest(q: Query, bag: multiset<nat>, es: seq<Entry>, k: nat)
    requires Shaped(q)
  {
    && Sorted(es) && Truthful(q, es) && Seconds(es) <= bag
    && |es| == (if |bag| < k then |bag| else k)
    && Dropped(q, bag - Seconds(es), es)
  }

  ghost predicate Dropped(q: Query, rest: multiset<nat>, es: seq<Entry>)
    requires Shaped(q)
  {
    forall i :: i in rest ==> i < |q.points| && es != [] && Dist(q, i) >= es[|es| - 1].0
  }

  lemma InsertSorted(es: seq<Entry>, val: Entry)
    requires Sorted(es)
    ensures var p := Position(es, val, 0); Sorted(es[..p] + [val] + es[p..])
  {
    var p := Position(es, val, 0);
    var r := es[..p] + [val] + es[p..];
    forall i, j | 0 <= i < j < |r| ensures !Less(r[j], r[i]) {
      if j < p {
        assert r[i] == es[i] && r[j] == es[j];
      } else if j == p {
        assert r[i] == es[i] && r[j] == val;
      } else if i < p {
        assert r[i] == es[i] && r[j] == es[j - 1];
      } else if i == p {
        assert r[j] == es[j - 1] && r[i] == val;
        assert !Less(es[j - 1], es[p]) || j - 1 == p;
      } else {
        assert r[i] == es[i - 1] && r[j] == es[j - 1];
      }
    }
  }

  lemma SecondsInsert(a: seq<Entry>, val: Entry, b: seq<Entry>)
    ensures Seconds(a + [val] + b) == Seconds(a) + multiset{val.1} + Seconds(b)
  {
    SecondsConcat(a + [val], b);
    assert (a + [val])[..|a|] == a;
  }

  lemma InsertSeconds(es: seq<Entry>, val: Entry, p: nat)
    requires p <= |es|
    ensures Seconds(es[..p] + [val] + es[p..]) == Seconds(es) + multiset{val.1}
  {
    SecondsInsert(es[..p], val, es[p..]);
    SecondsConcat(es[..p], es[p..]);
    CutAt(es, p, p);
  }

  lemma InsertTruthful(q: Query, es: seq<Entry>, i: nat, p: nat)
    requires Shaped(q) && Truthful(q, es) && i < |q.points| && p <= |es|
    ensures Truthful(q, es[..p] + [(Dist(q, i), i)] + es[p..])
  {
  }

  /** The queue with its new entry, before it is cut back. */
  lemma InsertHolds(q: Query, bag: multiset<nat>, es: seq<Entry>, k: nat, i: nat)
    requires Ok(q) && k >= 1 && HoldsNearest(q, bag, es, k) && i < |q.points|
    ensures var p := Position(es, (Dist(q, i), i), 0);
            var r := es[..p] + [(Dist(q, i), i)] + es[p..];
            Sorted(r) && Truthful(q, r) && Seconds(r) == Seconds(es) + multiset{i} && Dropped(q, bag - Seconds(es), r[..|r| - 1])
  {
    var val := (Dist(q, i), i);
    var p := Position(es, val, 0);
    InsertSorted(es, val);
    InsertSeconds(es, val, p);
    InsertTruthful(q, es, i, p);
  }

  lemma CutBag(bag: multiset<nat>, es: multiset<nat>, kept: multiset<nat>, last: nat, i: nat, j: nat)
    requires es <= bag && kept + multiset{last} == es + multiset{i} && j in bag + multiset{i} - kept && j !in bag - es
    ensures j == last
  {
    assert (kept + multiset{last})[j] == (es + multiset{i})[j];
  }

  lemma CutBelow(bag: multiset<nat>, es: multiset<nat>, kept: multiset<nat>, last: nat, i: nat)
    requires es <= bag && kept + multiset{last} == es + multiset{i}
    ensures kept <= bag + multiset{i}
  {
    assert kept <= es + multiset{i};
  }

  /** The entry cut off is no closer than those that stay. */
  lemma CutDropped(q: Query, bag: multiset<nat>, es: multiset<nat>, kept: seq<Entry>, last: Entry, i: nat)
    requires Ok(q) && es <= bag && Seconds(kept) + multiset{last.1} == es + multiset{i} && Dropped(q, bag - es, kept)
    requires kept != [] && !Less(last, kept[|kept| - 1]) && last.1 < |q.points| && last.0 == Dist(q, last.1)
    ensures Dropped(q, bag + multiset{i} - Seconds(kept), kept)
  {
    forall j | j in bag + multiset{i} - Seconds(kept) ensures j < |q.points| && Dist(q, j) >= kept[|kept| - 1].0 {
      if j !in bag - es {
        CutBag(bag, es, Seconds(kept), last.1, i, j);
      }
    }
  }

  lemma CutHolds(q: Query, bag: multiset<nat>, es: seq<Entry>, r: seq<Entry>, k: nat, i: nat)
    requires Ok(q) && k >= 1 && |es| == k <= |bag| && Seconds(es) <= bag
    requires |r| == k + 1 && Sorted(r) && Truthful(q, r) && Seconds(r) == Seconds(es) + multiset{i} && Dropped(q, bag - Seconds(es), r[..k])
    ensures HoldsNearest(q, bag + multiset{i}, r[..k], k)
  {
    CutSorted(q, r, k);
    CutSeconds(r, k);
    KeptHold(q, bag, es, r[..k], r[k], k, i);
  }

  /** A queue without its last entry. */
  lemma CutSorted(q: Query, r: seq<Entry>, k: nat)
    requires Shaped(q) && Sorted(r) && Truthful(q, r) && |r| == k + 1 && k >= 1
    ensures Sorted(r[..k]) && Truthful(q, r[..k]) && !Less(r[k], r[..k][k - 1])
    ensures r[k].1 < |q.points| && r[k].0 == Dist(q, r[k].1)
  {
  }

  lemma CutSeconds(r: seq<Entry>, k: nat)
    requires |r| == k + 1
    ensures Seconds(r) == Seconds(r[..k]) + multiset{r[k].1}
  {
    assert r == r[..k] + [r[k]];
    SecondsLast(r[..k], r[k]);
  }

  lemma KeptHold(q: Query, bag: multiset<nat>, es: seq<Entry>, kept: seq<Entry>, last: Entry, k: nat, i: nat)
    requires Ok(q) && k >= 1 && |kept| == k <= |bag| && Seconds(es) <= bag && Sorted(kept) && Truthful(q, kept)
    requires !Less(last, kept[k - 1]) && last.1 < |q.points| && last.0 == Dist(q, last.1)
    requires Seconds(kept) + multiset{last.1} == Seconds(es) + multiset{i} && Dropped(q, bag - Seconds(es), kept)
    ensures HoldsNearest(q, bag + multiset{i}, kept, k)
  {
    CutBelow(bag, Seconds(es), Seconds(kept), last.1, i);
    CutDropped(q, bag, Seconds(es), kept, last, i);
  }

  lemma RoomHolds(q: Query, bag: multiset<nat>, es: seq<Entry>, r: seq<Entry>, k: nat, i: nat)
    requires Ok(q) && HoldsNearest(q, bag, es, k) && |es| < k
    requires |r| == |es| + 1 && Sorted(r) && Truthful(q, r) && Seconds(r) == Seconds(es) + multiset{i}
    ensures HoldsNearest(q, bag + multiset{i}, r, k)
  {
    SecondsCount(es);
    assert |bag - Seconds(es)| == 0;
    assert bag + multiset{i} - Seconds(r) == bag - Seconds(es);
  }

  /** Pushing an index keeps the k nearest of the larger bag. */
  lemma PushHolds(q: Query, bag: multiset<nat>, es: seq<Entry>, k: nat, i: nat)
    requires Ok(q) && k >= 1 && HoldsNearest(q, bag, es, k) && i < |q.points|
    ensures HoldsNearest(q, bag + multiset{i}, Pushed(es, (Dist(q, i), i), k), k)
  {
    var val := (Dist(q, i), i);
    var p := Position(es, val, 0);
    var r := es[..p] + [val] + es[p..];
    InsertHolds(q, bag, es, k, i);
    if |es| < k {
      RoomHolds(q, bag, es, r, k, i);
    } else {
      CutHolds(q, bag, es, r, k, i);
    }
  }

  /** A full queue already holds the k nearest of a bag that is nowhere closer than its last entry. */
  lemma SkipHolds(q: Query, bag: multiset<nat>, other: multiset<nat>, diff: real, es: seq<Entry>, k: nat)
    requires Ok(q) && k >= 1 && HoldsNearest(q, bag, es, k) && |es| >= k && Far(q, other, diff) && diff >= es[|es| - 1].0
    ensures HoldsNearest(q, bag + other, es, k)
  {
    var rest := bag + other - Seconds(es);
    forall j | j in rest ensures j < |q.points| && Dist(q, j) >= es[|es| - 1].0 {
      assert j in other || j in bag - Seconds(es);
    }
  }
}

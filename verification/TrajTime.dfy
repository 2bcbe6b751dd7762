/**
 How long a profile takes: from rest in closed form, and when higher limits cannot make it longer.
 */
module TrajTime {
  import opened Reals
  import opened TrajProfile
  import opened TrajLoop
  import opened TrajMotion

  /** How long the profile takes. */
  function Time(L: Limits, d: real, v: real): real
    requires Positive(L) && d >= 0.0 && CanStop(L, d, v)
    decreases Left(L, d, v)
  {
    if Done(L, d, v) then 0.0
    else
      LeftNext(L, d, v);
      var seg := Choose(L, d, v);
      seg.duration + Time(L, NextDist(d, seg), NextVel(L, d, v))
  }

  lemma TimeNext(L: Limits, d: real, v: real, d2: real, v2: real)
    requires Positive(L) && d >= 0.0 && CanStop(L, d, v) && !Done(L, d, v) && Goes(L, d, v, d2, v2)
    ensures d2 >= 0.0 && CanStop(L, d2, v2) && Time(L, d, v) == Choose(L, d, v).duration + Time(L, d2, v2)
  {
    LeftNext(L, d, v);
  }

  lemma {:induction false} DurationCons(seg: Segment, segs: seq<Segment>)
    ensures Duration([seg] + segs) == seg.duration + Duration(segs)
  {
    if segs == [] {
      assert [seg] + segs == [seg];
      assert Duration([seg][..0]) == 0.0;
    } else {
      var front, last := segs[..|segs| - 1], segs[|segs| - 1];
      DurationCons(seg, front);
      assert ([seg] + segs)[..|[seg] + segs| - 1] == [seg] + front;
    }
  }

  lemma {:induction false} ProfileTime(L: Limits, d: real, v: real, pos: real)
    requires Positive(L) && d >= 0.0 && CanStop(L, d, v)
    ensures Duration(Profile(L, d, v, pos)) == Time(L, d, v)
    decreases Left(L, d, v)
  {
    if !Done(L, d, v) {
      LeftNext(L, d, v);
      var seg := Choose(L, d, v);
      var d2, v2 := NextDist(d, seg), NextVel(L, d, v);
      ProfileTime(L, d2, v2, pos + DistanceOf(seg));
      DurationCons(seg.(posStart := pos), Profile(L, d2, v2, pos + DistanceOf(seg)));
    }
  }

  // ----- the time of a profile from rest -----

  /** A speed limit above the tolerance, with any acceleration. */
  ghost predicate Swift(L: Limits) {
    Positive(L) && L.maxVel > L.eps
  }

  lemma TimeStop(L: Limits, d: real, v: real)
    requires Swift(L) && 0.0 <= v <= L.maxVel && 0.0 <= d <= Braking(L, v) + L.eps && !Done(L, d, v)
    ensures Time(L, d, v) == v / L.maxAcc
  {
    StepStop(L, d, v);
    TimeNext(L, d, v, Max(d - Braking(L, v), 0.0), 0.0);
  }

  lemma TimeFromLimit(L: Limits, d: real)
    requires Swift(L) && d >= 0.0
    ensures var V, A := L.maxVel, L.maxAcc;
            Time(L, d, V) == if d > Braking(L, V) + L.eps then (d / V - V / (2.0 * A)) + V / A else V / A
  {
    if d > Braking(L, L.maxVel) + L.eps {
      StepCruise(L, d);
      BrakingTimes(L, L.maxVel);
      TimeNext(L, d, L.maxVel, Braking(L, L.maxVel), L.maxVel);
      TimeStop(L, Braking(L, L.maxVel), L.maxVel);
    } else {
      TimeStop(L, d, L.maxVel);
    }
  }

  lemma AccelTime(L: Limits, d: real)
    requires L.maxAcc > 0.0
    ensures SolveCase21(L, d, 0.0).duration == Min(L.maxVel, Peak(L, d, 0.0)) / L.maxAcc
  {
    var V, w1, a := L.maxVel, Peak(L, d, 0.0), L.maxAcc;
    QuotientTimes(V, a);
    QuotientTimes(w1, a);
    CancelFactor(V / a, w1 / a, a);
    CancelFactor(w1 / a, V / a, a);
  }

  /** The distance cruised at the limit between a full ramp up and a full ramp down takes d/V - V/A. */
  lemma CruiseQuotient(L: Limits, d: real)
    requires L.maxAcc > 0.0 && L.maxVel > 0.0
    ensures var V, h := L.maxVel, L.maxVel / (2.0 * L.maxAcc);
            (d - Braking(L, V)) / V == d / V - h && V / L.maxAcc == 2.0 * h
  {
    var V, h := L.maxVel, L.maxVel / (2.0 * L.maxAcc);
    HalfBraking(L);
    QuotientTimes(d - Braking(L, V), V);
    QuotientTimes(d, V);
    CancelFactor((d - Braking(L, V)) / V, d / V - h, V);
    QuotientTimes(V, L.maxAcc);
    QuotientTimes(V, 2.0 * L.maxAcc);
    CancelFactor(V / L.maxAcc, 2.0 * h, L.maxAcc);
  }

  /** The four shapes a profile from rest can have when it ends at rest, and their times. */
  function RestTime(L: Limits, d: real): real
    requires Swift(L)
  {
    var V, A, w1 := L.maxVel, L.maxAcc, Peak(L, d, 0.0);
    if d <= L.eps then 0.0
    else if w1 > V then
      if d > 2.0 * Braking(L, V) + L.eps then d / V + V / A else 2.0 * (V / A)
    else if w1 > V - L.eps then w1 / A + V / A
    else 2.0 * (w1 / A)
  }

  lemma RestTimeIs(L: Limits, d: real)
    requires Swift(L) && d >= 0.0 && !Creeps(L, d, 0.0)
    ensures Time(L, d, 0.0) == RestTime(L, d)
  {
    var V, w1 := L.maxVel, Peak(L, d, 0.0);
    assert Braking(L, 0.0) == 0.0;
    if d > L.eps {
      StepAccel(L, d, 0.0);
      PeakBraking(L, d, 0.0);
      AccelTime(L, d);
      SnapFacts(L);
      BrakingTimes(L, w1);
      BrakingTimes(L, V);
      if w1 > V {
        CruiseQuotient(L, d);
        TimeNext(L, d, 0.0, d - Braking(L, V), V);
        TimeFromLimit(L, d - Braking(L, V));
      } else if w1 > V - L.eps {
        BrakingOrder(L, w1, V);
        TimeNext(L, d, 0.0, Braking(L, w1), V);
        TimeFromLimit(L, Braking(L, w1));
      } else {
        TimeNext(L, d, 0.0, Braking(L, w1), w1);
        TimeStop(L, Braking(L, w1), w1);
      }
    }
  }

  lemma CruiseNonNegative(L: Limits)
    requires Steady(L)
    ensures Time(L, Braking(L, L.maxVel), L.maxVel) >= 0.0
  {
    var B, V := Braking(L, L.maxVel), L.maxVel;
    BrakingTimes(L, V);
    if !Done(L, B, V) {
      StepStop(L, B, V);
      TimeNext(L, B, V, Max(B - B, 0.0), 0.0);
      QuotientTimes(V, L.maxAcc);
      PositiveFactor(V / L.maxAcc, L.maxAcc);
    }
  }

  /** Up to the limit, a cruise, and what is left from there. */
  lemma CruiseCounts(L: Limits, d: real)
    requires Steady(L) && d > 2.0 * Braking(L, L.maxVel) + L.eps
    ensures Time(L, d, 0.0) >= (d - 2.0 * Braking(L, L.maxVel)) / L.maxVel
  {
    var B, V := Braking(L, L.maxVel), L.maxVel;
    BrakingTimes(L, V);
    ReachesLimit(L, d);
    StepCruise(L, d - B);
    CruiseQuotient(L, d - B);
    TimeNext(L, d - B, V, B, V);
    CruiseNonNegative(L);
  }

  lemma ReachesLimit(L: Limits, d: real)
    requires Steady(L) && d > 2.0 * Braking(L, L.maxVel) + L.eps
    ensures Time(L, d, 0.0) >= Time(L, d - Braking(L, L.maxVel), L.maxVel)
  {
    var B, V, w := Braking(L, L.maxVel), L.maxVel, Peak(L, d, 0.0);
    assert Braking(L, 0.0) == 0.0;
    BrakingTimes(L, V);
    StepAccel(L, d, 0.0);
    PeakBraking(L, d, 0.0);
    BrakingOrder(L, w, V);
    AccelTime(L, d);
    TimeNext(L, d, 0.0, d - B, V);
    QuotientTimes(V, L.maxAcc);
    PositiveFactor(V / L.maxAcc, L.maxAcc);
  }

  /** A way long enough to cruise for that time takes that time. */
  lemma LongTime(L: Limits, d: real, t: real)
    requires Steady(L) && t >= 0.0 && d >= 2.0 * Braking(L, L.maxVel) + 2.0 * L.eps + t * L.maxVel
    ensures d >= 0.0 && Time(L, d, 0.0) >= t
  {
    BrakingTimes(L, L.maxVel);
    LeavesRoom(t, L.maxVel, d, 2.0 * Braking(L, L.maxVel), L.eps);
    CruiseCounts(L, d);
  }

  lemma LeavesRoom(t: real, v: real, d: real, ramps: real, eps: real)
    requires t >= 0.0 && v > 0.0 && eps > 0.0 && d >= ramps + 2.0 * eps + t * v
    ensures d > ramps + eps && (d - ramps) / v >= t
  {
    ProductMonotone(0.0, t, v);
    QuotientAtLeast(t, v, d - ramps);
  }

  // ----- faster limits never take longer -----

  /** Speed and acceleration limits raised by the same factor. */
  ghost predicate Scaled(L1: Limits, L2: Limits, c: real) {
    && Swift(L1) && Swift(L2) && c >= 1.0 && L1.eps == L2.eps && L1.sqrt == L2.sqrt
    && L2.maxVel == c * L1.maxVel && L2.maxAcc == c * L1.maxAcc
  }

  lemma DivideMonotone(x: real, y: real, a: real)
    requires a > 0.0 && x <= y
    ensures x / a <= y / a
  {
    QuotientTimes(x, a);
    QuotientTimes(y, a);
    CancelFactor(x / a, y / a, a);
  }

  lemma RampSame(L1: Limits, L2: Limits, c: real)
    requires Scaled(L1, L2, c)
    ensures L2.maxVel / L2.maxAcc == L1.maxVel / L1.maxAcc > 0.0
  {
    var r1, r2 := L1.maxVel / L1.maxAcc, L2.maxVel / L2.maxAcc;
    QuotientTimes(L1.maxVel, L1.maxAcc);
    QuotientTimes(L2.maxVel, L2.maxAcc);
    assert r1 * L2.maxAcc == c * (r1 * L1.maxAcc);
    CancelFactor(r1, r2, L2.maxAcc);
    PositiveFactor(r1, L1.maxAcc);
  }

  lemma PeakSquare(L: Limits, d: real)
    requires Positive(L) && d >= 0.0
    ensures Peak(L, d, 0.0) >= 0.0 && Peak(L, d, 0.0) * Peak(L, d, 0.0) == d * L.maxAcc
  {
    ProductMonotone(0.0, d, L.maxAcc);
  }

  lemma GrowsLess(w1: real, w2: real, c: real, d: real, a: real)
    requires w1 >= 0.0 && w2 >= 0.0 && c >= 1.0 && w1 * w1 == d * a && w2 * w2 == d * (c * a)
    ensures w2 <= c * w1
  {
    SquareNonNegative(w1);
    ProductMonotone(0.0, w1, c);
    ProductMonotone(1.0, c, w1 * w1);
    assert w2 * w2 == c * (w1 * w1);
    ProductMonotone(w1 * w1, c * (w1 * w1), c);
    assert (c * w1) * (c * w1) == c * (c * (w1 * w1));
    SquareOrder(w2, c * w1);
  }

  /** The peak grows by no more than the factor. */
  lemma PeakGrows(L1: Limits, L2: Limits, c: real, d: real)
    requires Scaled(L1, L2, c) && d >= 0.0
    ensures Peak(L2, d, 0.0) <= c * Peak(L1, d, 0.0)
  {
    PeakSquare(L1, d);
    PeakSquare(L2, d);
    GrowsLess(Peak(L1, d, 0.0), Peak(L2, d, 0.0), c, d, L1.maxAcc);
  }

  lemma QuotientsFall(w1: real, w2: real, a1: real, a2: real, c: real)
    requires c >= 1.0 && a1 > 0.0 && a2 > 0.0 && a2 == c * a1 && w2 <= c * w1
    ensures w2 / a2 <= w1 / a1
  {
    var x1, x2 := w1 / a1, w2 / a2;
    QuotientTimes(w1, a1);
    QuotientTimes(w2, a2);
    calc {
      x1 * a2;
      { Replace(x1, a2, c * a1); }
      x1 * (c * a1);
      c * (x1 * a1);
      { Replace(c, x1 * a1, w1); }
      c * w1;
    }
    CancelFactor(x2, x1, a2);
  }

  /** The time to the peak falls: it is w/A, and the peak grows by no more than A does. */
  lemma PeakTimeFalls(L1: Limits, L2: Limits, c: real, d: real)
    requires Scaled(L1, L2, c) && d >= 0.0
    ensures Peak(L2, d, 0.0) / L2.maxAcc <= Peak(L1, d, 0.0) / L1.maxAcc
  {
    PeakGrows(L1, L2, c, d);
    QuotientsFall(Peak(L1, d, 0.0), Peak(L2, d, 0.0), L1.maxAcc, L2.maxAcc, c);
  }

  lemma TwiceBraking(L: Limits)
    requires L.maxAcc > 0.0
    ensures 2.0 * Braking(L, L.maxVel) == (L.maxVel / L.maxAcc) * L.maxVel
  {
    HalfBraking(L);
    QuotientTimes(L.maxVel, L.maxAcc);
    QuotientTimes(L.maxVel, 2.0 * L.maxAcc);
    CancelFactor(L.maxVel / L.maxAcc, 2.0 * (L.maxVel / (2.0 * L.maxAcc)), L.maxAcc);
  }

  lemma QuotientAtLeast(r: real, v: real, d: real)
    requires v > 0.0 && r * v <= d
    ensures d / v >= r
  {
    QuotientTimes(d, v);
    CancelFactor(r, d / v, v);
  }

  /** How the peak compares with the limit, in distances and in times. */
  lemma PeakOrLimit(L: Limits, d: real)
    requires Swift(L) && d >= 0.0
    ensures var w, V, r := Peak(L, d, 0.0), L.maxVel, L.maxVel / L.maxAcc;
            && (w > V ==> d / V >= r)
            && (w <= V ==> w / L.maxAcc <= r)
  {
    var w, V, r := Peak(L, d, 0.0), L.maxVel, L.maxVel / L.maxAcc;
    PeakBraking(L, d, 0.0);
    assert Braking(L, 0.0) == 0.0;
    TwiceBraking(L);
    BrakingOrder(L, V, w);
    if w > V {
      QuotientAtLeast(r, V, d);
    } else {
      DivideMonotone(w, V, L.maxAcc);
    }
  }

  lemma QuotientFalls(d: real, v1: real, v2: real)
    requires d >= 0.0 && 0.0 < v1 <= v2
    ensures d / v2 <= d / v1
  {
    QuotientTimes(d, v1);
    QuotientTimes(d, v2);
    NonNegativeFactor(d / v1, v1);
    ProductMonotone(v1, v2, d / v1);
    CancelFactor(d / v2, d / v1, v2);
  }

  lemma LimitsGrow(L1: Limits, L2: Limits, c: real)
    requires Scaled(L1, L2, c)
    ensures 0.0 < L1.maxVel <= L2.maxVel
  {
    AtLeastItself(c, L1.maxVel, L2.maxVel);
  }

  lemma AtLeastItself(c: real, v: real, w: real)
    requires c >= 1.0 && v >= 0.0 && w == c * v
    ensures v <= w
  {
    ProductMonotone(1.0, c, v);
  }

  lemma CruiseFalls(L1: Limits, L2: Limits, c: real, d: real)
    requires Scaled(L1, L2, c) && d >= 0.0
    ensures d / L2.maxVel <= d / L1.maxVel
    ensures Braking(L1, L1.maxVel) <= Braking(L2, L2.maxVel)
  {
    LimitsGrow(L1, L2, c);
    QuotientFalls(d, L1.maxVel, L2.maxVel);
    BrakingGrows(L1, L2, c);
  }

  lemma BrakingGrows(L1: Limits, L2: Limits, c: real)
    requires Scaled(L1, L2, c) && L1.maxVel <= L2.maxVel
    ensures Braking(L1, L1.maxVel) <= Braking(L2, L2.maxVel)
  {
    RampSame(L1, L2, c);
    TwiceBraking(L1);
    TwiceBraking(L2);
    HalvesInOrder(Braking(L1, L1.maxVel), Braking(L2, L2.maxVel), L1.maxVel / L1.maxAcc, L1.maxVel, L2.maxVel);
  }

  lemma HalvesInOrder(b1: real, b2: real, r: real, v1: real, v2: real)
    requires r >= 0.0 && v1 <= v2 && 2.0 * b1 == r * v1 && 2.0 * b2 == r * v2
    ensures b1 <= b2
  {
    ProductMonotone(v1, v2, r);
  }

  lemma ClearGrows(w1: real, w2: real, v1: real, v2: real, c: real, gap: real)
    requires c >= 1.0 && w2 <= c * w1 && v2 == c * v1 && gap >= 0.0 && w1 <= v1 - gap
    ensures w2 <= v2 - gap
  {
    assert c * v1 - c * w1 == c * (v1 - w1);
    ProductMonotone(1.0, c, v1 - w1);
  }

  /** The distance of the peak from the limit grows as well, so a profile once clear of the limit stays so. */
  lemma PeakClear(L1: Limits, L2: Limits, c: real, d: real, gap: real)
    requires Scaled(L1, L2, c) && d >= 0.0 && gap >= 0.0 && Peak(L1, d, 0.0) <= L1.maxVel - gap
    ensures Peak(L2, d, 0.0) <= L2.maxVel - gap
  {
    PeakGrows(L1, L2, c, d);
    ClearGrows(Peak(L1, d, 0.0), Peak(L2, d, 0.0), L1.maxVel, L2.maxVel, c, gap);
  }

  lemma RestTimeFalls(L1: Limits, L2: Limits, c: real, d: real)
    requires Scaled(L1, L2, c) && d >= 0.0
    ensures RestTime(L2, d) <= RestTime(L1, d)
  {
    RampSame(L1, L2, c);
    PeakTimeFalls(L1, L2, c, d);
    if Peak(L1, d, 0.0) <= L1.maxVel {
      PeakClear(L1, L2, c, d, 0.0);
    }
    if Peak(L1, d, 0.0) <= L1.maxVel - L1.eps {
      PeakClear(L1, L2, c, d, L1.eps);
    }
    CruiseFalls(L1, L2, c, d);
    PeakOrLimit(L1, d);
    PeakOrLimit(L2, d);
  }

  // ----- a profile that creeps: peaks that count as rest, each half as far from the target -----

  /** 1 + h + h^2 + ..., one term for every halving that brings q down to two. */
  function Halvings(q: real, h: real): real
    decreases q
  {
    if q <= 2.0 then 1.0 else 1.0 + h * Halvings(q / 2.0, h)
  }

  /** The terms for a start at that distance: the peaks fall by the root of one half. */
  function Terms(L: Limits, d: real): real
    requires L.eps != 0.0
  {
    Halvings(d / L.eps, L.sqrt(0.5))
  }

  function CreepTime(L: Limits, d: real): real
    requires L.maxAcc > 0.0 && L.eps > 0.0
  {
    Product(Terms(L, d), Peak(L, d, 0.0) / L.maxAcc)
  }

  lemma HalfRoot(L: Limits)
    requires IsSqrt(L.sqrt)
    ensures var h := L.sqrt(0.5); h * h == 0.5 && 0.7 < h < 1.0
  {
    var h := L.sqrt(0.5);
    if h <= 0.7 {
      ProductMonotone(h, 0.7, h);
      ProductMonotone(h, 0.7, 0.7);
    }
    if h >= 1.0 {
      ProductMonotone(1.0, h, h);
    }
  }

  /** From half way the peak is lower by that root. */
  lemma PeakHalves(L: Limits, d: real)
    requires Positive(L) && d >= 0.0
    ensures Peak(L, d / 2.0, 0.0) == L.sqrt(0.5) * Peak(L, d, 0.0)
  {
    var h, w, u := L.sqrt(0.5), Peak(L, d, 0.0), Peak(L, d / 2.0, 0.0);
    HalfRoot(L);
    PeakSquare(L, d);
    PeakSquare(L, d / 2.0);
    ProductMonotone(0.0, h, w);
    assert (h * w) * (h * w) == (h * h) * (w * w);
    Replace(w * w, h * h, 0.5);
    SquareOrder(u, h * w);
    SquareOrder(h * w, u);
  }

  /** One turn of a creeping profile. */
  lemma CreepTurn(L: Limits, d: real)
    requires Swift(L) && Creeps(L, d, 0.0)
    ensures d > L.eps && (d / 2.0 > L.eps ==> Creeps(L, d / 2.0, 0.0))
    ensures Left(L, d / 2.0, 0.0) < Left(L, d, 0.0)
    ensures Time(L, d, 0.0) == Peak(L, d, 0.0) / L.maxAcc + if d / 2.0 <= L.eps then 0.0 else Time(L, d / 2.0, 0.0)
  {
    var w := Peak(L, d, 0.0);
    assert Braking(L, 0.0) == 0.0;
    PeakBraking(L, d, 0.0);
    AccelTime(L, d);
    if Weak(L, d, 0.0) {
      WeakPeak(L, d, 0.0);
      FinalNext(L, d, 0.0, d / 2.0, 0.0);
      TimeNext(L, d, 0.0, d / 2.0, 0.0);
      if d / 2.0 > L.eps {
        WeakAgain(L, w);
      }
    } else {
      StepAccel(L, d, 0.0);
      FinalNext(L, d, 0.0, d / 2.0, w);
      TimeNext(L, d, 0.0, d / 2.0, w);
      assert Done(L, d / 2.0, w) && Done(L, d / 2.0, 0.0);
      LeftIs(L, d / 2.0, 0.0, 0);
    }
  }

  lemma CreepTimeNext(L: Limits, d: real)
    requires Positive(L) && d > L.eps
    ensures CreepTime(L, d) == Peak(L, d, 0.0) / L.maxAcc + if d / 2.0 <= L.eps then 0.0 else CreepTime(L, d / 2.0)
  {
    var q, h, x := d / L.eps, L.sqrt(0.5), Peak(L, d, 0.0) / L.maxAcc;
    HalfQuotient(d, L.eps);
    if d / 2.0 > L.eps {
      PeakHalves(L, d);
      ShiftTerms(x, Peak(L, d, 0.0), h, L.maxAcc, Halvings(q / 2.0, h));
    }
  }

  /** The creeping time in closed form. */
  lemma {:induction false} CreepTimeIs(L: Limits, d: real)
    requires Swift(L) && Creeps(L, d, 0.0)
    ensures Time(L, d, 0.0) == CreepTime(L, d)
    decreases Left(L, d, 0.0)
  {
    CreepTurn(L, d);
    CreepTimeNext(L, d);
    if d / 2.0 > L.eps {
      CreepTimeIs(L, d / 2.0);
    }
  }

  lemma HalfQuotient(d: real, eps: real)
    requires eps > 0.0
    ensures d / 2.0 / eps == d / eps / 2.0 && (d / 2.0 > eps <==> d / eps > 2.0)
  {
    var q := d / eps;
    QuotientTimes(d, eps);
    QuotientTimes(d / 2.0, eps);
    CancelFactor(d / 2.0 / eps, q / 2.0, eps);
    CancelFactor(2.0, q, eps);
    CancelFactor(q, 2.0, eps);
    if d / 2.0 > eps && q <= 2.0 {
      ProductMonotone(q, 2.0, eps);
    }
    if q > 2.0 {
      ProductMonotone(2.0, q, eps);
    }
  }

  lemma ShiftTerms(x: real, w: real, h: real, a: real, s: real)
    requires a > 0.0 && x == w / a
    ensures x + s * ((h * w) / a) == (1.0 + h * s) * x
  {
    QuotientTimes(w, a);
    QuotientTimes(h * w, a);
    assert (h * x) * a == h * (x * a);
    Replace(h, x * a, w);
    CancelFactor((h * w) / a, h * x, a);
    assert s * (h * x) == (h * s) * x;
  }

  /** The time from rest in closed form, with any acceleration. */
  lemma TimeFromRest(L: Limits, d: real)
    requires Swift(L) && d >= 0.0
    ensures Time(L, d, 0.0) == if Creeps(L, d, 0.0) then CreepTime(L, d) else RestTime(L, d)
  {
    if Creeps(L, d, 0.0) {
      CreepTimeIs(L, d);
    } else {
      RestTimeIs(L, d);
    }
  }

  // ----- whether faster limits take longer -----

  /**
   What a caller can check about both limits raised by the factor c: nothing when both profiles creep
   or neither does; otherwise how the creeping one's sum of turns compares with the other's two ramps.
   */
  predicate NoLater(L1: Limits, L2: Limits, c: real, d: real)
    requires L1.maxAcc > 0.0 && L2.maxAcc > 0.0 && L1.eps > 0.0
  {
    var s := Terms(L1, d);
    if Creeps(L1, d, 0.0) && !Creeps(L2, d, 0.0) then Outweighs(c, s)
    else if Creeps(L2, d, 0.0) && !Creeps(L1, d, 0.0) then SumBelow(s, Peak(L1, d, 0.0), Peak(L2, d, 0.0), c, L2.maxVel)
    else true
  }

  /** The slower limits lose to two ramps at limits c times theirs. */
  predicate Outweighs(c: real, s: real) {
    c * (s * s) >= 4.0
  }

  /** The faster limits' turns take no longer than the slower ones' ramps to their peak and from their limit. */
  predicate SumBelow(s: real, w1: real, w2: real, c: real, v2: real) {
    s * w2 <= c * w1 + v2
  }

  lemma TermsAtLeast(q: real, h: real)
    requires 0.7 < h < 1.0
    ensures Halvings(q, h) >= 1.0 && (q > 2.0 ==> Halvings(q, h) >= 1.0 + h) && (q > 4.0 ==> Halvings(q, h) > 2.0)
    decreases q
  {
    if q > 2.0 {
      TermsAtLeast(q / 2.0, h);
      ProductMonotone(1.0, Halvings(q / 2.0, h), h);
      if q > 4.0 {
        ProductMonotone(1.0 + h, Halvings(q / 2.0, h), h);
        ProductMonotone(0.7, h, h);
      }
    }
  }

  /** The first condition, spelt out: far away nothing, nearer a factor of 4/(1+h)^2, at the last turn a factor of four. */
  lemma CreepGuard(L: Limits, c: real, d: real)
    requires Positive(L) && c >= 1.0 && d > L.eps
    ensures var q, s, h := d / L.eps, Terms(L, d), L.sqrt(0.5);
            Outweighs(c, s) <==> q > 4.0 || (q > 2.0 && c * ((1.0 + h) * (1.0 + h)) >= 4.0) || c >= 4.0
  {
    var q, s, h := d / L.eps, Terms(L, d), L.sqrt(0.5);
    HalfRoot(L);
    TermsAtLeast(q, h);
    if q > 4.0 {
      ProductMonotone(2.0, s, s);
      ProductMonotone(1.0, c, s * s);
    } else if q > 2.0 {
      assert s == 1.0 + h * Halvings(q / 2.0, h) == 1.0 + h;
      ProductMonotone(1.0, s, s);
      ProductMonotone(1.0, s * s, c);
    }
  }

  predicate SquaresBy(x: real, y: real, c: real) {
    x > 0.0 && y > 0.0 && x * x == c * (y * y)
  }

  lemma PeakRoots(L1: Limits, L2: Limits, c: real, d: real)
    requires Scaled(L1, L2, c) && d > 0.0
    ensures var x, y := Peak(L1, d, 0.0) / L1.maxAcc, Peak(L2, d, 0.0) / L2.maxAcc;
            SquaresBy(x, y, c)
  {
    var x := PeakTime(L1, d);
    var y := PeakTime(L2, d);
    var A := L1.maxAcc;
    assert (x * x) * A == d && (y * y) * (c * A) == d;
    assert (c * (y * y)) * A == (y * y) * (c * A);
    CancelFactor(x * x, c * (y * y), A);
  }

  /** The time to the peak, squared, is distance over acceleration. */
  lemma PeakTime(L: Limits, d: real) returns (x: real)
    requires Positive(L) && d > 0.0
    ensures x == Peak(L, d, 0.0) / L.maxAcc && x > 0.0 && (x * x) * L.maxAcc == d
  {
    var w, a := Peak(L, d, 0.0), L.maxAcc;
    x := w / a;
    PeakSquare(L, d);
    QuotientTimes(w, a);
    PositiveProduct(d, a);
    assert w > 0.0;
    PositiveFactor(x, a);
    assert ((x * x) * a) * a == (x * a) * (x * a);
    CancelFactor((x * x) * a, d, a);
  }

  lemma CreepsFirst(x: real, y: real, s: real, c: real)
    requires SquaresBy(x, y, c) && s >= 1.0
    ensures 2.0 * y <= Product(s, x) <==> Outweighs(c, s)
  {
    PositiveProduct(s, x);
    PositiveProduct(y, y);
    assert (s * x) * (s * x) == (s * s) * (x * x);
    Replace(s * s, x * x, c * (y * y));
    assert (s * s) * (c * (y * y)) == (c * (s * s)) * (y * y);
    assert (2.0 * y) * (2.0 * y) == 4.0 * (y * y);
    if 2.0 * y <= s * x {
      ProductMonotone(2.0 * y, s * x, 2.0 * y);
      ProductMonotone(2.0 * y, s * x, s * x);
      CancelFactor(4.0, c * (s * s), y * y);
    }
    if c * (s * s) >= 4.0 {
      ProductMonotone(4.0, c * (s * s), y * y);
      SquareOrder(2.0 * y, s * x);
    }
  }

  lemma TermsPositive(L: Limits, d: real)
    requires Positive(L)
    ensures Terms(L, d) >= 1.0
  {
    HalfRoot(L);
    TermsAtLeast(d / L.eps, L.sqrt(0.5));
  }

  /** Faster limits then have a peak clear of theirs: two ramps. */
  lemma RampParts(L1: Limits, L2: Limits, c: real, d: real)
    requires Scaled(L1, L2, c) && Creeps(L1, d, 0.0) && !Creeps(L2, d, 0.0)
    ensures d > 0.0 && Time(L2, d, 0.0) == 2.0 * (Peak(L2, d, 0.0) / L2.maxAcc)
  {
    assert Braking(L1, 0.0) == 0.0;
    PeakClear(L1, L2, c, d, L1.eps);
    RestTimeIs(L2, d);
  }

  /** The slower limits creep, the faster ones do not. */
  lemma SlowerCreeps(L1: Limits, L2: Limits, c: real, d: real)
    requires Scaled(L1, L2, c) && Creeps(L1, d, 0.0) && !Creeps(L2, d, 0.0)
    ensures Time(L2, d, 0.0) <= Time(L1, d, 0.0) <==> Outweighs(c, Terms(L1, d))
  {
    CreepTimeIs(L1, d);
    TermsPositive(L1, d);
    RampParts(L1, L2, c, d);
    PeakRoots(L1, L2, c, d);
    CreepsFirst(Peak(L1, d, 0.0) / L1.maxAcc, Peak(L2, d, 0.0) / L2.maxAcc, Terms(L1, d), c);
  }

  /** Only limits whose peak is snapped onto them are overtaken by ones that creep. */
  lemma PeakSnapped(L1: Limits, L2: Limits, c: real, d: real)
    requires Scaled(L1, L2, c) && Creeps(L2, d, 0.0) && !Creeps(L1, d, 0.0)
    ensures L1.maxVel - L1.eps < Peak(L1, d, 0.0) < L1.maxVel && d > L1.eps
  {
    var w1, w2 := Peak(L1, d, 0.0), Peak(L2, d, 0.0);
    assert Braking(L1, 0.0) == 0.0 && Braking(L2, 0.0) == 0.0;
    PeakSquare(L1, d);
    PeakSquare(L2, d);
    PeakBraking(L1, d, 0.0);
    PeakBraking(L2, d, 0.0);
    AtLeastItself(c, d * L1.maxAcc, w2 * w2);
    SquareOrder(w1, w2);
  }

  lemma SnappedTime(L1: Limits, L2: Limits, c: real, d: real)
    requires Scaled(L1, L2, c) && Creeps(L2, d, 0.0) && !Creeps(L1, d, 0.0)
    ensures Time(L1, d, 0.0) == Peak(L1, d, 0.0) / L1.maxAcc + L1.maxVel / L1.maxAcc && d > 0.0
  {
    PeakSnapped(L1, L2, c, d);
    RestTimeIs(L1, d);
  }

  lemma SumOver(s: real, w1: real, w2: real, v1: real, v2: real, a1: real, a2: real, c: real)
    requires c >= 1.0 && a1 > 0.0 && a2 == c * a1 && a2 > 0.0 && v2 == c * v1
    ensures Product(s, w2 / a2) <= w1 / a1 + v1 / a1 <==> SumBelow(s, w1, w2, c, v2)
  {
    var y, x, r := w2 / a2, w1 / a1, v1 / a1;
    QuotientTimes(w2, a2);
    QuotientTimes(w1, a1);
    QuotientTimes(v1, a1);
    assert (s * y) * a2 == s * (y * a2);
    Replace(s, y * a2, w2);
    calc {
      (x + r) * a2;
      { Replace(x + r, a2, c * a1); }
      (x + r) * (c * a1);
      c * (x * a1) + c * (r * a1);
      { Replace(c, x * a1, w1); Replace(c, r * a1, v1); }
      c * w1 + v2;
    }
    CancelFactor(s * y, x + r, a2);
    if s * y <= x + r {
      ProductMonotone(s * y, x + r, a2);
    }
  }

  lemma FasterSums(L1: Limits, L2: Limits, c: real, d: real)
    requires Scaled(L1, L2, c)
    ensures CreepTime(L2, d) <= Peak(L1, d, 0.0) / L1.maxAcc + L1.maxVel / L1.maxAcc <==>
            SumBelow(Terms(L1, d), Peak(L1, d, 0.0), Peak(L2, d, 0.0), c, L2.maxVel)
  {
    assert Terms(L1, d) == Terms(L2, d);
    SumOver(Terms(L1, d), Peak(L1, d, 0.0), Peak(L2, d, 0.0), L1.maxVel, L2.maxVel, L1.maxAcc, L2.maxAcc, c);
  }

  /** The faster limits creep, the slower ones do not. */
  lemma FasterCreeps(L1: Limits, L2: Limits, c: real, d: real)
    requires Scaled(L1, L2, c) && Creeps(L2, d, 0.0) && !Creeps(L1, d, 0.0)
    ensures Time(L2, d, 0.0) <= Time(L1, d, 0.0) <==> SumBelow(Terms(L1, d), Peak(L1, d, 0.0), Peak(L2, d, 0.0), c, L2.maxVel)
  {
    CreepTimeIs(L2, d);
    SnappedTime(L1, L2, c, d);
    FasterSums(L1, L2, c, d);
  }

  lemma ProductGrows(s: real, x: real, y: real)
    requires s >= 0.0 && x <= y
    ensures Product(s, x) <= Product(s, y)
  {
    ProductMonotone(x, y, s);
  }

  lemma CreepFalls(L1: Limits, L2: Limits, c: real, d: real)
    requires Scaled(L1, L2, c) && d >= 0.0
    ensures CreepTime(L2, d) <= CreepTime(L1, d)
  {
    assert Terms(L1, d) == Terms(L2, d);
    TermsPositive(L1, d);
    PeakTimeFalls(L1, L2, c, d);
    ProductGrows(Terms(L1, d), Peak(L2, d, 0.0) / L2.maxAcc, Peak(L1, d, 0.0) / L1.maxAcc);
  }

  lemma BothCreep(L1: Limits, L2: Limits, c: real, d: real)
    requires Scaled(L1, L2, c) && Creeps(L1, d, 0.0) && Creeps(L2, d, 0.0)
    ensures Time(L2, d, 0.0) <= Time(L1, d, 0.0)
  {
    CreepTimeIs(L1, d);
    CreepTimeIs(L2, d);
    CreepTurn(L1, d);
    CreepFalls(L1, L2, c, d);
  }

  /** From rest, exactly when higher limits (both by the same factor) do not take longer. */
  lemma FasterIff(L1: Limits, L2: Limits, c: real, d: real)
    requires Scaled(L1, L2, c) && d >= 0.0
    ensures Time(L2, d, 0.0) <= Time(L1, d, 0.0) <==> NoLater(L1, L2, c, d)
  {
    if Creeps(L1, d, 0.0) && Creeps(L2, d, 0.0) {
      BothCreep(L1, L2, c, d);
    } else if Creeps(L1, d, 0.0) {
      SlowerCreeps(L1, L2, c, d);
    } else if Creeps(L2, d, 0.0) {
      FasterCreeps(L1, L2, c, d);
    } else {
      NeitherCreeps(L1, L2, c, d);
    }
  }

  lemma NeitherCreeps(L1: Limits, L2: Limits, c: real, d: real)
    requires Scaled(L1, L2, c) && d >= 0.0 && !Creeps(L1, d, 0.0) && !Creeps(L2, d, 0.0)
    ensures Time(L2, d, 0.0) <= Time(L1, d, 0.0)
  {
    RestTimeIs(L1, d);
    RestTimeIs(L2, d);
    RestTimeFalls(L1, L2, c, d);
  }

  /** With accelerations above the tolerance nothing creeps, and higher limits never take longer. */
  lemma FasterNeverLater(L1: Limits, L2: Limits, c: real, d: real)
    requires Scaled(L1, L2, c) && d >= 0.0 && (Ok(L1) || (Creeps(L1, d, 0.0) <==> Creeps(L2, d, 0.0)))
    ensures NoLater(L1, L2, c, d) && Time(L2, d, 0.0) <= Time(L1, d, 0.0)
  {
    if Ok(L1) {
      AtLeastItself(c, L1.maxAcc, L2.maxAcc);
      OkNeverCreeps(L1, d);
      OkNeverCreeps(L2, d);
    }
    FasterIff(L1, L2, c, d);
  }

  lemma OkNeverCreeps(L: Limits, d: real)
    requires Ok(L) && d >= 0.0
    ensures !Creeps(L, d, 0.0)
  {
    assert Braking(L, 0.0) == 0.0;
    if d > L.eps {
      PeakAboveEps(L, d, 0.0);
    }
  }

  /** With an acceleration below the tolerance faster limits can take longer: the weaker peak counts as arriving. */
  lemma FasterLater(sqrt: real -> real)
    requires IsSqrt(sqrt)
    ensures var L1, L2 := Limits(10.0, 0.32, 1.0, sqrt), Limits(22.5, 0.72, 1.0, sqrt);
            && Steady(L1) && Steady(L2) && L2.maxVel == 2.25 * L1.maxVel && L2.maxAcc == 2.25 * L1.maxAcc
            && Time(L1, 2.0, 0.0) == 2.5 && Time(L2, 2.0, 0.0) > 3.3
  {
    var L1, L2 := Limits(10.0, 0.32, 1.0, sqrt), Limits(22.5, 0.72, 1.0, sqrt);
    SqrtOfSquare(sqrt, 0.8);
    SqrtOfSquare(sqrt, 1.2);
    assert Peak(L1, 2.0, 0.0) == 0.8 && Peak(L2, 2.0, 0.0) == 1.2;
    assert Braking(L1, 0.0) == 0.0 && Braking(L2, 0.0) == 0.0 && Braking(L1, 0.8) == 1.0 && Braking(L2, 1.2) == 1.0;
    AccelTime(L1, 2.0);
    WeakPeak(L1, 2.0, 0.0);
    TimeNext(L1, 2.0, 0.0, 1.0, 0.0);
    AccelTime(L2, 2.0);
    StepAccel(L2, 2.0, 0.0);
    SnapFacts(L2);
    TimeNext(L2, 2.0, 0.0, 1.0, 1.2);
    StepStop(L2, 1.0, 1.2);
    TimeNext(L2, 1.0, 1.2, 0.0, 0.0);
  }

  lemma TermsDouble(q: real, h: real, least: real)
    requires h > 0.7 && q > 2.0 && least >= 0.0 && Halvings(q / 2.0, h) >= least
    ensures Halvings(q, h) >= 1.0 + 0.7 * least
  {
    var t := Halvings(q / 2.0, h);
    assert Halvings(q, h) == 1.0 + h * t;
    AtLeastBoth(h, t, least);
  }

  lemma AtLeastBoth(h: real, t: real, least: real)
    requires h > 0.7 && least >= 0.0 && t >= least
    ensures h * t >= 0.7 * least
  {
    ProductMonotone(0.7, h, least);
    ProductMonotone(least, t, h);
  }

  /** The other way round: at 1.21 times these limits the peak no longer snaps onto the limit, and ten turns take longer. */
  lemma FasterLaterCreeping(sqrt: real -> real)
    requires IsSqrt(sqrt)
    ensures var L1, L2 := Limits(1.65, 0.81 / 1024.0, 1.0, sqrt), Limits(1.9965, 0.9801 / 1024.0, 1.0, sqrt);
            && Scaled(L1, L2, 1.21) && !Creeps(L1, 1024.0, 0.0) && Creeps(L2, 1024.0, 0.0)
            && Time(L2, 1024.0, 0.0) > Time(L1, 1024.0, 0.0)
  {
    var L1, L2, h := Limits(1.65, 0.81 / 1024.0, 1.0, sqrt), Limits(1.9965, 0.9801 / 1024.0, 1.0, sqrt), sqrt(0.5);
    SqrtOfSquare(sqrt, 0.9);
    SqrtOfSquare(sqrt, 0.99);
    assert Peak(L1, 1024.0, 0.0) == 0.9 && Peak(L2, 1024.0, 0.0) == 0.99;
    assert Braking(L1, 0.0) == 0.0 && Braking(L2, 0.0) == 0.0;
    HalfRoot(L1);
    TermsDouble(4.0, h, 1.0);
    TermsDouble(8.0, h, 1.7);
    TermsDouble(16.0, h, 2.19);
    TermsDouble(32.0, h, 2.53);
    TermsDouble(64.0, h, 2.77);
    TermsDouble(128.0, h, 2.93);
    TermsDouble(256.0, h, 3.05);
    TermsDouble(512.0, h, 3.13);
    TermsDouble(1024.0, h, 3.19);
    assert Terms(L1, 1024.0) >= 3.2;
    FasterIff(L1, L2, 1.21, 1024.0);
  }
}

/**
 The solver's loop: when it ends, the profile it leaves, where that lands and whether at rest.
 The counter that should stop a run-away loop never moves, so the loop has to end by itself.
 */
module TrajLoop {
  import opened Reals
  import opened TrajProfile

  // ----- when the loop ends -----

  /** The loop ends within n turns. */
  ghost predicate StopsIn(L: Limits, d: real, v: real, n: nat)
    requires L.maxAcc > 0.0 && L.maxVel > 0.0
    decreases n
  {
    Done(L, d, v) || (n > 0 && StopsIn(L, NextDist(d, Choose(L, d, v)), NextVel(L, d, v), n - 1))
  }

  function NextVel(L: Limits, d: real, v: real): real
    requires L.maxAcc > 0.0 && L.maxVel > 0.0
  {
    Snap(L, VelocityAtEnd(Choose(L, d, v)))
  }

  ghost predicate Stops(L: Limits, d: real, v: real)
    requires L.maxAcc > 0.0 && L.maxVel > 0.0
  {
    exists n: nat :: StopsIn(L, d, v, n)
  }

  /** What a caller can check: a limit the tolerance does not swallow, nothing to do, or one segment that suffices. */
  predicate CanStop(L: Limits, d: real, v: real)
    requires L.maxAcc > 0.0 && L.maxVel > 0.0
  {
    L.maxVel >= L.eps || Done(L, d, v) || OneSuffices(L, d, v)
  }

  /** Turning round, slowing to the limit, braking or cruising leaves no more than the tolerance. */
  predicate OneSuffices(L: Limits, d: real, v: real)
    requires L.maxAcc > 0.0 && L.maxVel > 0.0
  {
    if v < 0.0 then d + Braking(L, v) <= L.eps
    else if v > L.maxVel then d - (Braking(L, v) - Braking(L, L.maxVel)) <= L.eps
    else d <= Braking(L, v) + L.eps || d - DistanceOf(SolveCase22(L, d, v)) <= L.eps
  }

  /** Those are the segments a limit below the tolerance leaves to choose from. */
  lemma OneTurn(L: Limits, d: real, v: real)
    requires Positive(L) && L.maxVel < L.eps && d >= 0.0
    ensures OneSuffices(L, d, v) <==> NextDist(d, Choose(L, d, v)) <= L.eps
  {
    BrakingTimes(L, v);
    if v < 0.0 {
      Case1(L, v);
    } else if v > L.maxVel {
      Case3(L, v);
    } else if d <= Braking(L, v) + L.eps {
      Case23(L, v);
    } else {
      assert Choose(L, d, v) == SolveCase22(L, d, v);
    }
  }

  lemma StopsAfter(L: Limits, d: real, v: real, d2: real, v2: real)
    requires L.maxAcc > 0.0 && L.maxVel > 0.0 && Goes(L, d, v, d2, v2) && Stops(L, d2, v2)
    ensures Stops(L, d, v)
  {
    var n: nat :| StopsIn(L, d2, v2, n);
    assert StopsIn(L, d, v, n + 1);
  }

  lemma StopsNow(L: Limits, d: real, v: real)
    requires L.maxAcc > 0.0 && L.maxVel > 0.0 && Done(L, d, v)
    ensures Stops(L, d, v)
  {
    assert StopsIn(L, d, v, 0);
  }

  lemma StopsBraking(L: Limits, d: real, v: real)
    requires Steady(L) && 0.0 <= v <= L.maxVel && 0.0 <= d <= Braking(L, v) + L.eps
    ensures Stops(L, d, v)
  {
    StepStop(L, d, v);
    StopsNow(L, Max(d - Braking(L, v), 0.0), 0.0);
    StopsAfter(L, d, v, Max(d - Braking(L, v), 0.0), 0.0);
  }

  lemma StopsAtLimit(L: Limits, d: real)
    requires Steady(L) && d >= 0.0
    ensures Stops(L, d, L.maxVel)
  {
    var B := Braking(L, L.maxVel);
    if d <= B + L.eps {
      StopsBraking(L, d, L.maxVel);
    } else {
      StepCruise(L, d);
      BrakingTimes(L, L.maxVel);
      StopsBraking(L, B, L.maxVel);
      StopsAfter(L, d, L.maxVel, B, L.maxVel);
    }
  }

  /** Where a peak the tolerance takes for rest leads: half the way on, at a standstill. */
  lemma WeakPeak(L: Limits, d: real, v: real)
    requires Steady(L) && Weak(L, d, v)
    ensures var w1 := Peak(L, d, v);
            && Choose(L, d, v) == SolveCase21(L, d, v) && VelocityAtEnd(Choose(L, d, v)) == w1 > 0.0
            && 2.0 * Braking(L, w1) == d + Braking(L, v) && Goes(L, d, v, Braking(L, w1), 0.0)
  {
    StepAccel(L, d, v);
    Case21(L, d, v);
    BrakingTimes(L, v);
    PeakBraking(L, d, v);
  }

  /** Accelerating from v with a peak below the tolerance. */
  predicate Weak(L: Limits, d: real, v: real)
    requires L.maxAcc > 0.0
  {
    0.0 <= v <= L.maxVel - L.eps && d > Braking(L, v) + L.eps && Peak(L, d, v) < L.eps && Peak(L, d, v) <= L.maxVel - L.eps
  }

  /** Any other peak is followed by a way to the limit or by braking. */
  lemma StopsStrong(L: Limits, d: real, v: real)
    requires Steady(L) && 0.0 <= v <= L.maxVel - L.eps && d > Braking(L, v) + L.eps && !Weak(L, d, v)
    ensures Stops(L, d, v)
  {
    var w1, V := Peak(L, d, v), L.maxVel;
    BrakingTimes(L, w1);
    StepAccel(L, d, v);
    SnapFacts(L);
    if w1 > V {
      BrakingTimes(L, V);
      StopsAtLimit(L, d + Braking(L, v) - Braking(L, V));
      StopsAfter(L, d, v, d + Braking(L, v) - Braking(L, V), V);
    } else if w1 > V - L.eps {
      StopsAtLimit(L, Braking(L, w1));
      StopsAfter(L, d, v, Braking(L, w1), V);
    } else {
      StopsBraking(L, Braking(L, w1), w1);
      StopsAfter(L, d, v, Braking(L, w1), w1);
    }
  }

  /** Each weak peak brings the target at least half a tolerance nearer. */
  lemma {:induction false} StopsAccelerating(L: Limits, d: real, v: real, k: nat)
    requires Steady(L) && 0.0 <= v <= L.maxVel - L.eps && d > Braking(L, v) + L.eps && d <= Gain(L.eps, k)
    ensures Stops(L, d, v)
    decreases k
  {
    if Weak(L, d, v) {
      var d2 := Braking(L, Peak(L, d, v));
      WeakPeak(L, d, v);
      BrakingTimes(L, Peak(L, d, v));
      assert Braking(L, 0.0) == 0.0;
      if d2 <= L.eps {
        StopsNow(L, d2, 0.0);
      } else {
        assert d2 < d - L.eps / 2.0;
        StopsAccelerating(L, d2, 0.0, k - 1);
      }
      StopsAfter(L, d, v, d2, 0.0);
    } else {
      StopsStrong(L, d, v);
    }
  }

  /** The reach of k turns that each gain half a tolerance. */
  ghost function Gain(eps: real, k: nat): real {
    if k == 0 then 0.0 else Gain(eps, k - 1) + eps / 2.0
  }

  lemma {:induction false} GainIs(eps: real, k: nat)
    ensures Gain(eps, k) == (eps / 2.0) * k as real
  {
    if k > 0 {
      GainIs(eps, k - 1);
      DistributePlus(eps / 2.0, (k - 1) as real, 1.0);
    }
  }

  lemma EnoughTurns(d: real, eps: real) returns (k: nat)
    requires d >= 0.0 && eps > 0.0
    ensures d <= Gain(eps, k)
  {
    var half := eps / 2.0;
    var q := d / half;
    QuotientTimes(d, half);
    NonNegativeFactor(q, half);
    k := q.Floor + 1;
    ProductMonotone(q, k as real, half);
    GainIs(eps, k);
  }

  lemma StopsForward(L: Limits, d: real, v: real)
    requires Steady(L) && d >= 0.0 && 0.0 <= v <= L.maxVel
    ensures Stops(L, d, v)
  {
    if d <= Braking(L, v) + L.eps {
      StopsBraking(L, d, v);
    } else if v == L.maxVel {
      StopsAtLimit(L, d);
    } else if v > L.maxVel - L.eps {
      StepNear(L, d, v);
      Case22Below(L, d, v);
      var d2 := d - DistanceOf(SolveCase22(L, d, v));
      StopsAtLimit(L, d2);
      StopsAfter(L, d, v, d2, L.maxVel);
    } else {
      var k := EnoughTurns(d, L.eps);
      StopsAccelerating(L, d, v, k);
    }
  }

  lemma StopsSteady(L: Limits, d: real, v: real)
    requires Steady(L) && d >= 0.0
    ensures Stops(L, d, v)
  {
    if v < 0.0 {
      StepBack(L, d, v);
      BrakingTimes(L, v);
      StopsForward(L, d + Braking(L, v), 0.0);
      StopsAfter(L, d, v, d + Braking(L, v), 0.0);
    } else if v > L.maxVel {
      var d2 := Max(d - (Braking(L, v) - Braking(L, L.maxVel)), 0.0);
      StepSlow(L, d, v);
      StopsAtLimit(L, d2);
      StopsAfter(L, d, v, d2, L.maxVel);
    } else {
      StopsForward(L, d, v);
    }
  }

  /** With a limit below the tolerance every segment ends at what counts as rest. */
  lemma SlowLimitsRest(L: Limits, d: real, v: real)
    requires Positive(L) && L.maxVel < L.eps && d >= 0.0
    ensures NextVel(L, d, v) == 0.0
  {
    if v < 0.0 {
      Case1(L, v);
    } else if v > L.maxVel {
      Case3(L, v);
    } else if d <= Braking(L, v) + L.eps {
      Case23(L, v);
    }
  }

  /** Below the tolerance the solver turns in place for ever: a resting robot stays where it is. */
  lemma SlowLimitsLoop(L: Limits, d: real)
    requires L.maxAcc > 0.0 && 0.0 < L.maxVel < L.eps && d > L.eps
    ensures !Done(L, d, 0.0)
    ensures var seg := Choose(L, d, 0.0); NextDist(d, seg) == d && Snap(L, VelocityAtEnd(seg)) == 0.0
  {
    assert Braking(L, 0.0) == 0.0;
    assert DistanceOf(SolveCase22(L, d, 0.0)) == 0.0;
  }

  lemma {:induction false} NeverStops(L: Limits, d: real, n: nat)
    requires Positive(L) && L.maxVel < L.eps && d > L.eps
    ensures !StopsIn(L, d, 0.0, n)
  {
    SlowLimitsLoop(L, d);
    if n > 0 {
      NeverStops(L, d, n - 1);
    }
  }

  /** Exactly when the solver's loop ends, for all limits, distances and velocities. */
  lemma StopsIff(L: Limits, d: real, v: real)
    requires Positive(L) && d >= 0.0
    ensures Stops(L, d, v) <==> CanStop(L, d, v)
  {
    if L.maxVel >= L.eps {
      StopsSteady(L, d, v);
    } else if Done(L, d, v) {
      StopsNow(L, d, v);
    } else {
      var d2 := NextDist(d, Choose(L, d, v));
      SlowLimitsRest(L, d, v);
      OneTurn(L, d, v);
      if d2 <= L.eps {
        StopsNow(L, d2, 0.0);
        StopsAfter(L, d, v, d2, 0.0);
      } else if Stops(L, d, v) {
        var n: nat :| StopsIn(L, d, v, n);
        NeverStops(L, d2, n - 1);
      }
    }
  }

  /** From rest and not there yet, only the speed limit matters. */
  lemma RestCanStop(L: Limits, d: real)
    requires L.maxAcc > 0.0 && L.maxVel > 0.0 && d > L.eps
    ensures CanStop(L, d, 0.0) <==> L.maxVel >= L.eps
  {
    assert Braking(L, 0.0) == 0.0;
    assert DistanceOf(SolveCase22(L, d, 0.0)) == 0.0;
  }

  // ----- how many turns there are -----

  ghost function FirstIn(L: Limits, d: real, v: real, n: nat): nat
    requires L.maxAcc > 0.0 && L.maxVel > 0.0 && StopsIn(L, d, v, n)
    decreases n
  {
    if Done(L, d, v) then 0 else 1 + FirstIn(L, NextDist(d, Choose(L, d, v)), NextVel(L, d, v), n - 1)
  }

  lemma {:induction false} FirstSame(L: Limits, d: real, v: real, n: nat, m: nat)
    requires L.maxAcc > 0.0 && L.maxVel > 0.0 && StopsIn(L, d, v, n) && StopsIn(L, d, v, m)
    ensures FirstIn(L, d, v, n) == FirstIn(L, d, v, m)
    decreases n
  {
    if !Done(L, d, v) {
      FirstSame(L, NextDist(d, Choose(L, d, v)), NextVel(L, d, v), n - 1, m - 1);
    }
  }

  /** How many turns the loop makes. */
  ghost function Left(L: Limits, d: real, v: real): nat
    requires Positive(L) && d >= 0.0 && CanStop(L, d, v)
  {
    StopsIff(L, d, v);
    var n: nat :| StopsIn(L, d, v, n);
    FirstIn(L, d, v, n)
  }

  lemma LeftIs(L: Limits, d: real, v: real, n: nat)
    requires Positive(L) && d >= 0.0 && CanStop(L, d, v) && StopsIn(L, d, v, n)
    ensures Left(L, d, v) == FirstIn(L, d, v, n)
  {
    StopsIff(L, d, v);
    var m: nat :| StopsIn(L, d, v, m) && Left(L, d, v) == FirstIn(L, d, v, m);
    FirstSame(L, d, v, n, m);
  }

  lemma CanStopNext(L: Limits, d: real, v: real)
    requires Positive(L) && d >= 0.0 && CanStop(L, d, v) && !Done(L, d, v)
    ensures CanStop(L, NextDist(d, Choose(L, d, v)), NextVel(L, d, v))
  {
    if L.maxVel < L.eps {
      SlowLimitsRest(L, d, v);
      OneTurn(L, d, v);
    }
  }

  lemma LeftNext(L: Limits, d: real, v: real)
    requires Positive(L) && d >= 0.0 && CanStop(L, d, v) && !Done(L, d, v)
    ensures var d2, v2 := NextDist(d, Choose(L, d, v)), NextVel(L, d, v);
            CanStop(L, d2, v2) && Left(L, d, v) == 1 + Left(L, d2, v2)
  {
    var d2, v2 := NextDist(d, Choose(L, d, v)), NextVel(L, d, v);
    CanStopNext(L, d, v);
    StopsIff(L, d2, v2);
    var n: nat :| StopsIn(L, d2, v2, n);
    assert StopsIn(L, d, v, n + 1);
    LeftIs(L, d, v, n + 1);
    LeftIs(L, d2, v2, n);
  }

  /** With both limits above the tolerance there are at most four. */
  lemma {:induction false} LeftAtMostRank(L: Limits, d: real, v: real)
    requires Ok(L) && d >= 0.0
    ensures Left(L, d, v) <= Rank(L, d, v) <= 4
    decreases Rank(L, d, v)
  {
    if Done(L, d, v) {
      assert StopsIn(L, d, v, 0);
    } else {
      LeftNext(L, d, v);
      RankDrops(L, d, v);
      LeftAtMostRank(L, NextDist(d, Choose(L, d, v)), NextVel(L, d, v));
    }
  }

  // ----- whole profiles -----

  /** The segments from here on; the first starts at pos. */
  function Profile(L: Limits, d: real, v: real, pos: real): (segs: seq<Segment>)
    requires Positive(L) && d >= 0.0 && CanStop(L, d, v)
    ensures |segs| == Left(L, d, v)
    ensures segs == [] <==> Done(L, d, v)
    decreases Left(L, d, v)
  {
    if Done(L, d, v) then []
    else
      LeftNext(L, d, v);
      var seg := Choose(L, d, v);
      [seg.(posStart := pos)] + Profile(L, NextDist(d, seg), NextVel(L, d, v), pos + DistanceOf(seg))
  }

  /** How far the profile goes in all. */
  function Land(L: Limits, d: real, v: real): real
    requires Positive(L) && d >= 0.0 && CanStop(L, d, v)
    decreases Left(L, d, v)
  {
    if Done(L, d, v) then 0.0
    else
      LeftNext(L, d, v);
      var seg := Choose(L, d, v);
      DistanceOf(seg) + Land(L, NextDist(d, seg), NextVel(L, d, v))
  }

  /** The velocity its last segment ends with. */
  function Final(L: Limits, d: real, v: real): real
    requires Positive(L) && d >= 0.0 && CanStop(L, d, v) && !Done(L, d, v)
    decreases Left(L, d, v)
  {
    LeftNext(L, d, v);
    var seg := Choose(L, d, v);
    if Done(L, NextDist(d, seg), NextVel(L, d, v)) then VelocityAtEnd(seg) else Final(L, NextDist(d, seg), NextVel(L, d, v))
  }

  lemma LandNext(L: Limits, d: real, v: real, d2: real, v2: real)
    requires Positive(L) && d >= 0.0 && CanStop(L, d, v) && !Done(L, d, v) && Goes(L, d, v, d2, v2)
    ensures d2 >= 0.0 && CanStop(L, d2, v2) && Land(L, d, v) == DistanceOf(Choose(L, d, v)) + Land(L, d2, v2)
  {
    LeftNext(L, d, v);
  }

  lemma LandStop(L: Limits, d: real, v: real)
    requires Positive(L) && L.maxVel > L.eps && 0.0 <= v <= L.maxVel && 0.0 <= d <= Braking(L, v) + L.eps && !Done(L, d, v)
    ensures Land(L, d, v) == Braking(L, v)
  {
    StepStop(L, d, v);
    Case23(L, v);
    LandNext(L, d, v, Max(d - Braking(L, v), 0.0), 0.0);
  }

  /** From the limit: exactly onto the target when there is something to cruise, else the braking distance. */
  lemma LandFromLimit(L: Limits, d: real)
    requires Positive(L) && L.maxVel > L.eps && d >= 0.0
    ensures var B := Braking(L, L.maxVel); Land(L, d, L.maxVel) == if d > B + L.eps then d else B
  {
    if d > Braking(L, L.maxVel) + L.eps {
      StepCruise(L, d);
      Case22(L, d);
      BrakingTimes(L, L.maxVel);
      LandNext(L, d, L.maxVel, Braking(L, L.maxVel), L.maxVel);
      LandStop(L, Braking(L, L.maxVel), L.maxVel);
    } else {
      LandStop(L, d, L.maxVel);
    }
  }

  /** The landing error the tolerances allow. */
  function Slack(L: Limits): real
    requires L.maxAcc > 0.0
  {
    L.eps * Max(1.0, L.maxVel / L.maxAcc)
  }

  lemma SlackFacts(L: Limits)
    requires Positive(L)
    ensures L.eps <= Slack(L) && L.eps * (L.maxVel / L.maxAcc) <= Slack(L)
    ensures L.eps * (L.maxVel / (2.0 * L.maxAcc)) <= Slack(L)
  {
    var r, h := L.maxVel / L.maxAcc, L.maxVel / (2.0 * L.maxAcc);
    ProductMonotone(1.0, Max(1.0, r), L.eps);
    ProductMonotone(r, Max(1.0, r), L.eps);
    QuotientTimes(L.maxVel, L.maxAcc);
    QuotientTimes(L.maxVel, 2.0 * L.maxAcc);
    CancelFactor(2.0 * h, r, L.maxAcc);
    PositiveFactor(h, 2.0 * L.maxAcc);
    ProductMonotone(h, r, L.eps);
  }

  lemma SquareGap(w: real, V: real, eps: real)
    requires 0.0 <= w <= V && V - w <= eps
    ensures V * V - w * w <= 2.0 * V * eps
  {
    ProductMonotone(V - w, eps, V + w);
    ProductMonotone(V + w, 2.0 * V, eps);
    assert (V - w) * (V + w) == V * V - w * w;
  }

  /** Snapping the peak onto the limit costs a little more braking. */
  lemma SnapCost(L: Limits, w: real)
    requires Positive(L) && L.maxVel > L.eps && L.maxVel - L.eps < w <= L.maxVel && w >= 0.0
    ensures 0.0 <= Braking(L, L.maxVel) - Braking(L, w) <= Slack(L)
  {
    BrakingOrder(L, w, L.maxVel);
    SlackFacts(L);
    BrakingGap(L, w);
  }

  lemma BrakingGap(L: Limits, w: real)
    requires Positive(L) && L.maxVel > L.eps && L.maxVel - L.eps < w <= L.maxVel && w >= 0.0
    ensures Braking(L, L.maxVel) - Braking(L, w) <= L.eps * (L.maxVel / L.maxAcc)
  {
    var V := L.maxVel;
    BrakingTimes(L, w);
    BrakingTimes(L, V);
    QuotientTimes(V, L.maxAcc);
    SquareGap(w, V, L.eps);
    DistributeMinus(2.0 * L.maxAcc, Braking(L, V), Braking(L, w));
    GapBelow(Braking(L, V) - Braking(L, w), V * V - w * w, L.eps, V / L.maxAcc, V, L.maxAcc);
  }

  lemma GapBelow(gap: real, squares: real, eps: real, r: real, v: real, a: real)
    requires a > 0.0 && gap * (2.0 * a) == squares <= 2.0 * v * eps && r * a == v
    ensures gap <= eps * r
  {
    assert (eps * r) * (2.0 * a) == 2.0 * (r * a) * eps;
    CancelFactor(gap, eps * r, 2.0 * a);
  }

  /** Peaks below the tolerance lead closer and closer, without overshooting, until the rest is within it. */
  lemma {:induction false} WeakLands(L: Limits, d: real, v: real)
    requires Steady(L) && Weak(L, d, v) && d >= 0.0
    ensures 0.0 <= d - Land(L, d, v) <= L.eps
    decreases Left(L, d, v)
  {
    var w1 := Peak(L, d, v);
    BrakingTimes(L, v);
    BrakingTimes(L, w1);
    WeakPeak(L, d, v);
    Case21(L, d, v);
    FinalNext(L, d, v, Braking(L, w1), 0.0);
    LandNext(L, d, v, Braking(L, w1), 0.0);
    if !Done(L, Braking(L, w1), 0.0) {
      WeakAgain(L, w1);
      WeakLands(L, Braking(L, w1), 0.0);
    }
  }

  lemma LandAccel(L: Limits, d: real, v: real)
    requires Positive(L) && L.maxVel > L.eps && 0.0 <= v <= L.maxVel - L.eps && d > Braking(L, v) + L.eps
    ensures Abs(Land(L, d, v) - d) <= Slack(L)
  {
    var w1, V := Peak(L, d, v), L.maxVel;
    BrakingTimes(L, v);
    StepAccel(L, d, v);
    Case21(L, d, v);
    PeakBraking(L, d, v);
    SlackFacts(L);
    SnapFacts(L);
    BrakingTimes(L, w1);
    BrakingOrder(L, w1, V);
    if Weak(L, d, v) {
      WeakLands(L, d, v);
    } else if w1 > V {
      LandNext(L, d, v, d + Braking(L, v) - Braking(L, V), V);
      LandFromLimit(L, d + Braking(L, v) - Braking(L, V));
    } else if w1 > V - L.eps {
      LandNext(L, d, v, Braking(L, w1), V);
      LandFromLimit(L, Braking(L, w1));
      SnapCost(L, w1);
    } else {
      LandNext(L, d, v, Braking(L, w1), w1);
      if !Done(L, Braking(L, w1), w1) {
        LandStop(L, Braking(L, w1), w1);
      }
    }
  }

  lemma LandNear(L: Limits, d: real, v: real)
    requires Positive(L) && L.maxVel > L.eps && L.maxVel - L.eps < v < L.maxVel && d > Braking(L, v) + L.eps
    ensures Abs(Land(L, d, v) - d) <= Slack(L)
  {
    BrakingTimes(L, v);
    StepNear(L, d, v);
    SlackFacts(L);
    LandNext(L, d, v, d - DistanceOf(SolveCase22(L, d, v)), L.maxVel);
    LandFromLimit(L, d - DistanceOf(SolveCase22(L, d, v)));
  }

  /** From a velocity within the limits, with enough room to brake. */
  lemma LandForward(L: Limits, d: real, v: real)
    requires Positive(L) && L.maxVel > L.eps && 0.0 <= v <= L.maxVel && d >= Braking(L, v)
    ensures Abs(Land(L, d, v) - d) <= Slack(L)
  {
    BrakingTimes(L, v);
    SlackFacts(L);
    if Done(L, d, v) {
    } else if d <= Braking(L, v) + L.eps {
      LandStop(L, d, v);
    } else if v == L.maxVel {
      LandFromLimit(L, d);
    } else if v > L.maxVel - L.eps {
      LandNear(L, d, v);
    } else {
      LandAccel(L, d, v);
    }
  }

  /**
   Where the profile lands: within the slack of the target when the robot stands, moves away or has
   room to brake; otherwise exactly one braking distance on (or right here, if it never moved).
   */
  lemma Lands(L: Limits, d: real, v: real)
    requires Positive(L) && L.maxVel > L.eps && d >= 0.0
    ensures v <= 0.0 || Braking(L, v) <= d ==> Abs(Land(L, d, v) - d) <= Slack(L)
    ensures v > 0.0 && Braking(L, v) > d ==> Land(L, d, v) == if Done(L, d, v) then 0.0 else Braking(L, v)
  {
    BrakingTimes(L, v);
    SlackFacts(L);
    if Done(L, d, v) {
    } else if v < 0.0 {
      StepBack(L, d, v);
      Case1(L, v);
      assert Braking(L, 0.0) == 0.0;
      LandNext(L, d, v, d + Braking(L, v), 0.0);
      LandForward(L, d + Braking(L, v), 0.0);
    } else if v > L.maxVel {
      var d2 := Max(d - (Braking(L, v) - Braking(L, L.maxVel)), 0.0);
      StepSlow(L, d, v);
      Case3(L, v);
      BrakingTimes(L, L.maxVel);
      LandNext(L, d, v, d2, L.maxVel);
      LandFromLimit(L, d2);
    } else if v > 0.0 && Braking(L, v) > d {
      LandStop(L, d, v);
    } else {
      LandForward(L, d, v);
    }
  }

  // ----- whether it ends at rest -----

  /** The last velocity, seen from one turn earlier. */
  lemma FinalNext(L: Limits, d: real, v: real, d2: real, v2: real)
    requires Positive(L) && d >= 0.0 && CanStop(L, d, v) && !Done(L, d, v) && Goes(L, d, v, d2, v2)
    ensures d2 >= 0.0 && CanStop(L, d2, v2) && Left(L, d, v) == 1 + Left(L, d2, v2)
    ensures Final(L, d, v) == if Done(L, d2, v2) then VelocityAtEnd(Choose(L, d, v)) else Final(L, d2, v2)
  {
    LeftNext(L, d, v);
  }

  /** A peak the solver takes for rest, or just does not, but close enough to the target to stop there. */
  predicate Creeps(L: Limits, d: real, v: real)
    requires L.maxAcc > 0.0
  {
    && 0.0 <= v <= L.maxVel - L.eps && d > Braking(L, v) + L.eps && Peak(L, d, v) <= L.maxVel - L.eps
    && (Peak(L, d, v) < L.eps || (Peak(L, d, v) == L.eps && Braking(L, L.eps) <= L.eps))
  }

  /** The state in which the robot first moves towards the target. */
  predicate EndsCreeping(L: Limits, d: real, v: real)
    requires L.maxAcc > 0.0
  {
    if v < 0.0 then Creeps(L, d + Braking(L, v), 0.0) else Creeps(L, d, v)
  }

  lemma {:induction false} WeakEndsMoving(L: Limits, d: real, v: real)
    requires Steady(L) && Weak(L, d, v) && d >= 0.0
    ensures !Done(L, d, v) && Final(L, d, v) > 0.0
    decreases Left(L, d, v)
  {
    var w1 := Peak(L, d, v);
    BrakingTimes(L, v);
    WeakPeak(L, d, v);
    FinalNext(L, d, v, Braking(L, w1), 0.0);
    if !Done(L, Braking(L, w1), 0.0) {
      BrakingTimes(L, w1);
      WeakAgain(L, w1);
      WeakEndsMoving(L, Braking(L, w1), 0.0);
    }
  }

  /** From half way the peak is lower still. */
  lemma WeakAgain(L: Limits, w1: real)
    requires Steady(L) && 0.0 < w1 < L.eps && w1 <= L.maxVel - L.eps && Braking(L, w1) > L.eps
    ensures Weak(L, Braking(L, w1), 0.0)
  {
    var d2 := Braking(L, w1);
    BrakingTimes(L, w1);
    PeakBraking(L, d2, 0.0);
    BrakingTimes(L, Peak(L, d2, 0.0));
    assert Braking(L, 0.0) == 0.0;
    BrakingOrder(L, w1, Peak(L, d2, 0.0));
  }

  lemma BrakingRests(L: Limits, d: real, v: real)
    requires Steady(L) && 0.0 <= v <= L.maxVel && 0.0 <= d <= Braking(L, v) + L.eps && !Done(L, d, v)
    ensures Final(L, d, v) == 0.0
  {
    StepStop(L, d, v);
    Case23(L, v);
    FinalNext(L, d, v, Max(d - Braking(L, v), 0.0), 0.0);
  }

  lemma LimitRests(L: Limits, d: real)
    requires Steady(L) && L.maxVel > L.eps && d >= 0.0
    ensures Final(L, d, L.maxVel) == 0.0
  {
    var B := Braking(L, L.maxVel);
    BrakingTimes(L, L.maxVel);
    if d <= B + L.eps {
      BrakingRests(L, d, L.maxVel);
    } else {
      StepCruise(L, d);
      FinalNext(L, d, L.maxVel, B, L.maxVel);
      BrakingRests(L, B, L.maxVel);
    }
  }

  /** A segment that leads to the limit is not the last. */
  lemma RestsThroughLimit(L: Limits, d: real, v: real, d2: real)
    requires Steady(L) && L.maxVel > L.eps && d >= 0.0 && !Done(L, d, v) && d2 >= 0.0 && Goes(L, d, v, d2, L.maxVel)
    ensures Final(L, d, v) == 0.0
  {
    FinalNext(L, d, v, d2, L.maxVel);
    LimitRests(L, d2);
  }

  /** From a peak too high for the tolerance the robot brakes, unless it has arrived. */
  lemma PeakRests(L: Limits, d: real, v: real, w1: real)
    requires Steady(L) && d >= 0.0 && !Done(L, d, v) && L.eps <= w1 <= L.maxVel - L.eps
    requires Goes(L, d, v, Braking(L, w1), w1) && VelocityAtEnd(Choose(L, d, v)) == w1
    ensures Final(L, d, v) == 0.0 <==> !(w1 == L.eps && Braking(L, L.eps) <= L.eps)
  {
    BrakingTimes(L, w1);
    FinalNext(L, d, v, Braking(L, w1), w1);
    if !Done(L, Braking(L, w1), w1) {
      BrakingRests(L, Braking(L, w1), w1);
    }
  }

  lemma AcceleratingRests(L: Limits, d: real, v: real)
    requires Steady(L) && L.maxVel > L.eps && 0.0 <= v <= L.maxVel - L.eps && d > Braking(L, v) + L.eps
    ensures !Done(L, d, v) && (Final(L, d, v) == 0.0 <==> !Creeps(L, d, v))
  {
    var w1, V := Peak(L, d, v), L.maxVel;
    BrakingTimes(L, v);
    if Weak(L, d, v) {
      WeakEndsMoving(L, d, v);
    } else {
      BrakingTimes(L, w1);
      StepAccel(L, d, v);
      SnapFacts(L);
      if w1 > V {
        BrakingTimes(L, V);
        RestsThroughLimit(L, d, v, d + Braking(L, v) - Braking(L, V));
      } else if w1 > V - L.eps {
        RestsThroughLimit(L, d, v, Braking(L, w1));
      } else {
        Case21(L, d, v);
        PeakRests(L, d, v, w1);
      }
    }
  }

  lemma ForwardRests(L: Limits, d: real, v: real)
    requires Steady(L) && L.maxVel > L.eps && 0.0 <= v <= L.maxVel && d >= 0.0 && !Done(L, d, v)
    ensures Final(L, d, v) == 0.0 <==> !Creeps(L, d, v)
  {
    if d <= Braking(L, v) + L.eps {
      BrakingRests(L, d, v);
    } else if v == L.maxVel {
      LimitRests(L, d);
    } else if v > L.maxVel - L.eps {
      StepNear(L, d, v);
      Case22Below(L, d, v);
      RestsThroughLimit(L, d, v, d - DistanceOf(SolveCase22(L, d, v)));
    } else {
      AcceleratingRests(L, d, v);
    }
  }

  lemma RestsAbove(L: Limits, d: real, v: real)
    requires Positive(L) && L.maxVel > L.eps && d >= 0.0 && !Done(L, d, v)
    ensures Final(L, d, v) == 0.0 <==> !EndsCreeping(L, d, v)
  {
    if v < 0.0 {
      var d2 := d + Braking(L, v);
      BrakingTimes(L, v);
      StepBack(L, d, v);
      Case1(L, v);
      FinalNext(L, d, v, d2, 0.0);
      assert Braking(L, 0.0) == 0.0;
      if !Done(L, d2, 0.0) {
        ForwardRests(L, d2, 0.0);
      }
    } else if v > L.maxVel {
      StepSlow(L, d, v);
      RestsThroughLimit(L, d, v, Max(d - (Braking(L, v) - Braking(L, L.maxVel)), 0.0));
    } else {
      ForwardRests(L, d, v);
    }
  }

  /** Below the tolerance one segment is all there is; slowing down and cruising end with a velocity. */
  lemma RestsBelow(L: Limits, d: real, v: real)
    requires Positive(L) && L.maxVel < L.eps && d >= 0.0 && CanStop(L, d, v) && !Done(L, d, v)
    ensures Left(L, d, v) == 1
    ensures Final(L, d, v) == 0.0 <==> !(v > L.maxVel || (v >= 0.0 && d > Braking(L, v) + L.eps))
  {
    var d2 := NextDist(d, Choose(L, d, v));
    SlowLimitsRest(L, d, v);
    OneTurn(L, d, v);
    FinalNext(L, d, v, d2, 0.0);
    LeftIs(L, d2, 0.0, 0);
    if v < 0.0 {
      Case1(L, v);
    } else if v > L.maxVel {
      Case3(L, v);
    } else if d <= Braking(L, v) + L.eps {
      Case23(L, v);
    } else if v == 0.0 {
      SlowLimitsLoop(L, d);
    }
  }

  // A speed limit equal to the tolerance: at the limit the robot counts as standing once it is near the target.

  /** The way left when the robot comes to the limit, from a start that does not simply brake. */
  function ToLimit(L: Limits, d: real, v: real): real
    requires L.maxAcc > 0.0 && L.maxVel > 0.0
  {
    if v > L.maxVel then Max(d - (Braking(L, v) - Braking(L, L.maxVel)), 0.0)
    else if v == L.maxVel then d
    else if v > 0.0 then d - DistanceOf(SolveCase22(L, d, v))
    else if Peak(L, d, 0.0) > L.maxVel then d - Braking(L, L.maxVel)
    else d / 2.0
  }

  /** It stops being driven there when the target is near already, or after a cruise to a braking distance within the tolerance. */
  predicate PassesThrough(L: Limits, d: real)
    requires L.maxAcc > 0.0
  {
    d <= L.eps || (d > Braking(L, L.maxVel) + L.eps && Braking(L, L.maxVel) <= L.eps)
  }

  predicate EndsAtLimit(L: Limits, d: real, v: real)
    requires L.maxAcc > 0.0 && L.maxVel > 0.0
  {
    !(v <= L.maxVel && d <= Braking(L, v) + L.eps) && PassesThrough(L, ToLimit(L, d, v))
  }

  lemma PassesOn(L: Limits, d: real)
    requires Positive(L) && L.maxVel == L.eps && d > L.eps
    ensures !Done(L, d, L.maxVel) && (Final(L, d, L.maxVel) == 0.0 <==> !PassesThrough(L, d))
  {
    var B := Braking(L, L.maxVel);
    BrakingTimes(L, L.maxVel);
    if d <= B + L.eps {
      BrakingRests(L, d, L.maxVel);
    } else {
      StepCruise(L, d);
      Case22(L, d);
      FinalNext(L, d, L.maxVel, B, L.maxVel);
      if B > L.eps {
        BrakingRests(L, B, L.maxVel);
      }
    }
  }

  /** A segment that leads to the limit. */
  lemma PassesVia(L: Limits, d: real, v: real, d2: real)
    requires Positive(L) && L.maxVel == L.eps && d >= 0.0 && !Done(L, d, v) && d2 >= 0.0
    requires Goes(L, d, v, d2, L.maxVel) && VelocityAtEnd(Choose(L, d, v)) > 0.0
    ensures Final(L, d, v) == 0.0 <==> !PassesThrough(L, d2)
  {
    FinalNext(L, d, v, d2, L.maxVel);
    if d2 > L.eps {
      PassesOn(L, d2);
    }
  }

  lemma RestsAtTolerance(L: Limits, d: real, v: real)
    requires Positive(L) && L.maxVel == L.eps && d >= 0.0 && v >= 0.0 && !Done(L, d, v)
    ensures Final(L, d, v) == 0.0 <==> !EndsAtLimit(L, d, v)
  {
    BrakingTimes(L, v);
    if v > L.maxVel {
      StepSlow(L, d, v);
      Case3(L, v);
      PassesVia(L, d, v, ToLimit(L, d, v));
    } else if d <= Braking(L, v) + L.eps {
      BrakingRests(L, d, v);
    } else if v == L.maxVel {
      PassesOn(L, d);
    } else if v > 0.0 {
      StepNear(L, d, v);
      Case22Below(L, d, v);
      PassesVia(L, d, v, ToLimit(L, d, v));
    } else {
      assert Braking(L, 0.0) == 0.0;
      StepAccel(L, d, v);
      Case21(L, d, v);
      PeakBraking(L, d, v);
      BrakingTimes(L, L.maxVel);
      SnapFacts(L);
      PassesVia(L, d, v, ToLimit(L, d, v));
    }
  }

  /** What a caller can check, with a speed limit above, below or at the tolerance. */
  predicate EndsMoving(L: Limits, d: real, v: real)
    requires L.maxAcc > 0.0 && L.maxVel > 0.0
  {
    if L.maxVel > L.eps then EndsCreeping(L, d, v)
    else if L.maxVel < L.eps then v > L.maxVel || (v >= 0.0 && d > Braking(L, v) + L.eps)
    else if v < 0.0 then EndsAtLimit(L, d + Braking(L, v), 0.0)
    else EndsAtLimit(L, d, v)
  }

  /** Exactly when the last segment ends at rest, for all limits, distances and velocities for which the loop ends. */
  lemma RestsIff(L: Limits, d: real, v: real)
    requires Positive(L) && d >= 0.0 && CanStop(L, d, v) && !Done(L, d, v)
    ensures Final(L, d, v) == 0.0 <==> !EndsMoving(L, d, v)
  {
    if L.maxVel > L.eps {
      RestsAbove(L, d, v);
    } else if L.maxVel < L.eps {
      RestsBelow(L, d, v);
    } else if v >= 0.0 {
      RestsAtTolerance(L, d, v);
    } else {
      var d2 := d + Braking(L, v);
      BrakingTimes(L, v);
      StepBack(L, d, v);
      Case1(L, v);
      FinalNext(L, d, v, d2, 0.0);
      assert Braking(L, 0.0) == 0.0;
      if !Done(L, d2, 0.0) {
        RestsAtTolerance(L, d2, 0.0);
      }
    }
  }

  ghost function Doubled(x: real, k: nat): real {
    if k == 0 then x else 2.0 * Doubled(x, k - 1)
  }

  /** A weak peak from rest halves the way. */
  lemma WeakHalves(L: Limits, d: real)
    requires Steady(L) && Weak(L, d, 0.0) && d > L.eps
    ensures !Done(L, d, 0.0) && Goes(L, d, 0.0, d / 2.0, 0.0) && (d / 2.0 > L.eps ==> Weak(L, d / 2.0, 0.0))
  {
    var w1 := Peak(L, d, 0.0);
    WeakPeak(L, d, 0.0);
    assert Braking(L, 0.0) == 0.0;
    if d / 2.0 > L.eps {
      WeakAgain(L, w1);
    }
  }

  /** So far from the target there is no bound on the number of segments. */
  lemma {:induction false} WeakTurns(L: Limits, d: real, k: nat)
    requires Steady(L) && Weak(L, d, 0.0) && d > Doubled(L.eps, k)
    ensures Left(L, d, 0.0) > k
    decreases k
  {
    DoubledAtLeast(L.eps, k);
    WeakHalves(L, d);
    FinalNext(L, d, 0.0, d / 2.0, 0.0);
    if k > 0 {
      DoubledAtLeast(L.eps, k - 1);
      WeakTurns(L, d / 2.0, k - 1);
    }
  }

  lemma {:induction false} DoubledAtLeast(x: real, k: nat)
    requires x > 0.0
    ensures Doubled(x, k) >= x
  {
    if k > 0 {
      DoubledAtLeast(x, k - 1);
    }
  }

  /** With both limits above the tolerance it always does. */
  lemma OkRests(L: Limits, d: real, v: real)
    requires Ok(L) && d >= 0.0 && !Done(L, d, v)
    ensures Final(L, d, v) == 0.0
  {
    RestsIff(L, d, v);
    BrakingTimes(L, v);
    if v < 0.0 {
      if d + Braking(L, v) > L.eps {
        PeakAboveEps(L, d + Braking(L, v), 0.0);
      }
    } else if d > L.eps {
      PeakAboveEps(L, d, v);
    }
    assert Braking(L, 0.0) == 0.0;
  }

  /** An acceleration limit below the tolerance: one segment, from rest, that ends moving. */
  lemma SlowStartEndsMoving(sqrt: real -> real)
    requires IsSqrt(sqrt)
    ensures var L := Limits(1.0, 0.01, 0.1, sqrt);
            Positive(L) && L.maxVel > L.eps && Left(L, 0.2, 0.0) == 1 && Final(L, 0.2, 0.0) > 0.0
  {
    var L := Limits(1.0, 0.01, 0.1, sqrt);
    var w1 := Peak(L, 0.2, 0.0);
    assert Braking(L, 0.0) == 0.0;
    assert w1 * w1 == 0.002;
    if w1 >= 0.1 {
      ProductMonotone(0.1, w1, 0.1);
      ProductMonotone(0.1, w1, w1);
    }
    assert Weak(L, 0.2, 0.0);
    WeakPeak(L, 0.2, 0.0);
    FinalNext(L, 0.2, 0.0, Braking(L, w1), 0.0);
    LeftIs(L, Braking(L, w1), 0.0, 0);
  }

  /** A speed limit equal to the tolerance: one braking segment that ends at the limit, on the target. */
  lemma LimitAtTolerance(sqrt: real -> real)
    requires IsSqrt(sqrt)
    ensures var L := Limits(1.0, 1.0, 1.0, sqrt); Steady(L) && !Done(L, 1.5, 2.0) && Final(L, 1.5, 2.0) == 1.0
  {
    var L := Limits(1.0, 1.0, 1.0, sqrt);
    StepSlow(L, 1.5, 2.0);
    Case3(L, 2.0);
    assert Braking(L, 2.0) == 2.0 && Braking(L, 1.0) == 0.5;
    FinalNext(L, 1.5, 2.0, 0.0, 1.0);
  }
}

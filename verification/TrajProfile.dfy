/**
 The motion profile of one degree of freedom, as a function of the remaining distance and the
 velocity: which segment comes next, where it leaves the robot, and where the last one lands.
 Distances and velocities are normalised so that the target lies ahead.
 */
module TrajProfile {
  import opened Reals

  /** Constant acceleration for some time. */
  datatype Segment = Segment(accel: real, duration: real, velStart: real, posStart: real)

  function DistanceOf(seg: Segment): real {
    seg.velStart * seg.duration + 0.5 * seg.accel * seg.duration * seg.duration
  }

  function VelocityAtEnd(seg: Segment): real {
    seg.velStart + seg.accel * seg.duration
  }

  /** Speed and acceleration limits, the tolerance of the comparisons, and the root function. */
  datatype Limits = Limits(maxVel: real, maxAcc: real, eps: real, sqrt: real -> real)

  /** What the code's divisions and its root need. */
  ghost predicate Positive(L: Limits) {
    L.eps > 0.0 && L.maxVel > 0.0 && L.maxAcc > 0.0 && IsSqrt(L.sqrt)
  }

  /** A speed limit no snapping confuses with rest. */
  ghost predicate Steady(L: Limits) {
    Positive(L) && L.maxVel >= L.eps
  }

  /** Limits well above the tolerance: then profiles are short and end at rest. */
  ghost predicate Ok(L: Limits) {
    Positive(L) && L.maxVel > L.eps && L.maxAcc >= L.eps
  }

  function Braking(L: Limits, v: real): real
    requires L.maxAcc > 0.0
  {
    (v * v) / (2.0 * L.maxAcc)
  }

  // ----- the five cases -----

  function SolveCase1(L: Limits, v: real): Segment
    requires L.maxAcc > 0.0
  {
    Segment(L.maxAcc, -v / L.maxAcc, v, 0.0)
  }

  /** Peak velocity of a profile without a cruising part. */
  function Peak(L: Limits, d: real, v: real): real {
    L.sqrt(d * L.maxAcc + (v * v) / 2.0)
  }

  function SolveCase21(L: Limits, d: real, v: real): Segment
    requires L.maxAcc > 0.0
  {
    var w1 := Peak(L, d, v);
    var tI := (L.maxVel - v) / L.maxAcc;
    var tII := (w1 - v) / L.maxAcc;
    Segment(L.maxAcc, if tI < tII then tI else tII, v, 0.0)
  }

  function SolveCase22(L: Limits, d: real, v: real): Segment
    requires L.maxAcc > 0.0 && L.maxVel > 0.0
  {
    Segment(0.0, d / L.maxVel - L.maxVel / (2.0 * L.maxAcc), v, 0.0)
  }

  function SolveCase23(L: Limits, v: real): Segment
    requires L.maxAcc > 0.0
  {
    Segment(-L.maxAcc, v / L.maxAcc, v, 0.0)
  }

  function SolveCase3(L: Limits, v: real): Segment
    requires L.maxAcc > 0.0
  {
    Segment(-L.maxAcc, (v - L.maxVel) / L.maxAcc, v, 0.0)
  }

  function Choose(L: Limits, d: real, v: real): Segment
    requires L.maxAcc > 0.0 && L.maxVel > 0.0
  {
    if v < 0.0 then SolveCase1(L, v)
    else if v > L.maxVel then SolveCase3(L, v)
    else if Abs(v - L.maxVel) < L.eps && d > Braking(L, v) + L.eps then SolveCase22(L, d, v)
    else if v < L.maxVel && d > Braking(L, v) + L.eps then SolveCase21(L, d, v)
    else SolveCase23(L, v)
  }

  // ----- the state after a segment -----

  /** Velocities within the tolerance of the limit or of rest are moved onto it. */
  function Snap(L: Limits, v: real): real {
    var u := if Abs(v - L.maxVel) < L.eps then L.maxVel else v;
    if Abs(u) < L.eps then 0.0 else u
  }

  function NextDist(d: real, seg: Segment): (r: real)
    ensures r >= 0.0
  {
    Max(d - DistanceOf(seg), 0.0)
  }

  predicate Done(L: Limits, d: real, v: real) {
    !(Abs(d) > L.eps || Abs(v) > L.eps)
  }

  /** How many more segments there can be. */
  function Rank(L: Limits, d: real, v: real): (r: nat)
    requires L.maxAcc > 0.0
    ensures r <= 4
  {
    if Done(L, d, v) then 0
    else if v < 0.0 then 4
    else if v > L.maxVel then 3
    else if d <= Braking(L, v) + L.eps then 1
    else if v == L.maxVel then 2
    else 3
  }

  // ----- what each kind of segment does -----

  lemma BrakingTimes(L: Limits, v: real)
    requires L.maxAcc > 0.0
    ensures Braking(L, v) * (2.0 * L.maxAcc) == v * v && Braking(L, v) >= 0.0
  {
    QuotientTimes(v * v, 2.0 * L.maxAcc);
    SquareNonNegative(v);
    NonNegativeFactor(Braking(L, v), 2.0 * L.maxAcc);
  }

  lemma BrakingOrder(L: Limits, u: real, w: real)
    requires L.maxAcc > 0.0 && u >= 0.0 && w >= 0.0
    ensures u <= w <==> Braking(L, u) <= Braking(L, w)
  {
    BrakingTimes(L, u);
    BrakingTimes(L, w);
    if u <= w {
      ProductMonotone(u, w, u);
      ProductMonotone(u, w, w);
      CancelFactor(Braking(L, u), Braking(L, w), 2.0 * L.maxAcc);
    } else {
      SquareStrict(w, u);
      CancelFactor(Braking(L, w), Braking(L, u), 2.0 * L.maxAcc);
    }
  }

  /** Uniform acceleration or braking from u to w covers the difference of the braking distances. */
  lemma RampDistance(L: Limits, seg: Segment, w: real)
    requires L.maxAcc > 0.0 && (seg.accel == L.maxAcc || seg.accel == -L.maxAcc)
    requires seg.accel * seg.duration == w - seg.velStart
    ensures VelocityAtEnd(seg) == w
    ensures seg.accel == L.maxAcc ==> DistanceOf(seg) == Braking(L, w) - Braking(L, seg.velStart)
    ensures seg.accel == -L.maxAcc ==> DistanceOf(seg) == Braking(L, seg.velStart) - Braking(L, w)
  {
    var u, a, t := seg.velStart, seg.accel, seg.duration;
    BrakingTimes(L, u);
    BrakingTimes(L, w);
    calc {
      DistanceOf(seg) * (2.0 * a);
      2.0 * u * (a * t) + (a * t) * (a * t);
      2.0 * u * (w - u) + (w - u) * (w - u);
      w * w - u * u;
    }
    if a == L.maxAcc {
      assert (Braking(L, w) - Braking(L, u)) * (2.0 * a) == w * w - u * u;
      CancelFactor(DistanceOf(seg), Braking(L, w) - Braking(L, u), 2.0 * a);
    } else {
      assert (Braking(L, u) - Braking(L, w)) * (2.0 * L.maxAcc) == u * u - w * w;
      assert DistanceOf(seg) * (2.0 * L.maxAcc) == u * u - w * w;
      CancelFactor(DistanceOf(seg), Braking(L, u) - Braking(L, w), 2.0 * L.maxAcc);
    }
  }

  // ----- each case -----

  /** Case 1: a robot moving away comes to rest first. */
  lemma Case1(L: Limits, v: real)
    requires L.maxAcc > 0.0 && v < 0.0
    ensures var seg := SolveCase1(L, v); seg.duration > 0.0 && VelocityAtEnd(seg) == 0.0 && DistanceOf(seg) == -Braking(L, v)
  {
    var seg := SolveCase1(L, v);
    QuotientTimes(-v, L.maxAcc);
    RampDistance(L, seg, 0.0);
    PositiveFactor(seg.duration, L.maxAcc);
    assert Braking(L, 0.0) == 0.0;
  }

  /** Case 3: too fast, so slow down to the limit. */
  lemma Case3(L: Limits, v: real)
    requires L.maxAcc > 0.0 && v > L.maxVel > 0.0
    ensures var seg := SolveCase3(L, v);
            && seg.duration > 0.0 && VelocityAtEnd(seg) == L.maxVel
            && DistanceOf(seg) == Braking(L, v) - Braking(L, L.maxVel) && DistanceOf(seg) > 0.0
  {
    var seg := SolveCase3(L, v);
    QuotientTimes(v - L.maxVel, L.maxAcc);
    RampDistance(L, seg, L.maxVel);
    PositiveFactor(seg.duration, L.maxAcc);
    BrakingOrder(L, v, L.maxVel);
  }

  /** Case 2.3: brake to rest. */
  lemma Case23(L: Limits, v: real)
    requires L.maxAcc > 0.0 && v >= 0.0
    ensures var seg := SolveCase23(L, v); seg.duration >= 0.0 && VelocityAtEnd(seg) == 0.0 && DistanceOf(seg) == Braking(L, v)
  {
    var seg := SolveCase23(L, v);
    QuotientTimes(v, L.maxAcc);
    RampDistance(L, seg, 0.0);
    NonNegativeFactor(seg.duration, L.maxAcc);
    assert Braking(L, 0.0) == 0.0;
  }

  /** Case 2.2 at exactly the limit: cruise until only the braking distance is left. */
  lemma Case22(L: Limits, d: real)
    requires L.maxAcc > 0.0 && L.maxVel > 0.0
    ensures var seg := SolveCase22(L, d, L.maxVel);
            && VelocityAtEnd(seg) == L.maxVel && DistanceOf(seg) == d - Braking(L, L.maxVel)
            && (d > Braking(L, L.maxVel) ==> seg.duration > 0.0)
  {
    var V := L.maxVel;
    var seg := SolveCase22(L, d, V);
    QuotientTimes(d, V);
    HalfBraking(L);
    assert DistanceOf(seg) == V * (d / V) - V * (V / (2.0 * L.maxAcc));
    if d > Braking(L, V) {
      PositiveFactor(seg.duration, V);
    }
  }

  lemma HalfBraking(L: Limits)
    requires L.maxAcc > 0.0
    ensures L.maxVel * (L.maxVel / (2.0 * L.maxAcc)) == Braking(L, L.maxVel)
  {
    BrakingTimes(L, L.maxVel);
    QuotientTimes(L.maxVel, 2.0 * L.maxAcc);
    CancelFactor(L.maxVel * (L.maxVel / (2.0 * L.maxAcc)), Braking(L, L.maxVel), 2.0 * L.maxAcc);
  }

  /** The peak is where accelerating and braking meet: halfway between what is left and the braking distance. */
  lemma PeakBraking(L: Limits, d: real, v: real)
    requires L.maxAcc > 0.0 && IsSqrt(L.sqrt) && d >= 0.0
    ensures Peak(L, d, v) >= 0.0 && 2.0 * Braking(L, Peak(L, d, v)) == d + Braking(L, v)
  {
    var w, a := Peak(L, d, v), L.maxAcc;
    SquareNonNegative(v);
    ProductMonotone(0.0, d, a);
    assert w * w == d * a + (v * v) / 2.0;
    BrakingTimes(L, w);
    BrakingTimes(L, v);
    CancelFactor(2.0 * Braking(L, w), d + Braking(L, v), 2.0 * a);
  }

  /** Case 2.1: accelerate to the limit or, when that is nearer, to the peak. */
  lemma Case21(L: Limits, d: real, v: real)
    requires L.maxAcc > 0.0 && IsSqrt(L.sqrt) && 0.0 <= v < L.maxVel && d > Braking(L, v)
    ensures var seg, w1 := SolveCase21(L, d, v), Peak(L, d, v);
            var w := if L.maxVel < w1 then L.maxVel else w1;
            && w1 > v && seg.duration > 0.0 && VelocityAtEnd(seg) == w
            && DistanceOf(seg) == Braking(L, w) - Braking(L, v) > 0.0
  {
    var seg, w1 := SolveCase21(L, d, v), Peak(L, d, v);
    BrakingTimes(L, v);
    PeakBraking(L, d, v);
    BrakingOrder(L, w1, v);
    var w := if L.maxVel < w1 then L.maxVel else w1;
    var tI, tII := (L.maxVel - v) / L.maxAcc, (w1 - v) / L.maxAcc;
    QuotientTimes(L.maxVel - v, L.maxAcc);
    QuotientTimes(w1 - v, L.maxAcc);
    CancelFactor(tI, tII, L.maxAcc);
    CancelFactor(tII, tI, L.maxAcc);
    assert seg.duration * L.maxAcc == w - v;
    PositiveFactor(seg.duration, L.maxAcc);
    RampDistance(L, seg, w);
    BrakingOrder(L, w, v);
  }

  /** Covering v(q - h) instead of V(q - h), for v a little below V. */
  lemma SlightlySlower(v: real, V: real, q: real, h: real, eps: real)
    requires 0.0 < v <= V && V - v <= eps && q >= 0.0 && h >= 0.0
    ensures v * (q - h) <= V * q
    ensures V * h - (V * q - v * (q - h)) <= eps * h
  {
    assert v * (q - h) == v * q - v * h;
    ProductMonotone(v, V, q);
    ProductMonotone(0.0, v, h);
    ProductMonotone(V - v, eps, h);
    ProductMonotone(0.0, V - v, q);
    assert (V - v) * h == V * h - v * h;
    assert (V - v) * q == V * q - v * q;
    assert (V - v) * q >= 0.0;
    assert v * h >= 0.0;
    assert V * h - (V * q - v * (q - h)) == (V - v) * h - (V - v) * q;
  }

  /** Case 2.2 just below the limit: what is left then differs little from the braking distance at the limit. */
  lemma Case22Below(L: Limits, d: real, v: real)
    requires Steady(L) && L.maxVel - L.eps < v < L.maxVel && d >= 0.0
    ensures var seg := SolveCase22(L, d, v);
            && VelocityAtEnd(seg) == v && DistanceOf(seg) <= d
            && Braking(L, L.maxVel) - (d - DistanceOf(seg)) <= L.eps * (L.maxVel / (2.0 * L.maxAcc))
  {
    var V, seg := L.maxVel, SolveCase22(L, d, v);
    var q, h := d / V, V / (2.0 * L.maxAcc);
    QuotientTimes(d, V);
    QuotientTimes(V, 2.0 * L.maxAcc);
    NonNegativeFactor(q, V);
    PositiveFactor(h, 2.0 * L.maxAcc);
    HalfBraking(L);
    SlightlySlower(v, V, q, h, L.eps);
  }

  // ----- one step of the solver, case by case -----

  /** Distance and velocity after the next segment. */
  ghost predicate Goes(L: Limits, d: real, v: real, d2: real, v2: real)
    requires L.maxAcc > 0.0 && L.maxVel > 0.0
  {
    NextDist(d, Choose(L, d, v)) == d2 && Snap(L, VelocityAtEnd(Choose(L, d, v))) == v2
  }

  lemma SnapFacts(L: Limits)
    requires Steady(L)
    ensures Snap(L, 0.0) == 0.0 && Snap(L, L.maxVel) == L.maxVel
    ensures forall v :: L.maxVel - L.eps < v <= L.maxVel ==> Snap(L, v) == L.maxVel
    ensures forall v :: L.eps < v <= L.maxVel - L.eps ==> Snap(L, v) == v
  {
  }

  lemma StepBack(L: Limits, d: real, v: real)
    requires Steady(L) && d >= 0.0 && v < 0.0
    ensures Choose(L, d, v) == SolveCase1(L, v) && Goes(L, d, v, d + Braking(L, v), 0.0)
  {
    Case1(L, v);
    BrakingTimes(L, v);
    SnapFacts(L);
  }

  lemma StepSlow(L: Limits, d: real, v: real)
    requires Steady(L) && d >= 0.0 && v > L.maxVel
    ensures Choose(L, d, v) == SolveCase3(L, v)
    ensures Goes(L, d, v, Max(d - (Braking(L, v) - Braking(L, L.maxVel)), 0.0), L.maxVel)
  {
    Case3(L, v);
    SnapFacts(L);
  }

  lemma StepStop(L: Limits, d: real, v: real)
    requires Steady(L) && 0.0 <= v <= L.maxVel && 0.0 <= d <= Braking(L, v) + L.eps
    ensures Choose(L, d, v) == SolveCase23(L, v)
    ensures Goes(L, d, v, Max(d - Braking(L, v), 0.0), 0.0)
    ensures Done(L, Max(d - Braking(L, v), 0.0), 0.0)
  {
    Case23(L, v);
    SnapFacts(L);
  }

  lemma StepCruise(L: Limits, d: real)
    requires Steady(L) && d > Braking(L, L.maxVel) + L.eps
    ensures Choose(L, d, L.maxVel) == SolveCase22(L, d, L.maxVel)
    ensures Goes(L, d, L.maxVel, Braking(L, L.maxVel), L.maxVel)
  {
    Case22(L, d);
    BrakingTimes(L, L.maxVel);
    SnapFacts(L);
  }

  lemma StepNear(L: Limits, d: real, v: real)
    requires Steady(L) && L.maxVel - L.eps < v < L.maxVel && d > Braking(L, v) + L.eps
    ensures var seg := SolveCase22(L, d, v);
            && Choose(L, d, v) == seg && Goes(L, d, v, d - DistanceOf(seg), L.maxVel)
            && Braking(L, L.maxVel) - (d - DistanceOf(seg)) <= L.eps * (L.maxVel / (2.0 * L.maxAcc))
  {
    BrakingTimes(L, v);
    Case22Below(L, d, v);
    SnapFacts(L);
  }

  lemma AccelChosen(L: Limits, d: real, v: real)
    requires Steady(L) && 0.0 <= v <= L.maxVel - L.eps && d > Braking(L, v) + L.eps
    ensures Choose(L, d, v) == SolveCase21(L, d, v) && d > L.eps
  {
    BrakingTimes(L, v);
  }

  /** Where acceleration leads: to the limit with more than the braking distance left, or to the peak. */
  lemma StepAccel(L: Limits, d: real, v: real)
    requires Steady(L) && 0.0 <= v <= L.maxVel - L.eps && d > Braking(L, v) + L.eps
    ensures Choose(L, d, v) == SolveCase21(L, d, v)
    ensures var w1 := Peak(L, d, v);
            && w1 > v
            && (w1 > L.maxVel ==> d + Braking(L, v) > 2.0 * Braking(L, L.maxVel)
                                  && Goes(L, d, v, d + Braking(L, v) - Braking(L, L.maxVel), L.maxVel))
            && (w1 <= L.maxVel ==> Goes(L, d, v, Braking(L, w1), Snap(L, w1)))
  {
    var w1 := Peak(L, d, v);
    AccelChosen(L, d, v);
    Case21(L, d, v);
    PeakBraking(L, d, v);
    assert Snap(L, L.maxVel) == L.maxVel;
    BrakingTimes(L, L.maxVel);
    BrakingTimes(L, w1);
    BrakingOrder(L, w1, L.maxVel);
  }

  lemma RootAbove(w: real, d: real, a: real, x: real, eps: real)
    requires w >= 0.0 && x >= 0.0 && 0.0 < eps <= a && d > eps && w * w == d * a + x
    ensures w > eps
  {
    PositiveProduct(d - eps, a);
    assert (d - eps) * a == d * a - eps * a;
    ProductMonotone(eps, a, eps);
    if w <= eps {
      ProductMonotone(w, eps, w);
      ProductMonotone(w, eps, eps);
    }
  }

  /** The only place that needs the acceleration not to be tiny. */
  lemma PeakAboveEps(L: Limits, d: real, v: real)
    requires Ok(L) && d > L.eps
    ensures Peak(L, d, v) > L.eps
  {
    SquareNonNegative(v);
    ProductMonotone(0.0, d, L.maxAcc);
    RootAbove(Peak(L, d, v), d, L.maxAcc, (v * v) / 2.0, L.eps);
  }

  /** The solver's loop, which has no counter that moves, ends all the same. */
  lemma RankDrops(L: Limits, d: real, v: real)
    requires Ok(L) && d >= 0.0 && !Done(L, d, v)
    ensures var seg := Choose(L, d, v);
            Rank(L, NextDist(d, seg), Snap(L, VelocityAtEnd(seg))) < Rank(L, d, v)
  {
    SnapFacts(L);
    if v < 0.0 {
      StepBack(L, d, v);
    } else if v > L.maxVel {
      StepSlow(L, d, v);
    } else if d <= Braking(L, v) + L.eps {
      StepStop(L, d, v);
    } else if v == L.maxVel {
      StepCruise(L, d);
    } else if v > L.maxVel - L.eps {
      StepNear(L, d, v);
    } else {
      AccelChosen(L, d, v);
      StepAccel(L, d, v);
      PeakAboveEps(L, d, v);
      BrakingOrder(L, Peak(L, d, v), L.maxVel);
    }
  }
}

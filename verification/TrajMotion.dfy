/** The solver as the code runs it, and what its segments mean over time. */
module TrajMotion {
  import opened Reals
  import opened TrajProfile
  import opened TrajLoop

  function Sgn(num: real): real {
    if num < 0.0 then -1.0 else 1.0
  }

  /** A number times its sign. */
  function Normalized(x: real): (r: real)
    ensures r == Abs(x)
  {
    x * Sgn(x)
  }

  /** A velocity along the direction of x. */
  function Towards(x: real, velocity: real): (r: real)
    ensures velocity == 0.0 ==> r == 0.0
  {
    velocity * Sgn(x)
  }

  lemma AtMostFour(L: Limits, d: real, v: real)
    requires Ok(L) && d >= 0.0
    ensures |Profile(L, d, v, 0.0)| <= 4
  {
    LeftAtMostRank(L, d, v);
  }

  function Duration(segs: seq<Segment>): real {
    if segs == [] then 0.0 else Duration(segs[..|segs| - 1]) + segs[|segs| - 1].duration
  }

  /** What one turn of the solver's loop leaves behind. */
  datatype Turn = Turn(seg: Segment, dist: real, vel: real, pos: real)

  function TurnOf(L: Limits, d: real, v: real, pos: real): Turn
    requires L.maxAcc > 0.0 && L.maxVel > 0.0
  {
    var seg := Choose(L, d, v);
    Turn(seg.(posStart := pos), NextDist(d, seg), NextVel(L, d, v), pos + DistanceOf(seg))
  }

  /**
   A segment turns round, slows down to the limit, brakes to rest, cruises until braking must start,
   or accelerates to the limit or to the peak from which braking just reaches the target.
   */
  ghost predicate Purpose(L: Limits, d: real, v: real, seg: Segment)
    requires Positive(L)
  {
    var B, V := Braking(L, v), L.maxVel;
    && seg.velStart == v
    && (v < 0.0 ==> Ramps(seg, L.maxAcc, 0.0, -B))
    && (v > V ==> Ramps(seg, -L.maxAcc, V, B - Braking(L, V)))
    && (0.0 <= v <= V && d <= B + L.eps ==> Ramps(seg, -L.maxAcc, 0.0, B))
    && (0.0 <= v <= V && d > B + L.eps && V - v < L.eps ==>
          seg.accel == 0.0 && VelocityAtEnd(seg) == v && (v == V ==> DistanceOf(seg) == d - Braking(L, V)))
    && (0.0 <= v <= V && d > B + L.eps && V - v >= L.eps ==>
          var w := Min(V, Peak(L, d, v));
          Ramps(seg, L.maxAcc, w, Braking(L, w) - B) && 2.0 * Braking(L, Peak(L, d, v)) == d + B)
  }

  ghost predicate Ramps(seg: Segment, accel: real, velEnd: real, distance: real) {
    seg.accel == accel && VelocityAtEnd(seg) == velEnd && DistanceOf(seg) == distance
  }

  lemma ChoosePurpose(L: Limits, d: real, v: real)
    requires Positive(L)
    ensures Purpose(L, d, v, Choose(L, d, v))
  {
    BrakingTimes(L, v);
    if v < 0.0 {
      Case1(L, v);
    } else if v > L.maxVel {
      Case3(L, v);
    } else if d <= Braking(L, v) + L.eps {
      Case23(L, v);
    } else if L.maxVel - v < L.eps {
      Case22(L, d);
    } else {
      Case21(L, d, v);
      PeakBraking(L, d, v);
    }
  }

  /** The segments so far and the profile from here on make up the whole. */
  ghost predicate Pending(L: Limits, d: real, v: real, pos: real, segs: seq<Segment>, whole: seq<Segment>) {
    Positive(L) && d >= 0.0 && CanStop(L, d, v) && segs + Profile(L, d, v, pos) == whole
  }

  lemma Unrolled(L: Limits, d: real, v: real, pos: real, t: Turn, segs: seq<Segment>, whole: seq<Segment>)
    requires Pending(L, d, v, pos, segs, whole) && !Done(L, d, v) && t == TurnOf(L, d, v, pos)
    ensures Pending(L, t.dist, t.vel, t.pos, segs + [t.seg], whole) && Left(L, t.dist, t.vel) < Left(L, d, v)
  {
    LeftNext(L, d, v);
    assert Profile(L, d, v, pos) == [t.seg] + Profile(L, t.dist, t.vel, t.pos);
    Shift(segs, t.seg, Profile(L, d, v, pos), Profile(L, t.dist, t.vel, t.pos));
  }

  class SingleDOF {
    const limits: Limits
    var tTotal: real
    var dirSign: real
    var segments: seq<Segment>

    /** Normalises position and velocity so that the target lies ahead, then solves. */
    constructor (initialPos: real, finalPos: real, initialVel: real, limits: Limits)
      requires Positive(limits) && CanStop(limits, Abs(finalPos - initialPos), Towards(finalPos - initialPos, initialVel))
      ensures this.limits == limits && dirSign == Sgn(finalPos - initialPos)
      ensures segments == Profile(limits, Abs(finalPos - initialPos), Towards(finalPos - initialPos, initialVel), 0.0)
      ensures tTotal == Duration(segments) && (Ok(limits) ==> |segments| <= 4)
    {
      this.limits := limits;
      tTotal, segments := 0.0, [];
      dirSign := Sgn(finalPos - initialPos);
      new;
      var totalDist, vel := Normalized(finalPos - initialPos), Towards(finalPos - initialPos, initialVel);
      SolveAll(totalDist, vel);
      if Ok(limits) {
        AtMostFour(limits, totalDist, vel);
      }
    }

    /** The guard on the iteration count, which stays 0, never fires; the loop ends exactly when CanStop holds. */
    method SolveAll(totalDist0: real, initialVel0: real)
      requires Positive(limits) && totalDist0 >= 0.0 && CanStop(limits, totalDist0, initialVel0) && segments == [] && tTotal == 0.0
      modifies this`tTotal, this`segments
      ensures segments == Profile(limits, totalDist0, initialVel0, 0.0) && tTotal == Duration(segments)
    {
      var totalDist, initialVel, posAccum := totalDist0, initialVel0, 0.0;
      while Abs(totalDist) > limits.eps || Abs(initialVel) > limits.eps
        invariant Pending(limits, totalDist, initialVel, posAccum, segments, Profile(limits, totalDist0, initialVel0, 0.0))
        invariant tTotal == Duration(segments)
        decreases Left(limits, totalDist, initialVel)
      {
        var t := OneTurn(totalDist, initialVel, posAccum);
        Unrolled(limits, totalDist, initialVel, posAccum, t, segments, Profile(limits, totalDist0, initialVel0, 0.0));
        tTotal := tTotal + t.seg.duration;
        totalDist, initialVel, posAccum := t.dist, t.vel, t.pos;
        segments := segments + [t.seg];
      }
    }

    /** The loop's body up to recording the segment. */
    method OneTurn(totalDist0: real, initialVel0: real, posAccum0: real) returns (t: Turn)
      requires Positive(limits)
      ensures t == TurnOf(limits, totalDist0, initialVel0, posAccum0)
    {
      var totalDist, initialVel, posAccum := totalDist0, initialVel0, posAccum0;
      var seg := ChooseSegment(totalDist, initialVel);
      var distanceCovered, segFinalVel := DistanceOf(seg), VelocityAtEnd(seg);
      seg := seg.(posStart := posAccum);
      posAccum := posAccum + distanceCovered;
      totalDist := totalDist - distanceCovered;
      initialVel := segFinalVel;
      if Abs(initialVel - limits.maxVel) < limits.eps {
        initialVel := limits.maxVel;
      }
      if Abs(initialVel) < limits.eps {
        initialVel := 0.0;
      }
      totalDist := Max(totalDist, 0.0);
      t := Turn(seg, totalDist, initialVel, posAccum);
    }

    /** What the next segment does, by the case it comes from. */
    method ChooseSegment(totalDist: real, initialVel: real) returns (seg: Segment)
      requires Positive(limits)
      ensures seg == Choose(limits, totalDist, initialVel)
      ensures Purpose(limits, totalDist, initialVel, seg)
    {
      ChoosePurpose(limits, totalDist, initialVel);
      var brakingDist := Braking(limits, initialVel);
      if initialVel < 0.0 {
        seg := SolveCase1(limits, initialVel);
      } else if initialVel > limits.maxVel {
        seg := SolveCase3(limits, initialVel);
      } else if Abs(initialVel - limits.maxVel) < limits.eps && totalDist > brakingDist + limits.eps {
        seg := SolveCase22(limits, totalDist, initialVel);
      } else if initialVel < limits.maxVel && totalDist > brakingDist + limits.eps {
        seg := SolveCase21(limits, totalDist, initialVel);
      } else {
        seg := SolveCase23(limits, initialVel);
      }
    }

    /** The robot's velocity at time t; the sign undoes the normalisation. */
    method VelocityAt(t: real) returns (v: real)
      ensures v == dirSign * VelocityFrom(segments, 0.0, t)
    {
      var normalized := FindVelocity(segments, t);
      v := dirSign * normalized;
    }

    method PositionAt(t: real) returns (p: real)
      requires Chained(segments, 0.0)
      ensures p == dirSign * PositionFrom(segments, 0.0, 0.0, t)
    {
      var normalized := FindPosition(segments, t);
      p := dirSign * normalized;
    }
  }

  /** The loop that looks for the segment in force at time t. */
  method FindVelocity(segments: seq<Segment>, t: real) returns (v: real)
    ensures v == VelocityFrom(segments, 0.0, t)
  {
    var tElapsed := 0.0;
    var i := 0;
    assert segments[0..] == segments;
    while i < |segments|
      invariant 0 <= i <= |segments|
      invariant VelocityFrom(segments[i..], tElapsed, t) == VelocityFrom(segments, 0.0, t)
    {
      var seg := segments[i];
      if t <= tElapsed + seg.duration {
        var dt := t - tElapsed;
        return seg.velStart + seg.accel * dt;
      }
      tElapsed := tElapsed + seg.duration;
      assert segments[i..][1..] == segments[i + 1..];
      i := i + 1;
    }
    v := 0.0;
  }

  method FindPosition(segments: seq<Segment>, t: real) returns (p: real)
    requires Chained(segments, 0.0)
    ensures p == PositionFrom(segments, 0.0, 0.0, t)
  {
    var tElapsed := 0.0;
    var i := 0;
    ghost var pos := 0.0;
    assert segments[0..] == segments;
    while i < |segments|
      invariant 0 <= i <= |segments| && Chained(segments[i..], pos)
      invariant pos == if i == 0 then 0.0 else segments[i - 1].posStart + DistanceOf(segments[i - 1])
      invariant PositionFrom(segments[i..], tElapsed, pos, t) == PositionFrom(segments, 0.0, 0.0, t)
    {
      var seg := segments[i];
      if t <= tElapsed + seg.duration {
        return Inside(seg, t - tElapsed);
      }
      tElapsed := tElapsed + seg.duration;
      pos := pos + DistanceOf(seg);
      assert segments[i..][1..] == segments[i + 1..];
      i := i + 1;
    }
    if segments != [] {
      var last := segments[|segments| - 1];
      return last.posStart + DistanceOf(last);
    }
    p := 0.0;
  }

  lemma Shift(done: seq<Segment>, seg: Segment, rest: seq<Segment>, tail: seq<Segment>)
    requires rest == [seg] + tail
    ensures done + rest == (done + [seg]) + tail
    ensures (done + [seg])[..|done|] == done
  {
  }

  // ----- velocity and position over time -----

  function Inside(seg: Segment, dt: real): real {
    seg.posStart + seg.velStart * dt + 0.5 * seg.accel * dt * dt
  }

  /** Normalised velocity at time t, the first segment starting at the elapsed time; at rest past the end. */
  function VelocityFrom(segs: seq<Segment>, elapsed: real, t: real): real {
    if segs == [] then 0.0
    else if t <= elapsed + segs[0].duration then segs[0].velStart + segs[0].accel * (t - elapsed)
    else VelocityFrom(segs[1..], elapsed + segs[0].duration, t)
  }

  /** Normalised position; past the end the landing position. */
  function PositionFrom(segs: seq<Segment>, elapsed: real, pos: real, t: real): real {
    if segs == [] then pos
    else if t <= elapsed + segs[0].duration then Inside(segs[0], t - elapsed)
    else PositionFrom(segs[1..], elapsed + segs[0].duration, pos + DistanceOf(segs[0]), t)
  }

  /** Each segment starts where the one before it ends. */
  ghost predicate Chained(segs: seq<Segment>, pos: real) {
    segs == [] || (segs[0].posStart == pos && Chained(segs[1..], pos + DistanceOf(segs[0])))
  }

  /** Non-negative durations, the three accelerations, and velocities between the bounds. */
  ghost predicate Proper(segs: seq<Segment>, a: real, lo: real, hi: real) {
    segs == [] || (ProperSegment(segs[0], a, lo, hi) && Proper(segs[1..], a, lo, hi))
  }

  ghost predicate ProperSegment(seg: Segment, a: real, lo: real, hi: real) {
    && seg.duration >= 0.0 && (seg.accel == a || seg.accel == 0.0 || seg.accel == -a)
    && lo <= seg.velStart <= hi && lo <= VelocityAtEnd(seg) <= hi
  }

  /** Not a start just below the speed limit with too little room: there the code cruises for a negative time. */
  ghost predicate Cruisable(L: Limits, d: real, v: real)
    requires L.maxAcc > 0.0
  {
    !(0.0 <= v && L.maxVel - L.eps < v < L.maxVel && Braking(L, v) + L.eps < d < Braking(L, L.maxVel))
  }

  /** How long case 2.2 cruises, from any velocity. */
  lemma CruiseTime(L: Limits, d: real, v: real)
    requires L.maxAcc > 0.0 && L.maxVel > 0.0
    ensures SolveCase22(L, d, v).duration >= 0.0 <==> d >= Braking(L, L.maxVel)
    ensures VelocityAtEnd(SolveCase22(L, d, v)) == v
  {
    var t := SolveCase22(L, d, v).duration;
    QuotientTimes(d, L.maxVel);
    HalfBraking(L);
    assert t * L.maxVel == (d / L.maxVel) * L.maxVel - L.maxVel * (L.maxVel / (2.0 * L.maxAcc));
    CancelFactor(t, 0.0, L.maxVel);
    CancelFactor(0.0, t, L.maxVel);
  }

  lemma ChooseProper(L: Limits, d: real, v: real, lo: real, hi: real)
    requires Positive(L) && d >= 0.0 && lo <= 0.0 && lo <= v <= hi && L.maxVel <= hi
    ensures ProperSegment(Choose(L, d, v), L.maxAcc, lo, hi) <==> Cruisable(L, d, v)
  {
    BrakingTimes(L, v);
    if v < 0.0 {
      Case1(L, v);
    } else if v > L.maxVel {
      Case3(L, v);
    } else if d <= Braking(L, v) + L.eps {
      Case23(L, v);
    } else if v > L.maxVel - L.eps {
      CruiseTime(L, d, v);
    } else {
      Case21(L, d, v);
    }
  }

  lemma {:induction false} ProfileProper(L: Limits, d: real, v: real, pos: real, lo: real, hi: real)
    requires Positive(L) && d >= 0.0 && CanStop(L, d, v) && lo <= 0.0 && lo <= v <= hi && L.maxVel <= hi
    ensures Proper(Profile(L, d, v, pos), L.maxAcc, lo, hi) <==> Done(L, d, v) || Cruisable(L, d, v)
    decreases Left(L, d, v)
  {
    if !Done(L, d, v) {
      var seg := Choose(L, d, v);
      var d2, v2 := NextDist(d, seg), NextVel(L, d, v);
      LeftNext(L, d, v);
      ChooseProper(L, d, v, lo, hi);
      NextCruises(L, d, v);
      ProfileProper(L, d2, v2, pos + DistanceOf(seg), lo, hi);
      Moved(seg, pos);
    }
  }

  /** Only the first segment can cruise for a negative time. */
  lemma NextCruises(L: Limits, d: real, v: real)
    requires Positive(L) && d >= 0.0 && CanStop(L, d, v) && !Done(L, d, v)
    ensures var d2, v2 := NextDist(d, Choose(L, d, v)), NextVel(L, d, v);
            && (Done(L, d2, v2) || Cruisable(L, d2, v2)) && (v2 == 0.0 || v2 == L.maxVel || v <= v2 <= L.maxVel)
  {
    if L.maxVel < L.eps {
      SlowLimitsRest(L, d, v);
      OneTurn(L, d, v);
    } else {
      SnapOutcome(L, VelocityAtEnd(Choose(L, d, v)));
      EndBetween(L, d, v);
    }
  }

  lemma EndBetween(L: Limits, d: real, v: real)
    requires Steady(L) && d >= 0.0
    ensures var u := VelocityAtEnd(Choose(L, d, v));
            u == 0.0 || u == L.maxVel || (v <= u <= L.maxVel && (u == v ==> L.maxVel - v < L.eps))
  {
    if v < 0.0 {
      Case1(L, v);
    } else if v > L.maxVel {
      Case3(L, v);
    } else if d <= Braking(L, v) + L.eps {
      Case23(L, v);
    } else if L.maxVel - v < L.eps {
      CruiseTime(L, d, v);
    } else {
      Case21(L, d, v);
    }
  }

  lemma SnapOutcome(L: Limits, u: real)
    requires Positive(L)
    ensures Snap(L, u) == 0.0 || Snap(L, u) == L.maxVel || (Snap(L, u) == u && !(L.maxVel - L.eps < u < L.maxVel + L.eps))
  {
  }

  /** Where a segment starts does not matter to what it does. */
  lemma Moved(seg: Segment, pos: real)
    ensures DistanceOf(seg.(posStart := pos)) == DistanceOf(seg) && VelocityAtEnd(seg.(posStart := pos)) == VelocityAtEnd(seg)
  {
  }

  lemma {:induction false} ProfileChained(L: Limits, d: real, v: real, pos: real)
    requires Positive(L) && d >= 0.0 && CanStop(L, d, v)
    ensures Chained(Profile(L, d, v, pos), pos)
    decreases Left(L, d, v)
  {
    if !Done(L, d, v) {
      LeftNext(L, d, v);
      var seg := Choose(L, d, v);
      ProfileChained(L, NextDist(d, seg), NextVel(L, d, v), pos + DistanceOf(seg));
      Moved(seg, pos);
    }
  }

  /** A profile that moves at all ends one Land further on, with the final velocity. */
  lemma {:induction false} ProfileEnds(L: Limits, d: real, v: real, pos: real)
    requires Positive(L) && d >= 0.0 && CanStop(L, d, v) && !Done(L, d, v)
    ensures var segs := Profile(L, d, v, pos); var last := segs[|segs| - 1];
            VelocityAtEnd(last) == Final(L, d, v) && last.posStart + DistanceOf(last) == pos + Land(L, d, v)
    decreases Left(L, d, v)
  {
    LeftNext(L, d, v);
    var seg := Choose(L, d, v);
    var d2, v2 := NextDist(d, seg), NextVel(L, d, v);
    Moved(seg, pos);
    if Done(L, d2, v2) {
      assert Profile(L, d, v, pos) == [seg.(posStart := pos)];
    } else {
      ProfileEnds(L, d2, v2, pos + DistanceOf(seg));
    }
  }

  lemma VelocityBetween(seg: Segment, dt: real, lo: real, hi: real)
    requires 0.0 <= dt <= seg.duration && lo <= seg.velStart <= hi && lo <= VelocityAtEnd(seg) <= hi
    ensures lo <= seg.velStart + seg.accel * dt <= hi
  {
    LineBetween(seg.velStart, seg.accel, dt, seg.duration, VelocityAtEnd(seg), lo, hi);
  }

  lemma LineBetween(v: real, a: real, s: real, t: real, w: real, lo: real, hi: real)
    requires 0.0 <= s <= t && w == v + a * t && lo <= v <= hi && lo <= w <= hi
    ensures lo <= v + a * s <= hi
  {
    if a >= 0.0 {
      ProductMonotone(s, t, a);
      ProductMonotone(0.0, s, a);
    } else {
      ProductMonotone(s, t, -a);
      ProductMonotone(0.0, s, -a);
      assert s * (-a) == -(a * s) && t * (-a) == -(a * t);
    }
  }

  lemma {:induction false} VelocityBounds(segs: seq<Segment>, elapsed: real, t: real, a: real, lo: real, hi: real)
    requires Proper(segs, a, lo, hi) && lo <= 0.0 <= hi && elapsed <= t
    ensures lo <= VelocityFrom(segs, elapsed, t) <= hi
  {
    if segs != [] {
      if t <= elapsed + segs[0].duration {
        VelocityBetween(segs[0], t - elapsed, lo, hi);
      } else {
        VelocityBounds(segs[1..], elapsed + segs[0].duration, t, a, lo, hi);
      }
    }
  }

  /** Within a segment the position changes by the time times the velocity halfway. */
  lemma InsideDifference(seg: Segment, s: real, t: real)
    ensures Inside(seg, t) - Inside(seg, s) == (t - s) * (seg.velStart + seg.accel * ((s + t) / 2.0))
  {
  }

  lemma InsideLipschitz(seg: Segment, s: real, t: real, m: real)
    requires 0.0 <= s <= t <= seg.duration && -m <= seg.velStart <= m && -m <= VelocityAtEnd(seg) <= m
    ensures Abs(Inside(seg, t) - Inside(seg, s)) <= (t - s) * m
  {
    var v := seg.velStart + seg.accel * ((s + t) / 2.0);
    VelocityBetween(seg, (s + t) / 2.0, -m, m);
    InsideDifference(seg, s, t);
    ProductMonotone(v, m, t - s);
    ProductMonotone(-m, v, t - s);
  }

  lemma StartsAt(segs: seq<Segment>, elapsed: real, pos: real, a: real, lo: real, hi: real)
    requires Chained(segs, pos) && Proper(segs, a, lo, hi)
    ensures PositionFrom(segs, elapsed, pos, elapsed) == pos
  {
  }

  lemma EndsAt(seg: Segment)
    ensures Inside(seg, seg.duration) == seg.posStart + DistanceOf(seg) && Inside(seg, 0.0) == seg.posStart
  {
  }

  lemma RatesAdd(p0: real, p1: real, p2: real, s: real, mid: real, t: real, m: real)
    requires Abs(p1 - p0) <= (mid - s) * m && Abs(p2 - p1) <= (t - mid) * m
    ensures Abs(p2 - p0) <= (t - s) * m
  {
    assert (t - mid) * m + (mid - s) * m == (t - s) * m;
  }

  /** The position changes by no more than the top speed allows between two times. */
  ghost predicate Slow(segs: seq<Segment>, elapsed: real, pos: real, s: real, t: real, m: real) {
    Abs(PositionFrom(segs, elapsed, pos, t) - PositionFrom(segs, elapsed, pos, s)) <= (t - s) * m
  }

  lemma SlowAtRest(elapsed: real, pos: real, s: real, t: real, m: real)
    requires s <= t && m >= 0.0
    ensures Slow([], elapsed, pos, s, t, m)
  {
  }

  lemma SlowInside(segs: seq<Segment>, elapsed: real, pos: real, s: real, t: real, a: real, m: real)
    requires segs != [] && Proper(segs, a, -m, m) && elapsed <= s <= t <= elapsed + segs[0].duration
    ensures Slow(segs, elapsed, pos, s, t, m)
  {
    InsideLipschitz(segs[0], s - elapsed, t - elapsed, m);
  }

  /** At a joint both segments agree on the position. */
  lemma Joint(segs: seq<Segment>, elapsed: real, pos: real, a: real, m: real)
    requires segs != [] && Chained(segs, pos) && Proper(segs, a, -m, m)
    ensures var mid, landed := elapsed + segs[0].duration, pos + DistanceOf(segs[0]);
            PositionFrom(segs, elapsed, pos, mid) == landed == PositionFrom(segs[1..], mid, landed, mid)
  {
    EndsAt(segs[0]);
    StartsAt(segs[1..], elapsed + segs[0].duration, pos + DistanceOf(segs[0]), a, -m, m);
  }

  lemma Later(segs: seq<Segment>, elapsed: real, pos: real, t: real)
    requires segs != [] && elapsed + segs[0].duration < t
    ensures PositionFrom(segs, elapsed, pos, t) == PositionFrom(segs[1..], elapsed + segs[0].duration, pos + DistanceOf(segs[0]), t)
  {
  }

  lemma SlowThen(segs: seq<Segment>, elapsed: real, pos: real, s: real, mid: real, t: real, m: real)
    requires Slow(segs, elapsed, pos, s, mid, m) && Slow(segs, elapsed, pos, mid, t, m)
    ensures Slow(segs, elapsed, pos, s, t, m)
  {
    var p0, p1, p2 := PositionFrom(segs, elapsed, pos, s), PositionFrom(segs, elapsed, pos, mid), PositionFrom(segs, elapsed, pos, t);
    RatesAdd(p0, p1, p2, s, mid, t, m);
  }

  lemma SlowFromJoint(segs: seq<Segment>, elapsed: real, pos: real, t: real, a: real, m: real)
    requires segs != [] && Chained(segs, pos) && Proper(segs, a, -m, m) && elapsed + segs[0].duration < t
    requires Slow(segs[1..], elapsed + segs[0].duration, pos + DistanceOf(segs[0]), elapsed + segs[0].duration, t, m)
    ensures Slow(segs, elapsed, pos, elapsed + segs[0].duration, t, m)
  {
    Joint(segs, elapsed, pos, a, m);
    Later(segs, elapsed, pos, t);
  }

  lemma SlowLater(segs: seq<Segment>, elapsed: real, pos: real, s: real, t: real, m: real)
    requires segs != [] && elapsed + segs[0].duration < s <= t
    requires Slow(segs[1..], elapsed + segs[0].duration, pos + DistanceOf(segs[0]), s, t, m)
    ensures Slow(segs, elapsed, pos, s, t, m)
  {
  }

  /** Continuity with a rate, over any number of segments and past the end. */
  lemma {:induction false} PositionLipschitz(segs: seq<Segment>, elapsed: real, pos: real, s: real, t: real, a: real, m: real)
    requires Chained(segs, pos) && Proper(segs, a, -m, m) && elapsed <= s <= t && m >= 0.0
    ensures Slow(segs, elapsed, pos, s, t, m)
    decreases |segs|
  {
    if segs == [] {
      SlowAtRest(elapsed, pos, s, t, m);
    } else {
      var mid, landed := elapsed + segs[0].duration, pos + DistanceOf(segs[0]);
      if t <= mid {
        SlowInside(segs, elapsed, pos, s, t, a, m);
      } else if s <= mid {
        PositionLipschitz(segs[1..], mid, landed, mid, t, a, m);
        SlowInside(segs, elapsed, pos, s, mid, a, m);
        SlowFromJoint(segs, elapsed, pos, t, a, m);
        SlowThen(segs, elapsed, pos, s, mid, t, m);
      } else {
        PositionLipschitz(segs[1..], mid, landed, s, t, a, m);
        SlowLater(segs, elapsed, pos, s, t, m);
      }
    }
  }

  // ----- the profile a robot follows -----

  /** Exactly the cruisable starts give a profile without negative times, whose velocities keep within the bounds. */
  lemma ProfileShape(L: Limits, d: real, v: real)
    requires Positive(L) && d >= 0.0 && CanStop(L, d, v)
    ensures Chained(Profile(L, d, v, 0.0), 0.0)
    ensures Proper(Profile(L, d, v, 0.0), L.maxAcc, Min(v, 0.0), Max(v, L.maxVel)) <==> Done(L, d, v) || Cruisable(L, d, v)
  {
    ProfileChained(L, d, v, 0.0);
    ProfileProper(L, d, v, 0.0, Min(v, 0.0), Max(v, L.maxVel));
  }

  lemma VelocityInRange(L: Limits, d: real, v: real, t: real)
    requires Positive(L) && d >= 0.0 && CanStop(L, d, v) && Cruisable(L, d, v) && t >= 0.0
    ensures Min(v, 0.0) <= VelocityFrom(Profile(L, d, v, 0.0), 0.0, t) <= Max(v, L.maxVel)
  {
    ProfileProper(L, d, v, 0.0, Min(v, 0.0), Max(v, L.maxVel));
    VelocityBounds(Profile(L, d, v, 0.0), 0.0, t, L.maxAcc, Min(v, 0.0), Max(v, L.maxVel));
  }

  lemma PositionContinuous(L: Limits, d: real, v: real, s: real, t: real)
    requires Positive(L) && d >= 0.0 && CanStop(L, d, v) && Cruisable(L, d, v) && 0.0 <= s <= t
    ensures Slow(Profile(L, d, v, 0.0), 0.0, 0.0, s, t, Max(Abs(v), L.maxVel))
  {
    var m := Max(Abs(v), L.maxVel);
    ProfileChained(L, d, v, 0.0);
    ProfileProper(L, d, v, 0.0, -m, m);
    PositionLipschitz(Profile(L, d, v, 0.0), 0.0, 0.0, s, t, L.maxAcc, m);
  }

  /** A start within the tolerance below the limit with a little too little room: cruising for a negative time. */
  lemma NotCruisable(sqrt: real -> real)
    requires IsSqrt(sqrt)
    ensures var L := Limits(10.0, 1.0, 1.0, sqrt); Ok(L) && Choose(L, 47.0, 9.5).duration < 0.0
  {
    var L := Limits(10.0, 1.0, 1.0, sqrt);
    assert Braking(L, 9.5) == 45.125;
    assert Choose(L, 47.0, 9.5) == SolveCase22(L, 47.0, 9.5);
  }
}

/**
 Velocity and position of a profile as curves over time: that the one is the rate of the other,
 where the curve begins and what happens at the joints.
 */
module TrajCurve {
  import opened Reals
  import opened TrajProfile
  import opened TrajLoop
  import opened TrajMotion

  // ----- which segment is in force -----

  /** How long after the first segment the i-th begins. */
  function Begins(segs: seq<Segment>, i: nat): real
    requires i <= |segs|
  {
    if i == 0 then 0.0 else segs[0].duration + Begins(segs[1..], i - 1)
  }

  ghost predicate Forwards(segs: seq<Segment>) {
    forall i :: 0 <= i < |segs| ==> segs[i].duration >= 0.0
  }

  lemma {:induction false} ProperForwards(segs: seq<Segment>, a: real, lo: real, hi: real)
    requires Proper(segs, a, lo, hi)
    ensures Forwards(segs)
  {
    if segs != [] {
      ProperForwards(segs[1..], a, lo, hi);
      forall i | 0 <= i < |segs| ensures segs[i].duration >= 0.0 {
        if i > 0 {
          assert segs[i] == segs[1..][i - 1];
        }
      }
    }
  }

  lemma {:induction false} BeginsLater(segs: seq<Segment>, i: nat)
    requires Forwards(segs) && i <= |segs|
    ensures Begins(segs, i) >= 0.0
  {
    if i > 0 {
      BeginsLater(segs[1..], i - 1);
    }
  }

  /** At time t segment i is the one the code finds: after its beginning, or at it for the first, up to its end. */
  ghost predicate InForce(segs: seq<Segment>, elapsed: real, i: nat, t: real) {
    && i < |segs|
    && (elapsed + Begins(segs, i) < t || (i == 0 && elapsed == t))
    && t <= elapsed + Begins(segs, i) + segs[i].duration
  }

  function VelocityInside(seg: Segment, dt: real): real {
    seg.velStart + seg.accel * dt
  }

  /** Then velocity and position are those of uniform acceleration from the segment's own start. */
  lemma {:induction false} CurveInside(segs: seq<Segment>, elapsed: real, pos: real, i: nat, t: real)
    requires Forwards(segs) && InForce(segs, elapsed, i, t)
    ensures var dt := t - (elapsed + Begins(segs, i));
            && VelocityFrom(segs, elapsed, t) == VelocityInside(segs[i], dt)
            && PositionFrom(segs, elapsed, pos, t) == Inside(segs[i], dt)
  {
    if i > 0 {
      BeginsLater(segs[1..], i - 1);
      CurveInside(segs[1..], elapsed + segs[0].duration, pos + DistanceOf(segs[0]), i - 1, t);
    }
  }

  // ----- velocity is the rate of position -----

  lemma HalfSum(v: real, a: real, s: real, t: real)
    ensures v + a * ((s + t) / 2.0) == ((v + a * s) + (v + a * t)) / 2.0
  {
  }

  /** The way covered in that time at the mean of two velocities. */
  function AtMean(dt: real, vs: real, vt: real): real {
    dt * ((vs + vt) / 2.0)
  }

  /** Between two times in one segment the way is the time times the mean of the two velocities. */
  lemma MeanVelocity(segs: seq<Segment>, elapsed: real, pos: real, i: nat, s: real, t: real)
    requires Forwards(segs) && InForce(segs, elapsed, i, s) && InForce(segs, elapsed, i, t)
    ensures PositionFrom(segs, elapsed, pos, t) - PositionFrom(segs, elapsed, pos, s) ==
            AtMean(t - s, VelocityFrom(segs, elapsed, s), VelocityFrom(segs, elapsed, t))
  {
    var start := elapsed + Begins(segs, i);
    CurveInside(segs, elapsed, pos, i, s);
    CurveInside(segs, elapsed, pos, i, t);
    Trapeze(segs[i], s - start, t - start);
    assert (t - start) - (s - start) == t - s;
  }

  lemma Trapeze(seg: Segment, s: real, t: real)
    ensures Inside(seg, t) - Inside(seg, s) == AtMean(t - s, VelocityInside(seg, s), VelocityInside(seg, t))
  {
    InsideDifference(seg, s, t);
    HalfSum(seg.velStart, seg.accel, s, t);
    assert Product(t - s, seg.velStart + seg.accel * ((s + t) / 2.0)) ==
           Product(t - s, (VelocityInside(seg, s) + VelocityInside(seg, t)) / 2.0);
  }

  /** And the velocity changes at the segment's acceleration. */
  lemma ConstantAcceleration(segs: seq<Segment>, elapsed: real, i: nat, s: real, t: real)
    requires Forwards(segs) && InForce(segs, elapsed, i, s) && InForce(segs, elapsed, i, t)
    ensures VelocityFrom(segs, elapsed, t) - VelocityFrom(segs, elapsed, s) == Product(t - s, segs[i].accel)
  {
    var start := elapsed + Begins(segs, i);
    CurveInside(segs, elapsed, 0.0, i, s);
    CurveInside(segs, elapsed, 0.0, i, t);
    Slope(segs[i], s - start, t - start);
    assert (t - start) - (s - start) == t - s;
  }

  lemma Slope(seg: Segment, s: real, t: real)
    ensures VelocityInside(seg, t) - VelocityInside(seg, s) == Product(t - s, seg.accel)
  {
  }

  /** At the end of a segment that lasts it has that segment's final velocity. */
  lemma EndVelocity(segs: seq<Segment>, elapsed: real, i: nat)
    requires Forwards(segs) && i < |segs| && (i == 0 || segs[i].duration > 0.0)
    ensures VelocityFrom(segs, elapsed, elapsed + Begins(segs, i) + segs[i].duration) == VelocityAtEnd(segs[i])
  {
    var start := elapsed + Begins(segs, i);
    var end := start + segs[i].duration;
    CurveInside(segs, elapsed, 0.0, i, end);
    assert end - start == segs[i].duration;
  }

  // ----- the joints -----

  /** How far the velocity may jump where one segment follows another, or where the last one ends and the robot counts as standing. */
  ghost predicate Joined(segs: seq<Segment>, gap: real) {
    segs == [] || (Joined(segs[1..], gap) && Abs(FirstVelocity(segs[1..]) - VelocityAtEnd(segs[0])) <= gap)
  }

  function FirstVelocity(segs: seq<Segment>): real {
    if segs == [] then 0.0 else segs[0].velStart
  }

  /** Snapping moves a velocity by less than two tolerances; what counts as standing is slower than that. */
  lemma SnapJump(L: Limits, u: real)
    requires Positive(L)
    ensures Abs(Snap(L, u) - u) <= 2.0 * L.eps && (Abs(Snap(L, u)) <= L.eps ==> Abs(u) <= 2.0 * L.eps)
    ensures L.maxVel >= L.eps ==> Abs(Snap(L, u) - u) <= L.eps
  {
  }

  lemma {:induction false} ProfileJoined(L: Limits, d: real, v: real, pos: real)
    requires Positive(L) && d >= 0.0 && CanStop(L, d, v)
    ensures Joined(Profile(L, d, v, pos), 2.0 * L.eps)
    ensures !Done(L, d, v) ==> FirstVelocity(Profile(L, d, v, pos)) == v
    decreases Left(L, d, v)
  {
    if !Done(L, d, v) {
      LeftNext(L, d, v);
      var seg := Choose(L, d, v);
      var d2, v2 := NextDist(d, seg), NextVel(L, d, v);
      ProfileJoined(L, d2, v2, pos + DistanceOf(seg));
      SnapJump(L, VelocityAtEnd(seg));
      StartsWith(L, d, v);
      ProfileCons(L, d, v, pos);
      JoinedCons(seg.(posStart := pos), Profile(L, d2, v2, pos + DistanceOf(seg)), VelocityAtEnd(seg), 2.0 * L.eps);
    }
  }

  lemma ProfileCons(L: Limits, d: real, v: real, pos: real)
    requires Positive(L) && d >= 0.0 && CanStop(L, d, v) && !Done(L, d, v)
    ensures var seg := Choose(L, d, v); var d2, v2 := NextDist(d, seg), NextVel(L, d, v);
            && CanStop(L, d2, v2) && VelocityAtEnd(seg.(posStart := pos)) == VelocityAtEnd(seg)
            && Profile(L, d, v, pos) == [seg.(posStart := pos)] + Profile(L, d2, v2, pos + DistanceOf(seg))
  {
    LeftNext(L, d, v);
    Moved(Choose(L, d, v), pos);
  }

  lemma JoinedCons(seg: Segment, rest: seq<Segment>, u: real, gap: real)
    requires Joined(rest, gap) && VelocityAtEnd(seg) == u && Abs(FirstVelocity(rest) - u) <= gap
    ensures Joined([seg] + rest, gap)
  {
    assert ([seg] + rest)[1..] == rest;
  }

  lemma StartsWith(L: Limits, d: real, v: real)
    requires Positive(L)
    ensures Choose(L, d, v).velStart == v
  {
  }

  /** The jumps allowed between two times: one gap for every joint there, the end included. */
  function Jumps(segs: seq<Segment>, elapsed: real, s: real, t: real, gap: real): real {
    if segs == [] then 0.0
    else
      var mid := elapsed + segs[0].duration;
      (if s <= mid < t then gap else 0.0) + Jumps(segs[1..], mid, s, t, gap)
  }

  lemma {:induction false} JumpsFrom(segs: seq<Segment>, elapsed: real, s: real, t: real, gap: real)
    requires Forwards(segs) && s <= elapsed
    ensures Jumps(segs, elapsed, s, t, gap) == Jumps(segs, elapsed, elapsed, t, gap)
  {
    if segs != [] {
      var mid := elapsed + segs[0].duration;
      JumpsFrom(segs[1..], mid, s, t, gap);
      JumpsFrom(segs[1..], mid, elapsed, t, gap);
    }
  }

  lemma {:induction false} NoJumps(segs: seq<Segment>, elapsed: real, s: real, t: real, gap: real)
    requires Forwards(segs) && t <= elapsed
    ensures Jumps(segs, elapsed, s, t, gap) == 0.0
  {
    if segs != [] {
      NoJumps(segs[1..], elapsed + segs[0].duration, s, t, gap);
    }
  }

  lemma AccelBetween(a: real, accel: real, dt: real)
    requires dt >= 0.0 && a >= 0.0 && (accel == a || accel == 0.0 || accel == -a)
    ensures Abs(Product(dt, accel)) <= Product(a, dt)
  {
    ProductMonotone(0.0, dt, a);
    assert dt * (-a) == -(a * dt);
  }

  lemma AtFirst(segs: seq<Segment>, elapsed: real)
    requires Forwards(segs)
    ensures VelocityFrom(segs, elapsed, elapsed) == FirstVelocity(segs)
  {
  }

  /** From x to y at acceleration a in that time, but for jumps. */
  predicate Gains(x: real, y: real, a: real, dt: real, jumps: real) {
    Abs(y - x) <= Product(a, dt) + jumps
  }

  /** Within the first segment. */
  lemma RateInside(segs: seq<Segment>, elapsed: real, s: real, t: real, a: real, lo: real, hi: real)
    requires segs != [] && Proper(segs, a, lo, hi) && a >= 0.0 && elapsed <= s <= t <= elapsed + segs[0].duration
    ensures Gains(VelocityFrom(segs, elapsed, s), VelocityFrom(segs, elapsed, t), a, t - s, 0.0)
  {
    Slope(segs[0], s - elapsed, t - elapsed);
    assert (t - elapsed) - (s - elapsed) == t - s;
    AccelBetween(a, segs[0].accel, t - s);
  }

  lemma GainsMeet(x: real, y: real, w: real, z: real, a: real, s: real, mid: real, t: real, gap: real, jumps: real)
    requires Gains(x, y, a, mid - s, 0.0) && Abs(w - y) <= gap && Gains(w, z, a, t - mid, jumps)
    ensures Gains(x, z, a, t - s, gap + jumps)
  {
    DistributePlus(a, mid - s, t - mid);
    assert Product(a, mid - s) + Product(a, t - mid) == Product(a, t - s);
  }

  /** Between two times the velocity changes by no more than the acceleration allows, and a jump for each joint. */
  lemma {:induction false} VelocityRate(segs: seq<Segment>, elapsed: real, s: real, t: real, a: real, lo: real, hi: real, gap: real)
    requires Proper(segs, a, lo, hi) && Joined(segs, gap) && a >= 0.0 && elapsed <= s <= t
    ensures Gains(VelocityFrom(segs, elapsed, s), VelocityFrom(segs, elapsed, t), a, t - s, Jumps(segs, elapsed, s, t, gap))
    decreases |segs|
  {
    ProperForwards(segs, a, lo, hi);
    if segs == [] {
      AccelBetween(a, 0.0, t - s);
    } else {
      var mid := elapsed + segs[0].duration;
      if t <= mid {
        RateInside(segs, elapsed, s, t, a, lo, hi);
        NoJumps(segs[1..], mid, s, t, gap);
      } else if s <= mid {
        ProperForwards(segs[1..], a, lo, hi);
        RateInside(segs, elapsed, s, mid, a, lo, hi);
        AtFirst(segs[1..], mid);
        EndOfFirst(segs, elapsed);
        VelocityRate(segs[1..], mid, mid, t, a, lo, hi, gap);
        JumpsFrom(segs[1..], mid, s, t, gap);
        GainsMeet(VelocityFrom(segs, elapsed, s), VelocityFrom(segs, elapsed, mid), FirstVelocity(segs[1..]), VelocityFrom(segs, elapsed, t),
                  a, s, mid, t, gap, Jumps(segs[1..], mid, mid, t, gap));
      } else {
        VelocityRate(segs[1..], mid, s, t, a, lo, hi, gap);
      }
    }
  }

  lemma EndOfFirst(segs: seq<Segment>, elapsed: real)
    requires segs != [] && Forwards(segs)
    ensures VelocityFrom(segs, elapsed, elapsed + segs[0].duration) == VelocityAtEnd(segs[0])
  {
  }

  // ----- the profile a robot follows -----

  /** For every start without a negative cruise: acceleration within the limit, but for snapping at the joints. */
  lemma ProfileRate(L: Limits, d: real, v: real, s: real, t: real)
    requires Positive(L) && d >= 0.0 && CanStop(L, d, v) && Cruisable(L, d, v) && 0.0 <= s <= t
    ensures var segs := Profile(L, d, v, 0.0);
            Gains(VelocityFrom(segs, 0.0, s), VelocityFrom(segs, 0.0, t), L.maxAcc, t - s, Jumps(segs, 0.0, s, t, 2.0 * L.eps))
  {
    ProfileProper(L, d, v, 0.0, Min(v, 0.0), Max(v, L.maxVel));
    ProfileJoined(L, d, v, 0.0);
    VelocityRate(Profile(L, d, v, 0.0), 0.0, s, t, L.maxAcc, Min(v, 0.0), Max(v, L.maxVel), 2.0 * L.eps);
  }

  /** The sign that is taken out before solving is put back by velocity and position. */
  lemma SignsCancel(x: real, v: real)
    ensures Sgn(x) * Towards(x, v) == v && Sgn(x) * Normalized(x) == x && Sgn(x) * Sgn(x) == 1.0
  {
  }

  /** At time 0 the robot has the velocity it was given, and has not moved. */
  lemma StartsAsGiven(L: Limits, from: real, to: real, vel: real)
    requires Positive(L) && CanStop(L, Abs(to - from), Towards(to - from, vel))
    requires var d, v := Abs(to - from), Towards(to - from, vel); !Done(L, d, v) && Cruisable(L, d, v)
    ensures var segs := Profile(L, Abs(to - from), Towards(to - from, vel), 0.0);
            Sgn(to - from) * VelocityFrom(segs, 0.0, 0.0) == vel && PositionFrom(segs, 0.0, 0.0, 0.0) == 0.0
  {
    var d, v := Abs(to - from), Towards(to - from, vel);
    ProfileProper(L, d, v, 0.0, Min(v, 0.0), Max(v, L.maxVel));
    ProperForwards(Profile(L, d, v, 0.0), L.maxAcc, Min(v, 0.0), Max(v, L.maxVel));
    ProfileChained(L, d, v, 0.0);
    ProfileJoined(L, d, v, 0.0);
    AtFirst(Profile(L, d, v, 0.0), 0.0);
    SignsCancel(to - from, vel);
    StartsAt(Profile(L, d, v, 0.0), 0.0, 0.0, L.maxAcc, Min(v, 0.0), Max(v, L.maxVel));
  }

  /** Past the end of the profile the robot stands where it lands. */
  lemma {:induction false} StandsAtLanding(L: Limits, d: real, v: real, elapsed: real, pos: real, t: real)
    requires Positive(L) && d >= 0.0 && CanStop(L, d, v) && Forwards(Profile(L, d, v, pos))
    requires var segs := Profile(L, d, v, pos); t > elapsed + Begins(segs, |segs|)
    ensures VelocityFrom(Profile(L, d, v, pos), elapsed, t) == 0.0
    ensures PositionFrom(Profile(L, d, v, pos), elapsed, pos, t) == pos + Land(L, d, v)
    decreases Left(L, d, v)
  {
    if !Done(L, d, v) {
      LeftNext(L, d, v);
      var seg := Choose(L, d, v);
      var d2, v2, pos2 := NextDist(d, seg), NextVel(L, d, v), pos + DistanceOf(seg);
      var segs, rest := Profile(L, d, v, pos), Profile(L, d2, v2, pos2);
      Moved(seg, pos);
      assert segs[1..] == rest;
      forall i | 0 <= i < |rest| ensures rest[i].duration >= 0.0 {
        assert rest[i] == segs[i + 1];
      }
      BeginsLater(rest, |rest|);
      StandsAtLanding(L, d2, v2, elapsed + seg.duration, pos2, t);
    }
  }

  /** So in the end it has moved as asked, but for the slack, when it had room to brake. */
  lemma EndsAsAsked(L: Limits, from: real, to: real, vel: real, t: real)
    requires var d, v := Abs(to - from), Towards(to - from, vel);
             Positive(L) && L.maxVel > L.eps && CanStop(L, d, v) && Cruisable(L, d, v) && (v <= 0.0 || Braking(L, v) <= d)
    requires var segs := Profile(L, Abs(to - from), Towards(to - from, vel), 0.0); t > Begins(segs, |segs|)
    ensures var segs := Profile(L, Abs(to - from), Towards(to - from, vel), 0.0);
            && Sgn(to - from) * VelocityFrom(segs, 0.0, t) == 0.0
            && Abs(from + Sgn(to - from) * PositionFrom(segs, 0.0, 0.0, t) - to) <= Slack(L)
  {
    var d, v := Abs(to - from), Towards(to - from, vel);
    ProfileProper(L, d, v, 0.0, Min(v, 0.0), Max(v, L.maxVel));
    ProperForwards(Profile(L, d, v, 0.0), L.maxAcc, Min(v, 0.0), Max(v, L.maxVel));
    StandsAtLanding(L, d, v, 0.0, 0.0, t);
    Lands(L, d, v);
    SignsCancel(to - from, vel);
  }
}

/**
 Two degrees of freedom that share their limits by an angle: what the bisection over the angle
 keeps, and which limits make it hang.
 */
module TrajSync {
  import opened Reals
  import opened TrajProfile
  import opened TrajLoop
  import opened TrajMotion
  import opened TrajTime

  // ----- the bisection -----

  /** Sine and cosine on the first quadrant; the right angle is a parameter. */
  datatype Trig = Trig(sin: real -> real, cos: real -> real, right: real)

  /** Positive inside the quadrant; the sine does not fall and the cosine does not rise. */
  ghost predicate Quadrant(trig: Trig) {
    && trig.right > 0.0
    && (forall a :: 0.0 < a < trig.right ==> trig.sin(a) > 0.0 && trig.cos(a) > 0.0)
    && (forall a, b :: 0.0 < a <= b < trig.right ==> trig.sin(a) <= trig.sin(b) && trig.cos(b) <= trig.cos(a))
  }

  /** The limits one axis gets from its share of the common limits. */
  function Share(L: Limits, share: real): Limits {
    L.(maxVel := L.maxVel * share, maxAcc := L.maxAcc * share)
  }

  /** Both shares of the speed limit are above the tolerance at this angle. */
  ghost predicate Usable(L: Limits, trig: Trig, alpha: real) {
    0.0 < alpha < trig.right && Swift(Share(L, trig.cos(alpha))) && Swift(Share(L, trig.sin(alpha)))
  }

  lemma ShareScaled(L: Limits, s1: real, s2: real)
    requires 0.0 < s1 <= s2 && Swift(Share(L, s1)) && Swift(Share(L, s2))
    ensures Scaled(Share(L, s1), Share(L, s2), s2 / s1)
  {
    var c := s2 / s1;
    QuotientTimes(s2, s1);
    CancelFactor(1.0, c, s1);
    Rescale(c, L.maxVel, s1, s2);
    Rescale(c, L.maxAcc, s1, s2);
  }

  lemma Rescale(c: real, x: real, s1: real, s2: real)
    requires c * s1 == s2
    ensures x * s2 == c * (x * s1)
  {
    Replace(x, c * s1, s2);
    assert x * (c * s1) == c * (x * s1);
  }

  /** The condition under which the larger of two shares takes no longer. */
  predicate ShareNoLater(L: Limits, s1: real, s2: real, d: real)
    requires L.maxAcc > 0.0 && L.eps > 0.0 && s1 > 0.0 && s2 > 0.0
  {
    PositiveProduct(L.maxAcc, s1);
    PositiveProduct(L.maxAcc, s2);
    NoLater(Share(L, s1), Share(L, s2), s2 / s1, d)
  }

  lemma ShareFaster(L: Limits, s1: real, s2: real, d: real)
    requires 0.0 < s1 <= s2 && Swift(Share(L, s1)) && Swift(Share(L, s2)) && d >= 0.0
    ensures L.maxAcc > 0.0
    ensures Time(Share(L, s2), d, 0.0) <= Time(Share(L, s1), d, 0.0) <==> ShareNoLater(L, s1, s2, d)
  {
    PositiveFactor(L.maxAcc, s1);
    ShareScaled(L, s1, s2);
    FasterIff(Share(L, s1), Share(L, s2), s2 / s1, d);
  }

  /** Turning from a towards y at b makes neither x faster nor y slower, by what a caller can check. */
  ghost predicate Ordered(L: Limits, trig: Trig, dx: real, dy: real, a: real, b: real) {
    && L.maxAcc > 0.0 && L.eps > 0.0 && trig.cos(a) > 0.0 && trig.cos(b) > 0.0 && trig.sin(a) > 0.0 && trig.sin(b) > 0.0
    && ShareNoLater(L, trig.cos(b), trig.cos(a), dx) && ShareNoLater(L, trig.sin(a), trig.sin(b), dy)
  }

  /** And exactly then it does so. */
  lemma TimesAlongAngle(L: Limits, trig: Trig, a: real, b: real, dx: real, dy: real)
    requires Quadrant(trig) && Usable(L, trig, a) && Usable(L, trig, b) && a <= b && dx >= 0.0 && dy >= 0.0
    ensures Ordered(L, trig, dx, dy, a, b) <==>
            && Time(Share(L, trig.cos(a)), dx, 0.0) <= Time(Share(L, trig.cos(b)), dx, 0.0)
            && Time(Share(L, trig.sin(b)), dy, 0.0) <= Time(Share(L, trig.sin(a)), dy, 0.0)
  {
    ShareFaster(L, trig.cos(b), trig.cos(a), dx);
    ShareFaster(L, trig.sin(a), trig.sin(b), dy);
  }

  /** Two angles whose times compare as their order says. */
  ghost predicate Comparable(L: Limits, trig: Trig, dx: real, dy: real, a: real, b: real) {
    if a <= b then Ordered(L, trig, dx, dy, a, b) else Ordered(L, trig, dx, dy, b, a)
  }

  /** With shares of the acceleration limit above the tolerance, too, any two angles are comparable. */
  lemma OkComparable(L: Limits, trig: Trig, dx: real, dy: real, a: real, b: real)
    requires Quadrant(trig) && 0.0 < a < trig.right && 0.0 < b < trig.right && dx >= 0.0 && dy >= 0.0
    requires Ok(Share(L, trig.cos(a))) && Ok(Share(L, trig.sin(a))) && Ok(Share(L, trig.cos(b))) && Ok(Share(L, trig.sin(b)))
    ensures Comparable(L, trig, dx, dy, a, b)
  {
    if a <= b {
      OkOrdered(L, trig, dx, dy, a, b);
    } else {
      OkOrdered(L, trig, dx, dy, b, a);
    }
  }

  lemma OkOrdered(L: Limits, trig: Trig, dx: real, dy: real, a: real, b: real)
    requires Quadrant(trig) && 0.0 < a <= b < trig.right && dx >= 0.0 && dy >= 0.0
    requires Ok(Share(L, trig.cos(a))) && Ok(Share(L, trig.sin(a))) && Ok(Share(L, trig.cos(b))) && Ok(Share(L, trig.sin(b)))
    ensures Ordered(L, trig, dx, dy, a, b)
  {
    PositiveFactor(L.maxAcc, trig.cos(a));
    ShareScaled(L, trig.cos(b), trig.cos(a));
    ShareScaled(L, trig.sin(a), trig.sin(b));
    FasterNeverLater(Share(L, trig.cos(b)), Share(L, trig.cos(a)), trig.cos(a) / trig.cos(b), dx);
    FasterNeverLater(Share(L, trig.sin(a)), Share(L, trig.sin(b)), trig.sin(b) / trig.sin(a), dy);
  }

  /** Both axes take the same time at this angle. */
  ghost predicate Equal(L: Limits, trig: Trig, dx: real, dy: real, alpha: real)
    requires dx >= 0.0 && dy >= 0.0
  {
    Usable(L, trig, alpha) && Time(Share(L, trig.cos(alpha)), dx, 0.0) == Time(Share(L, trig.sin(alpha)), dy, 0.0)
  }

  /** What one comparison tells about an equal-time angle. */
  lemma EqualBeyond(L: Limits, trig: Trig, dx: real, dy: real, alpha: real, equal: real)
    requires Quadrant(trig) && dx >= 0.0 && dy >= 0.0 && Usable(L, trig, alpha) && Equal(L, trig, dx, dy, equal)
    requires Comparable(L, trig, dx, dy, alpha, equal)
    ensures Time(Share(L, trig.cos(alpha)), dx, 0.0) > Time(Share(L, trig.sin(alpha)), dy, 0.0) ==> equal < alpha
    ensures Time(Share(L, trig.cos(alpha)), dx, 0.0) < Time(Share(L, trig.sin(alpha)), dy, 0.0) ==> equal > alpha
  {
    if equal >= alpha {
      TimesAlongAngle(L, trig, alpha, equal, dx, dy);
    }
    if equal <= alpha {
      TimesAlongAngle(L, trig, equal, alpha, dx, dy);
    }
  }

  /** Where the condition fails on both axes the comparison points away from the equal-time angle. */
  lemma EqualMissed(L: Limits, trig: Trig, dx: real, dy: real, a: real, b: real)
    requires Quadrant(trig) && dx >= 0.0 && dy >= 0.0 && Usable(L, trig, a) && Usable(L, trig, b) && a < b && L.maxAcc > 0.0 && L.eps > 0.0
    requires !ShareNoLater(L, trig.cos(b), trig.cos(a), dx) && !ShareNoLater(L, trig.sin(a), trig.sin(b), dy)
    ensures Equal(L, trig, dx, dy, b) ==> Time(Share(L, trig.cos(a)), dx, 0.0) > Time(Share(L, trig.sin(a)), dy, 0.0)
    ensures Equal(L, trig, dx, dy, a) ==> Time(Share(L, trig.cos(b)), dx, 0.0) < Time(Share(L, trig.sin(b)), dy, 0.0)
  {
    ShareFaster(L, trig.cos(b), trig.cos(a), dx);
    ShareFaster(L, trig.sin(a), trig.sin(b), dy);
  }

  function Halved(x: real, i: nat): real {
    if i == 0 then x else Halved(x, i - 1) / 2.0
  }

  lemma {:induction false} HalvedFalls(x: real, i: nat, j: nat)
    requires x > 0.0 && i <= j
    ensures 0.0 < Halved(x, j) <= Halved(x, i)
  {
    if j == 0 {
    } else if i == j {
      HalvedFalls(x, i - 1, j - 1);
    } else {
      HalvedFalls(x, i, j - 1);
    }
  }

  /** The loop's bracket and angle. */
  datatype Bracket = Bracket(lo: real, hi: real, alpha: real)

  /** At iteration i the bracket is the quadrant halved i times and the angle is its midpoint. */
  ghost predicate Bisects(b: Bracket, right: real, i: nat) {
    0.0 <= b.lo && b.hi <= right && b.hi - b.lo == Halved(right, i) && b.alpha == (b.lo + b.hi) / 2.0
  }

  const ITERATIONS: nat := 30

  const TIME_TOL: real := 0.000_001

  /** The next bracket after comparing the two times. */
  function Narrow(b: Bracket, tx: real, ty: real): Bracket {
    if tx > ty then Bracket(b.lo, b.alpha, (b.alpha + b.lo) / 2.0) else Bracket(b.alpha, b.hi, (b.alpha + b.hi) / 2.0)
  }

  lemma NarrowBisects(b: Bracket, right: real, i: nat, tx: real, ty: real)
    requires right > 0.0 && Bisects(b, right, i)
    ensures Bisects(Narrow(b, tx, ty), right, i + 1)
  {
    HalvedFalls(right, i, i);
  }

  lemma NarrowEncloses(L: Limits, trig: Trig, dx: real, dy: real, b: Bracket, tx: real, ty: real, equal: real)
    requires Quadrant(trig) && dx >= 0.0 && dy >= 0.0 && Usable(L, trig, b.alpha) && tx != ty
    requires Equal(L, trig, dx, dy, equal) && Comparable(L, trig, dx, dy, b.alpha, equal) && b.lo < equal < b.hi
    requires tx == Time(Share(L, trig.cos(b.alpha)), dx, 0.0) && ty == Time(Share(L, trig.sin(b.alpha)), dy, 0.0)
    ensures Narrow(b, tx, ty).lo < equal < Narrow(b, tx, ty).hi
  {
    EqualBeyond(L, trig, dx, dy, b.alpha, equal);
  }

  /** The axis holds the profile of this move, and the sign that turns it back. */
  ghost predicate Follows(axis: SingleDOF, from: real, to: real, vel: real)
    reads axis
  {
    && Positive(axis.limits) && CanStop(axis.limits, Abs(to - from), Towards(to - from, vel))
    && axis.segments == Profile(axis.limits, Abs(to - from), Towards(to - from, vel), 0.0)
    && axis.dirSign == if to < from then -1.0 else 1.0
  }

  /** One axis at its share of the limits, and how long it takes. */
  method SolveAxis(initialPos: real, finalPos: real, initialVel: real, limits: Limits) returns (axis: SingleDOF)
    requires Positive(limits) && CanStop(limits, Abs(finalPos - initialPos), Towards(finalPos - initialPos, initialVel))
    ensures fresh(axis) && axis.limits == limits && Follows(axis, initialPos, finalPos, initialVel)
    ensures axis.tTotal == Time(limits, Abs(finalPos - initialPos), Towards(finalPos - initialPos, initialVel))
  {
    axis := new SingleDOF(initialPos, finalPos, initialVel, limits);
    ProfileTime(limits, Abs(finalPos - initialPos), Towards(finalPos - initialPos, initialVel), 0.0);
  }

  /** The two displacements and normalised start velocities. */
  datatype Move = Move(dx: real, dy: real, vx: real, vy: real)

  ghost predicate Forward(m: Move) {
    m.dx >= 0.0 && m.dy >= 0.0
  }

  /** Both axes can be solved at this angle: their loops end. */
  ghost predicate Solvable(L: Limits, trig: Trig, m: Move, alpha: real) {
    var x, y := Share(L, trig.cos(alpha)), Share(L, trig.sin(alpha));
    Forward(m) && Positive(x) && Positive(y) && CanStop(x, m.dx, m.vx) && CanStop(y, m.dy, m.vy)
  }

  function TimeX(L: Limits, trig: Trig, m: Move, alpha: real): real
    requires Solvable(L, trig, m, alpha)
  {
    Time(Share(L, trig.cos(alpha)), m.dx, m.vx)
  }

  function TimeY(L: Limits, trig: Trig, m: Move, alpha: real): real
    requires Solvable(L, trig, m, alpha)
  {
    Time(Share(L, trig.sin(alpha)), m.dy, m.vy)
  }

  /** The bracket at iteration i: the quadrant halved i times. An iteration that never ends has no successor; any will do. */
  ghost function BracketAt(L: Limits, trig: Trig, m: Move, i: nat): (b: Bracket)
    requires trig.right > 0.0
    ensures Bisects(b, trig.right, i)
  {
    if i == 0 then
      assert Halved(trig.right, 0) == trig.right;
      Bracket(0.0, trig.right, trig.right / 2.0)
    else
      var b := BracketAt(L, trig, m, i - 1);
      var (tx, ty) := if Solvable(L, trig, m, b.alpha) then (TimeX(L, trig, m, b.alpha), TimeY(L, trig, m, b.alpha)) else (0.0, 0.0);
      NarrowBisects(b, trig.right, i - 1, tx, ty);
      Narrow(b, tx, ty)
  }

  /** Both axes are solved at iteration i, and their times are still apart. */
  ghost predicate Apart(L: Limits, trig: Trig, m: Move, i: nat)
    requires trig.right > 0.0
  {
    var alpha := BracketAt(L, trig, m, i).alpha;
    Solvable(L, trig, m, alpha) && Abs(TimeX(L, trig, m, alpha) - TimeY(L, trig, m, alpha)) >= TIME_TOL
  }

  /** The loop comes to iteration k. */
  ghost predicate Reached(L: Limits, trig: Trig, m: Move, k: nat)
    requires trig.right > 0.0
  {
    k == 0 || (Reached(L, trig, m, k - 1) && Apart(L, trig, m, k - 1))
  }

  /** No iteration the loop comes to hangs. */
  ghost predicate Completes(L: Limits, trig: Trig, m: Move)
    requires trig.right > 0.0
  {
    forall i: nat :: i < ITERATIONS && Reached(L, trig, m, i) ==> Solvable(L, trig, m, BracketAt(L, trig, m, i).alpha)
  }

  /** The angles of the first k iterations leave both axes speed limits above the tolerance, and compare with this one. */
  ghost predicate ComparableBefore(L: Limits, trig: Trig, m: Move, k: nat, angle: real)
    requires trig.right > 0.0
  {
    k == 0 ||
    (var alpha := BracketAt(L, trig, m, k - 1).alpha;
     ComparableBefore(L, trig, m, k - 1, angle) && Usable(L, trig, alpha) && Comparable(L, trig, m.dx, m.dy, alpha, angle))
  }

  /** From rest, an equal-time angle lies strictly inside the bracket of every iteration the loop reaches. */
  lemma {:induction false} BracketEncloses(L: Limits, trig: Trig, m: Move, i: nat, equal: real)
    requires Quadrant(trig) && Forward(m) && m.vx == 0.0 && m.vy == 0.0 && Equal(L, trig, m.dx, m.dy, equal)
    requires Reached(L, trig, m, i) && ComparableBefore(L, trig, m, i, equal)
    ensures BracketAt(L, trig, m, i).lo < equal < BracketAt(L, trig, m, i).hi
  {
    if i == 0 {
      assert Halved(trig.right, 0) == trig.right;
    } else {
      BracketEncloses(L, trig, m, i - 1, equal);
      var b := BracketAt(L, trig, m, i - 1);
      NarrowEncloses(L, trig, m.dx, m.dy, b, TimeX(L, trig, m, b.alpha), TimeY(L, trig, m, b.alpha), equal);
    }
  }

  lemma {:induction false} ReachedBefore(L: Limits, trig: Trig, m: Move, i: nat, k: nat)
    requires trig.right > 0.0 && i <= k && Reached(L, trig, m, k)
    ensures Reached(L, trig, m, i)
    decreases k - i
  {
    if i < k {
      ReachedBefore(L, trig, m, i, k - 1);
    }
  }

  // ----- when the bisection ends -----

  /** An iteration ends exactly when the loops of both its axes do. */
  lemma SolvableIff(L: Limits, trig: Trig, m: Move, alpha: real)
    requires Forward(m) && Positive(Share(L, trig.cos(alpha))) && Positive(Share(L, trig.sin(alpha)))
    ensures Solvable(L, trig, m, alpha) <==>
            Stops(Share(L, trig.cos(alpha)), m.dx, m.vx) && Stops(Share(L, trig.sin(alpha)), m.dy, m.vy)
  {
    StopsIff(Share(L, trig.cos(alpha)), m.dx, m.vx);
    StopsIff(Share(L, trig.sin(alpha)), m.dy, m.vy);
  }

  /** The smallest angle the loop can try; its mirror image is the largest. */
  function Margin(right: real): real {
    Halved(right, ITERATIONS)
  }

  /** The angle of iteration i is at least a margin from both ends. */
  lemma BracketWithin(b: Bracket, right: real, i: nat)
    requires right > 0.0 && i < ITERATIONS && Bisects(b, right, i)
    ensures 0.0 < Margin(right) <= b.alpha <= right - Margin(right)
  {
    HalvedFalls(right, i + 1, ITERATIONS);
    assert b.alpha - b.lo == Halved(right, i + 1) == b.hi - b.alpha;
  }

  /** What a caller can check once for all moves: speed shares at the two extreme angles not below the tolerance. */
  ghost predicate Margins(L: Limits, trig: Trig) {
    var a := Margin(trig.right);
    && Quadrant(trig) && Positive(L) && 0.0 < a < trig.right
    && L.maxVel * trig.cos(trig.right - a) >= L.eps && L.maxVel * trig.sin(a) >= L.eps
  }

  lemma ShareSteady(L: Limits, s1: real, s2: real)
    requires Positive(L) && 0.0 < s1 <= s2 && L.maxVel * s1 >= L.eps
    ensures Steady(Share(L, s2))
  {
    ProductMonotone(s1, s2, L.maxVel);
    PositiveProduct(L.maxAcc, s2);
  }

  /** Then no iteration hangs, whatever the move. */
  lemma MarginsComplete(L: Limits, trig: Trig, m: Move)
    requires Margins(L, trig) && Forward(m)
    ensures Completes(L, trig, m)
  {
    forall i: nat | i < ITERATIONS ensures Solvable(L, trig, m, BracketAt(L, trig, m, i).alpha) {
      var b := BracketAt(L, trig, m, i);
      BracketWithin(b, trig.right, i);
      SolvableWithin(L, trig, m, b.alpha);
    }
  }

  lemma SolvableWithin(L: Limits, trig: Trig, m: Move, alpha: real)
    requires Margins(L, trig) && Forward(m) && Margin(trig.right) <= alpha <= trig.right - Margin(trig.right)
    ensures Solvable(L, trig, m, alpha)
  {
    var a := Margin(trig.right);
    ShareSteady(L, trig.cos(trig.right - a), trig.cos(alpha));
    ShareSteady(L, trig.sin(a), trig.sin(alpha));
  }

  // Without the margins some move hangs: one so much longer on the other axis that every comparison
  // gives that axis more, until the share of this axis falls below the tolerance.

  /** Standing still. */
  ghost predicate FromRest(m: Move) {
    Forward(m) && m.vx == 0.0 && m.vy == 0.0
  }

  /** The axis that starves towards one end of the quadrant, y at the low end, and the other one. */
  function Starved(L: Limits, trig: Trig, low: bool, alpha: real): Limits {
    Share(L, if low then trig.sin(alpha) else trig.cos(alpha))
  }

  function Favoured(L: Limits, trig: Trig, low: bool, alpha: real): Limits {
    Share(L, if low then trig.cos(alpha) else trig.sin(alpha))
  }

  /** The angle of iteration k when every comparison goes the same way. */
  function Edge(right: real, low: bool, k: nat): real {
    if low then Halved(right, k + 1) else right - Halved(right, k + 1)
  }

  lemma EdgeInside(right: real, low: bool, k: nat)
    requires right > 0.0
    ensures 0.0 < Edge(right, low, k) < right
  {
    HalvedFalls(right, 1, k + 1);
    assert Halved(right, 1) == Halved(right, 0) / 2.0;
  }

  /** Two tolerances on the starved axis, far on the other. */
  function Skewed(L: Limits, low: bool, far: real): Move {
    if low then Move(far, 2.0 * L.eps, 0.0, 0.0) else Move(2.0 * L.eps, far, 0.0, 0.0)
  }

  /** How far makes the favoured axis slower at this angle. */
  ghost function Enough(L: Limits, trig: Trig, low: bool, alpha: real): real
    requires L.eps > 0.0
  {
    var slow, fast := Starved(L, trig, low, alpha), Favoured(L, trig, low, alpha);
    if Positive(slow) && slow.maxVel >= L.eps && Positive(fast) then
      2.0 * Braking(fast, fast.maxVel) + 2.0 * L.eps + (Max(Time(slow, 2.0 * L.eps, 0.0), 0.0) + TIME_TOL) * fast.maxVel
    else 0.0
  }

  /** How far does so at the angles of the first n iterations. */
  ghost function Far(L: Limits, trig: Trig, low: bool, n: nat): (far: real)
    requires L.eps > 0.0
    ensures far >= 2.0 * L.eps
  {
    if n == 0 then 2.0 * L.eps else Max(Far(L, trig, low, n - 1), Enough(L, trig, low, Edge(trig.right, low, n - 1)))
  }

  lemma {:induction false} FarEnough(L: Limits, trig: Trig, low: bool, n: nat, k: nat)
    requires L.eps > 0.0 && k < n
    ensures Far(L, trig, low, n) >= Enough(L, trig, low, Edge(trig.right, low, k))
  {
    if k + 1 < n {
      FarEnough(L, trig, low, n - 1, k);
    }
  }

  /** There the favoured axis takes longer, by at least the tolerance of the comparison. */
  lemma FavouredLater(L: Limits, trig: Trig, low: bool, alpha: real, far: real)
    requires Positive(Starved(L, trig, low, alpha)) && Starved(L, trig, low, alpha).maxVel >= L.eps
    requires Steady(Favoured(L, trig, low, alpha)) && far >= Enough(L, trig, low, alpha)
    ensures far >= 0.0
    ensures Time(Favoured(L, trig, low, alpha), far, 0.0) >= Time(Starved(L, trig, low, alpha), 2.0 * L.eps, 0.0) + TIME_TOL
  {
    var fast := Favoured(L, trig, low, alpha);
    var t := Max(Time(Starved(L, trig, low, alpha), 2.0 * L.eps, 0.0), 0.0) + TIME_TOL;
    BrakingTimes(fast, fast.maxVel);
    ProductMonotone(0.0, t, fast.maxVel);
    LongTime(fast, far, t);
  }

  /** At a bracket that touches the end. */
  ghost predicate Touches(b: Bracket, right: real, low: bool) {
    if low then b.lo == 0.0 else b.hi == right
  }

  lemma TouchesEdge(b: Bracket, right: real, low: bool, k: nat)
    requires Bisects(b, right, k) && Touches(b, right, low)
    ensures b.alpha == Edge(right, low, k)
  {
  }

  /** What it takes to solve both axes of the skewed move. */
  lemma EdgeRoom(L: Limits, trig: Trig, low: bool, far: real, alpha: real)
    requires L.eps > 0.0 && far >= 2.0 * L.eps && Solvable(L, trig, Skewed(L, low, far), alpha)
    ensures Starved(L, trig, low, alpha).maxVel >= L.eps && Steady(Starved(L, trig, low, alpha)) && Steady(Favoured(L, trig, low, alpha))
  {
    RestCanStop(Starved(L, trig, low, alpha), 2.0 * L.eps);
    RestCanStop(Favoured(L, trig, low, alpha), far);
  }

  /** Then the comparison favours the starved axis. */
  lemma EdgeTimes(L: Limits, trig: Trig, low: bool, far: real, alpha: real)
    requires L.eps > 0.0 && far >= 2.0 * L.eps && Solvable(L, trig, Skewed(L, low, far), alpha) && far >= Enough(L, trig, low, alpha)
    ensures var m := Skewed(L, low, far); var tx, ty := TimeX(L, trig, m, alpha), TimeY(L, trig, m, alpha);
            if low then tx >= ty + TIME_TOL else ty >= tx + TIME_TOL
  {
    EdgeRoom(L, trig, low, far, alpha);
    FavouredLater(L, trig, low, alpha, far);
  }

  /** And the next bracket touches the same end. */
  lemma EdgeStep(L: Limits, trig: Trig, low: bool, far: real, k: nat)
    requires Quadrant(trig) && L.eps > 0.0 && far >= 2.0 * L.eps && far >= Enough(L, trig, low, Edge(trig.right, low, k))
    requires var m := Skewed(L, low, far); var b := BracketAt(L, trig, m, k);
             Reached(L, trig, m, k) && Touches(b, trig.right, low) && Solvable(L, trig, m, b.alpha)
    ensures Reached(L, trig, Skewed(L, low, far), k + 1)
    ensures Touches(BracketAt(L, trig, Skewed(L, low, far), k + 1), trig.right, low)
  {
    var m := Skewed(L, low, far);
    var b := BracketAt(L, trig, m, k);
    TouchesEdge(b, trig.right, low, k);
    EdgeTimes(L, trig, low, far, b.alpha);
    assert Apart(L, trig, m, k);
    assert BracketAt(L, trig, m, k + 1) == Narrow(b, TimeX(L, trig, m, b.alpha), TimeY(L, trig, m, b.alpha));
  }

  lemma {:induction false} RunsToEdge(L: Limits, trig: Trig, low: bool, far: real, k: nat)
    requires Quadrant(trig) && L.eps > 0.0 && far >= 2.0 * L.eps && k < ITERATIONS && Completes(L, trig, Skewed(L, low, far))
    requires forall j: nat :: j < k ==> far >= Enough(L, trig, low, Edge(trig.right, low, j))
    ensures Reached(L, trig, Skewed(L, low, far), k) && Touches(BracketAt(L, trig, Skewed(L, low, far), k), trig.right, low)
  {
    if k > 0 {
      RunsToEdge(L, trig, low, far, k - 1);
      EdgeStep(L, trig, low, far, k - 1);
    }
  }

  /** So if that move completes, the starved axis has enough speed at the extreme angle. */
  lemma EdgeMargin(L: Limits, trig: Trig, low: bool, far: real, k: nat)
    requires Quadrant(trig) && L.eps > 0.0 && far >= Far(L, trig, low, k) && k < ITERATIONS && Completes(L, trig, Skewed(L, low, far))
    ensures Starved(L, trig, low, Edge(trig.right, low, k)).maxVel >= L.eps
  {
    forall j: nat | j < k ensures far >= Enough(L, trig, low, Edge(trig.right, low, j)) {
      FarEnough(L, trig, low, k, j);
    }
    RunsToEdge(L, trig, low, far, k);
    TouchesEdge(BracketAt(L, trig, Skewed(L, low, far), k), trig.right, low, k);
    EdgeRoom(L, trig, low, far, Edge(trig.right, low, k));
  }

  lemma MarginNeeded(L: Limits, trig: Trig, low: bool, k: nat)
    requires Quadrant(trig) && Positive(L) && k < ITERATIONS && forall m :: FromRest(m) ==> Completes(L, trig, m)
    ensures Starved(L, trig, low, Edge(trig.right, low, k)).maxVel >= L.eps
  {
    var far := Far(L, trig, low, k);
    assert FromRest(Skewed(L, low, far));
    EdgeMargin(L, trig, low, far, k);
  }

  /** Exactly when no move makes the bisection hang, nor any move from rest. */
  lemma MarginsIff(L: Limits, trig: Trig)
    requires Quadrant(trig) && Positive(L)
    ensures Margins(L, trig) <==> forall m :: FromRest(m) ==> Completes(L, trig, m)
    ensures Margins(L, trig) <==> forall m :: Forward(m) ==> Completes(L, trig, m)
  {
    if forall m :: FromRest(m) ==> Completes(L, trig, m) {
      MarginNeeded(L, trig, false, ITERATIONS - 1);
      MarginNeeded(L, trig, true, ITERATIONS - 1);
      EdgeInside(trig.right, true, ITERATIONS - 1);
    }
    if Margins(L, trig) {
      forall m | Forward(m) ensures Completes(L, trig, m) {
        MarginsComplete(L, trig, m);
      }
    }
  }

  /** The first iteration can already hang: at rest on x, with a speed share below the tolerance. */
  lemma FirstHangs(L: Limits, trig: Trig, m: Move)
    requires trig.right > 0.0 && Forward(m) && m.vx == 0.0 && m.dx > L.eps
    requires Positive(Share(L, trig.cos(trig.right / 2.0))) && L.maxVel * trig.cos(trig.right / 2.0) < L.eps
    ensures !Completes(L, trig, m)
  {
    assert BracketAt(L, trig, m, 0).alpha == trig.right / 2.0 && Reached(L, trig, m, 0);
    RestCanStop(Share(L, trig.cos(trig.right / 2.0)), m.dx);
  }

  /** With the true cosine of half a right angle: both limits at the tolerance, two tolerances to go. */
  lemma SlowDiagonal(sqrt: real -> real, trig: Trig)
    requires IsSqrt(sqrt) && trig.right > 0.0 && trig.cos(trig.right / 2.0) == sqrt(0.5)
    ensures !Completes(Limits(1.0, 1.0, 1.0, sqrt), trig, Move(2.0, 2.0, 0.0, 0.0))
  {
    HalfRoot(Limits(1.0, 1.0, 1.0, sqrt));
    FirstHangs(Limits(1.0, 1.0, 1.0, sqrt), trig, Move(2.0, 2.0, 0.0, 0.0));
  }

  // ----- the loop -----

  /** Both axes solved at one angle. */
  ghost predicate Solved(L: Limits, trig: Trig, m: Move, alpha: real, limitsX: Limits, limitsY: Limits, timeX: real, timeY: real) {
    && Solvable(L, trig, m, alpha)
    && limitsX == Share(L, trig.cos(alpha)) && limitsY == Share(L, trig.sin(alpha))
    && timeX == TimeX(L, trig, m, alpha) && timeY == TimeY(L, trig, m, alpha)
  }

  /** The loop is at iteration n - 1 with this bracket. */
  ghost predicate Searching(L: Limits, trig: Trig, m: Move, n: nat, b: Bracket) {
    && trig.right > 0.0 && 0 < n <= ITERATIONS && b == BracketAt(L, trig, m, n - 1) && Reached(L, trig, m, n - 1)
  }

  /** From rest, an angle that would give equal times is strictly inside every bracket of the search. */
  lemma SearchEncloses(L: Limits, trig: Trig, m: Move, n: nat, b: Bracket, i: nat, equal: real)
    requires Searching(L, trig, m, n, b) && i < n && Quadrant(trig) && Forward(m) && m.vx == 0.0 && m.vy == 0.0
    requires Equal(L, trig, m.dx, m.dy, equal) && ComparableBefore(L, trig, m, i, equal)
    ensures BracketAt(L, trig, m, i).lo < equal < BracketAt(L, trig, m, i).hi && Bisects(BracketAt(L, trig, m, i), trig.right, i)
  {
    ReachedBefore(L, trig, m, i, n - 1);
    BracketEncloses(L, trig, m, i, equal);
  }

  lemma FirstRound(L: Limits, trig: Trig, m: Move, b: Bracket)
    requires trig.right > 0.0 && b == Bracket(0.0, trig.right, trig.right / 2.0)
    ensures Searching(L, trig, m, 1, b)
  {
    assert b == BracketAt(L, trig, m, 0);
  }

  lemma SearchSolvable(L: Limits, trig: Trig, m: Move, n: nat, b: Bracket)
    requires Searching(L, trig, m, n, b) && Completes(L, trig, m)
    ensures Solvable(L, trig, m, b.alpha)
  {
    assert Reached(L, trig, m, n - 1);
  }

  lemma NextRound(L: Limits, trig: Trig, m: Move, n: nat, b: Bracket, limitsX: Limits, limitsY: Limits, timeX: real, timeY: real)
    requires Searching(L, trig, m, n, b) && n < ITERATIONS && Abs(timeX - timeY) >= TIME_TOL
    requires Solved(L, trig, m, b.alpha, limitsX, limitsY, timeX, timeY)
    ensures Searching(L, trig, m, n + 1, Narrow(b, timeX, timeY))
  {
    assert Apart(L, trig, m, n - 1);
    assert BracketAt(L, trig, m, n) == Narrow(b, timeX, timeY);
  }

  function MoveOf(fromX: real, fromY: real, toX: real, toY: real, velX: real, velY: real): (m: Move)
    ensures m.dx >= 0.0 && m.dy >= 0.0
    ensures velX == 0.0 ==> m.vx == 0.0
    ensures velY == 0.0 ==> m.vy == 0.0
  {
    Move(Abs(toX - fromX), Abs(toY - fromY), Towards(toX - fromX, velX), Towards(toY - fromY, velY))
  }

  class Synced2D {
    var x: SingleDOF
    var y: SingleDOF
    var tf: real
    ghost var rounds: nat
    ghost var bracket: Bracket

    /** Bisects the angle until both axes take the same time, or for thirty rounds. */
    constructor (fromX: real, fromY: real, toX: real, toY: real, velX: real, velY: real, L: Limits, trig: Trig)
      requires trig.right > 0.0 && Completes(L, trig, MoveOf(fromX, fromY, toX, toY, velX, velY))
      ensures Searching(L, trig, MoveOf(fromX, fromY, toX, toY, velX, velY), rounds, bracket)
      ensures Solved(L, trig, MoveOf(fromX, fromY, toX, toY, velX, velY), bracket.alpha, x.limits, y.limits, x.tTotal, y.tTotal)
      ensures Follows(x, fromX, toX, velX) && Follows(y, fromY, toY, velY)
      ensures rounds == 30 || Abs(x.tTotal - y.tTotal) < 0.000_001
      ensures tf >= x.tTotal && tf >= y.tTotal && (tf == x.tTotal || tf == y.tTotal)
    {
      var x, y, n, b := Bisect(fromX, fromY, toX, toY, velX, velY, L, trig);
      this.x, this.y, this.tf := x, y, Max(x.tTotal, y.tTotal);
      rounds, bracket := n, b;
    }

    method VelocityAtX(t: real) returns (v: real)
      ensures v == x.dirSign * VelocityFrom(x.segments, 0.0, t)
    {
      v := x.VelocityAt(t);
    }

    method VelocityAtY(t: real) returns (v: real)
      ensures v == y.dirSign * VelocityFrom(y.segments, 0.0, t)
    {
      v := y.VelocityAt(t);
    }
  }

  method SolveBoth(fromX: real, fromY: real, toX: real, toY: real, velX: real, velY: real, L: Limits, trig: Trig, alpha: real)
    returns (x: SingleDOF, y: SingleDOF)
    requires Solvable(L, trig, MoveOf(fromX, fromY, toX, toY, velX, velY), alpha)
    ensures Solved(L, trig, MoveOf(fromX, fromY, toX, toY, velX, velY), alpha, x.limits, y.limits, x.tTotal, y.tTotal)
    ensures Follows(x, fromX, toX, velX) && Follows(y, fromY, toY, velY)
  {
    x := SolveAxis(fromX, toX, velX, Share(L, trig.cos(alpha)));
    y := SolveAxis(fromY, toY, velY, Share(L, trig.sin(alpha)));
  }

  /** One turn of the loop. */
  method NextAxes(fromX: real, fromY: real, toX: real, toY: real, velX: real, velY: real, L: Limits, trig: Trig,
                  ghost m: Move, ghost n: nat, b0: Bracket, x0: SingleDOF, y0: SingleDOF)
    returns (b: Bracket, x: SingleDOF, y: SingleDOF)
    requires m == MoveOf(fromX, fromY, toX, toY, velX, velY) && Searching(L, trig, m, n, b0) && n < ITERATIONS && Completes(L, trig, m)
    requires Solved(L, trig, m, b0.alpha, x0.limits, y0.limits, x0.tTotal, y0.tTotal) && Abs(x0.tTotal - y0.tTotal) >= TIME_TOL
    ensures Searching(L, trig, m, n + 1, b)
    ensures Solved(L, trig, m, b.alpha, x.limits, y.limits, x.tTotal, y.tTotal)
    ensures Follows(x, fromX, toX, velX) && Follows(y, fromY, toY, velY)
  {
    NextRound(L, trig, m, n, b0, x0.limits, y0.limits, x0.tTotal, y0.tTotal);
    b := Narrow(b0, x0.tTotal, y0.tTotal);
    SearchSolvable(L, trig, m, n + 1, b);
    x, y := SolveBoth(fromX, fromY, toX, toY, velX, velY, L, trig, b.alpha);
  }

  method Bisect(fromX: real, fromY: real, toX: real, toY: real, velX: real, velY: real, L: Limits, trig: Trig)
    returns (x: SingleDOF, y: SingleDOF, n: nat, b: Bracket)
    requires trig.right > 0.0 && Completes(L, trig, MoveOf(fromX, fromY, toX, toY, velX, velY))
    ensures Searching(L, trig, MoveOf(fromX, fromY, toX, toY, velX, velY), n, b)
    ensures Solved(L, trig, MoveOf(fromX, fromY, toX, toY, velX, velY), b.alpha, x.limits, y.limits, x.tTotal, y.tTotal)
    ensures Follows(x, fromX, toX, velX) && Follows(y, fromY, toY, velY)
    ensures n == 30 || Abs(x.tTotal - y.tTotal) < 0.000_001
  {
    ghost var m := MoveOf(fromX, fromY, toX, toY, velX, velY);
    b := Bracket(0.0, trig.right, trig.right / 2.0);
    FirstRound(L, trig, m, b);
    SearchSolvable(L, trig, m, 1, b);
    n := 1;
    x, y := SolveBoth(fromX, fromY, toX, toY, velX, velY, L, trig, b.alpha);
    while Abs(x.tTotal - y.tTotal) >= TIME_TOL && n < ITERATIONS
      invariant 0 < n <= ITERATIONS && Searching(L, trig, m, n, b)
      invariant Solved(L, trig, m, b.alpha, x.limits, y.limits, x.tTotal, y.tTotal)
      invariant Follows(x, fromX, toX, velX) && Follows(y, fromY, toY, velY)
      decreases ITERATIONS - n
    {
      b, x, y := NextAxes(fromX, fromY, toX, toY, velX, velY, L, trig, m, n, b, x, y);
      n := n + 1;
    }
  }

  // ----- the two axes together -----

  lemma SplitSquare(x: real, c: real, s: real, a: real, b: real)
    requires Square(c) + Square(s) == 1.0 && a == x * c && b == x * s
    ensures Square(a) + Square(b) == Square(x)
  {
    SquareOfProduct(x, c, a);
    SquareOfProduct(x, s, b);
    SumOfProducts(Square(x), Square(c), Square(s));
  }

  lemma SquareOfProduct(x: real, c: real, a: real)
    requires a == x * c
    ensures Square(a) == Product(Square(x), Square(c))
  {
    assert Product(a, a) == Product(x * c, x * c);
  }

  lemma SumOfProducts(x: real, c: real, s: real)
    requires c + s == 1.0
    ensures Product(x, c) + Product(x, s) == x
  {
    DistributePlus(x, c, s);
    assert Product(x, c + s) == Product(x, 1.0);
  }

  lemma SquareBelow(x: real, m: real)
    requires 0.0 <= x <= m
    ensures Square(x) <= Square(m)
  {
    if x != m {
      assert !(Square(m) <= Square(x)) by {
        if Square(m) <= Square(x) {
          SquareOrder(m, x);
        }
      }
    }
  }

  /** The shares of the axes make up the whole limits, as components of a vector. */
  lemma SharesMakeUp(L: Limits, trig: Trig, alpha: real)
    requires Square(trig.cos(alpha)) + Square(trig.sin(alpha)) == 1.0
    ensures var x, y := Share(L, trig.cos(alpha)), Share(L, trig.sin(alpha));
            && Square(x.maxVel) + Square(y.maxVel) == Square(L.maxVel)
            && Square(x.maxAcc) + Square(y.maxAcc) == Square(L.maxAcc)
            && x.eps == y.eps == L.eps
  {
    var x, y := Share(L, trig.cos(alpha)), Share(L, trig.sin(alpha));
    SplitSquare(L.maxVel, trig.cos(alpha), trig.sin(alpha), x.maxVel, y.maxVel);
    SplitSquare(L.maxAcc, trig.cos(alpha), trig.sin(alpha), x.maxAcc, y.maxAcc);
  }

  /** From rest the robot never moves faster than the limit of the plane, at whatever angle the axes were solved. */
  lemma PlanarSpeed(L: Limits, trig: Trig, alpha: real, dx: real, dy: real, t: real)
    requires Square(trig.cos(alpha)) + Square(trig.sin(alpha)) == 1.0 && dx >= 0.0 && dy >= 0.0 && t >= 0.0
    requires var x, y := Share(L, trig.cos(alpha)), Share(L, trig.sin(alpha));
             Positive(x) && Positive(y) && x.maxVel >= L.eps && y.maxVel >= L.eps && CanStop(x, dx, 0.0) && CanStop(y, dy, 0.0)
    ensures var x, y := Share(L, trig.cos(alpha)), Share(L, trig.sin(alpha));
            Square(VelocityFrom(Profile(x, dx, 0.0, 0.0), 0.0, t)) + Square(VelocityFrom(Profile(y, dy, 0.0, 0.0), 0.0, t)) <= Square(L.maxVel)
  {
    var x, y := Share(L, trig.cos(alpha)), Share(L, trig.sin(alpha));
    SharesMakeUp(L, trig, alpha);
    VelocityInRange(x, dx, 0.0, t);
    VelocityInRange(y, dy, 0.0, t);
    SquareBelow(VelocityFrom(Profile(x, dx, 0.0, 0.0), 0.0, t), x.maxVel);
    SquareBelow(VelocityFrom(Profile(y, dy, 0.0, 0.0), 0.0, t), y.maxVel);
  }
}

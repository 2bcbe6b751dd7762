/** The path planner: clearance of a leg from the obstacles, steering, and the tree the path is read from. */
module Rrt {
  import opened Reals

  datatype Point2D = Point2D(x: real, y: real)
  datatype Obstacle = Obstacle(id: int, position: Point2D, radius: real)

  /** The part of the configuration the geometry uses, the obstacles, and the root function. */
  datatype World = World(obstacles: seq<Obstacle>, robotRadius: real, stepSize: real, sqrt: real -> real)

  ghost predicate Ok(w: World) {
    w.stepSize > 0.0 && IsSqrt(w.sqrt)
  }

  function SquaredDistance(p: Point2D, q: Point2D): (s: real)
    ensures s >= 0.0
  {
    Square(p.x - q.x) + Square(p.y - q.y)
  }

  /** std::hypot. */
  function Distance(w: World, p: Point2D, q: Point2D): real {
    w.sqrt(SquaredDistance(p, q))
  }

  lemma DistanceFacts(w: World, p: Point2D, q: Point2D)
    requires Ok(w)
    ensures Distance(w, p, q) >= 0.0 && Distance(w, p, q) * Distance(w, p, q) == SquaredDistance(p, q)
    ensures Distance(w, p, q) == 0.0 <==> p == q
  {
    if Distance(w, p, q) == 0.0 {
      ZeroSquare(p.x - q.x);
      ZeroSquare(p.y - q.y);
    }
    if p == q {
      SquareOrder(Distance(w, p, q), 0.0);
    }
  }

  lemma ZeroSquare(x: real)
    ensures Square(x) == 0.0 ==> x == 0.0
  {
    if x != 0.0 {
      SquarePositive(x);
    }
  }

  // ----- clearance of a leg -----

  /** The point a fraction u along the leg. */
  function Along(p: Point2D, q: Point2D, u: real): Point2D {
    Point2D(Between(p.x, q.x, u), Between(p.y, q.y, u))
  }

  function Between(a: real, b: real, u: real): real {
    a + u * (b - a)
  }

  /** Every point of the leg keeps at least the obstacle's and the robot's radius from the obstacle's centre. */
  ghost predicate Clear(w: World, p: Point2D, q: Point2D, o: Obstacle) {
    forall u :: 0.0 <= u <= 1.0 ==> Distance(w, Along(p, q, u), o.position) >= o.radius + w.robotRadius
  }

  ghost predicate AllClear(w: World, p: Point2D, q: Point2D, n: nat)
    requires n <= |w.obstacles|
  {
    forall i :: 0 <= i < n ==> Clear(w, p, q, w.obstacles[i])
  }

  /** A leg without length is not looked at. */
  ghost predicate Free(w: World, p: Point2D, q: Point2D) {
    p == q || AllClear(w, p, q, |w.obstacles|)
  }

  function Dot(px: real, py: real, qx: real, qy: real): real {
    px * qx + py * qy
  }

  /** Squared distance from the point s along the unit vector (dx, dy) to a point at offset (ox, oy). */
  function Offset(s: real, dx: real, dy: real, ox: real, oy: real): real {
    (s * dx - ox) * (s * dx - ox) + (s * dy - oy) * (s * dy - oy)
  }

  lemma OffsetExpands(s: real, dx: real, dy: real, ox: real, oy: real)
    requires dx * dx + dy * dy == 1.0
    ensures Offset(s, dx, dy, ox, oy) == s * s - 2.0 * s * Dot(ox, oy, dx, dy) + (ox * ox + oy * oy)
  {
    assert (s * dx - ox) * (s * dx - ox) == s * s * (dx * dx) - 2.0 * s * (ox * dx) + ox * ox;
    assert (s * dy - oy) * (s * dy - oy) == s * s * (dy * dy) - 2.0 * s * (oy * dy) + oy * oy;
    assert s * s * (dx * dx) + s * s * (dy * dy) == s * s * (dx * dx + dy * dy);
  }

  /** Where the code looks: the projection, kept within the leg. */
  function Clamp(t: real, len: real): real {
    Max(0.0, Min(len, t))
  }

  /** A parabola is least, on an interval, at its vertex kept within the interval. */
  lemma ClampLeast(s: real, t0: real, len: real)
    requires 0.0 <= s <= len
    ensures var t := Clamp(t0, len); t * t - 2.0 * t * t0 <= s * s - 2.0 * s * t0
  {
    var t := Clamp(t0, len);
    assert (s - t) * (s + t - 2.0 * t0) == (s * s - 2.0 * s * t0) - (t * t - 2.0 * t * t0);
    if t == t0 {
      SquareNonNegative(s - t);
    } else if t0 < 0.0 {
      ProductMonotone(0.0, s, s - 2.0 * t0);
    } else {
      ProductMonotone(s, len, 2.0 * t0 - s - len);
      assert (s - len) * (2.0 * t0 - s - len) <= 0.0;
    }
  }

  /** The leg's unit vector. */
  lemma UnitVector(w: World, p: Point2D, q: Point2D)
    requires Ok(w) && p != q
    ensures var len := Distance(w, p, q);
            && len > 0.0
            && ((q.x - p.x) / len) * ((q.x - p.x) / len) + ((q.y - p.y) / len) * ((q.y - p.y) / len) == 1.0
  {
    var len := Distance(w, p, q);
    DistanceFacts(w, p, q);
    var dx, dy := (q.x - p.x) / len, (q.y - p.y) / len;
    QuotientTimes(q.x - p.x, len);
    QuotientTimes(q.y - p.y, len);
    SquareFlip(p.x, q.x);
    SquareFlip(p.y, q.y);
    SquarePositive(len);
    UnitSquares(dx, dy, len, q.x - p.x, q.y - p.y, SquaredDistance(p, q));
  }

  lemma ProductSquare(x: real, y: real, z: real)
    requires x * y == z
    ensures (x * x) * (y * y) == z * z
  {
    assert (x * x) * (y * y) == (x * y) * (x * y);
  }

  lemma Distribute(a: real, b: real, n: real)
    ensures (a + b) * n == a * n + b * n
  {
  }

  lemma SumsToOne(a: real, b: real, n: real, x: real, y: real)
    requires n > 0.0 && a * n == x && b * n == y && x + y == n
    ensures a + b == 1.0
  {
    Distribute(a, b, n);
    CancelFactor(a + b, 1.0, n);
  }

  lemma SquareFlip(x: real, y: real)
    ensures Square(x - y) == (y - x) * (y - x)
  {
  }

  lemma UnitSquares(dx: real, dy: real, len: real, x: real, y: real, n: real)
    requires dx * len == x && dy * len == y && len * len == n && x * x + y * y == n && n > 0.0
    ensures dx * dx + dy * dy == 1.0
  {
    ProductSquare(dx, len, x);
    ProductSquare(dy, len, y);
    assert (dx * dx) * n == x * x && (dy * dy) * n == y * y;
    SumsToOne(dx * dx, dy * dy, n, x * x, y * y);
  }

  /** The point the code looks at is on the leg, and no point of the leg is closer to the obstacle. */
  ghost predicate Closest(w: World, p: Point2D, q: Point2D, o: Point2D, c: Point2D) {
    && (exists u :: 0.0 <= u <= 1.0 && c == Along(p, q, u))
    && forall u :: 0.0 <= u <= 1.0 ==> Distance(w, c, o) <= Distance(w, Along(p, q, u), o)
  }

  /** The point a distance s along the unit vector. */
  function At(p: Point2D, dx: real, dy: real, s: real): Point2D {
    Point2D(Ahead(p.x, dx, s), Ahead(p.y, dy, s))
  }

  function Ahead(a: real, d: real, s: real): real {
    a + s * d
  }

  lemma AlongAt(p: Point2D, q: Point2D, dx: real, dy: real, len: real, u: real, s: real)
    requires dx * len == q.x - p.x && dy * len == q.y - p.y && s == u * len
    ensures Along(p, q, u) == At(p, dx, dy, s)
  {
    BetweenAhead(p.x, q.x, u, dx, len, s);
    BetweenAhead(p.y, q.y, u, dy, len, s);
  }

  lemma BetweenAhead(a: real, b: real, u: real, d: real, len: real, s: real)
    requires d * len == b - a && s == u * len
    ensures Between(a, b, u) == Ahead(a, d, s)
  {
    calc {
      u * (b - a);
      u * (d * len);
      (u * len) * d;
      s * d;
    }
  }

  lemma AtDistance(p: Point2D, dx: real, dy: real, s: real, o: Point2D)
    ensures SquaredDistance(At(p, dx, dy, s), o) == Offset(s, dx, dy, o.x - p.x, o.y - p.y)
  {
  }

  lemma OnLeg(p: Point2D, q: Point2D, dx: real, dy: real, len: real, t: real)
    requires 0.0 <= t <= len && len > 0.0 && dx * len == q.x - p.x && dy * len == q.y - p.y
    ensures exists u :: 0.0 <= u <= 1.0 && At(p, dx, dy, t) == Along(p, q, u)
  {
    var u := t / len;
    QuotientTimes(t, len);
    DivideWithin(t, len);
    AlongAt(p, q, dx, dy, len, u, t);
    assert At(p, dx, dy, t) == Along(p, q, u);
  }

  lemma ClosestPoint(w: World, p: Point2D, q: Point2D, o: Point2D, dx: real, dy: real, len: real)
    requires Ok(w) && len > 0.0 && dx * len == q.x - p.x && dy * len == q.y - p.y && dx * dx + dy * dy == 1.0
    ensures Closest(w, p, q, o, At(p, dx, dy, Clamp(Dot(o.x - p.x, o.y - p.y, dx, dy), len)))
  {
    var t := Clamp(Dot(o.x - p.x, o.y - p.y, dx, dy), len);
    OnLeg(p, q, dx, dy, len, t);
    forall u | 0.0 <= u <= 1.0 ensures Distance(w, At(p, dx, dy, t), o) <= Distance(w, Along(p, q, u), o) {
      var s := Fraction(u, len);
      AlongAt(p, q, dx, dy, len, u, s);
      AtLeast(w, p, dx, dy, s, len, o);
    }
  }

  lemma Fraction(u: real, len: real) returns (s: real)
    requires 0.0 <= u <= 1.0 && len > 0.0
    ensures s == u * len && 0.0 <= s <= len
  {
    s := u * len;
    ProductMonotone(0.0, u, len);
    ProductMonotone(u, 1.0, len);
  }

  /** No point of the line within the leg is closer than the clamped projection. */
  lemma AtLeast(w: World, p: Point2D, dx: real, dy: real, s: real, len: real, o: Point2D)
    requires Ok(w) && 0.0 <= s <= len && dx * dx + dy * dy == 1.0
    ensures Distance(w, At(p, dx, dy, Clamp(Dot(o.x - p.x, o.y - p.y, dx, dy), len)), o) <= Distance(w, At(p, dx, dy, s), o)
  {
    var ox, oy := o.x - p.x, o.y - p.y;
    var t0 := Dot(ox, oy, dx, dy);
    var t := Clamp(t0, len);
    AtDistance(p, dx, dy, t, o);
    AtDistance(p, dx, dy, s, o);
    OffsetExpands(t, dx, dy, ox, oy);
    OffsetExpands(s, dx, dy, ox, oy);
    ClampLeast(s, t0, len);
    SqrtMonotone(w.sqrt, SquaredDistance(At(p, dx, dy, t), o), SquaredDistance(At(p, dx, dy, s), o));
  }

  lemma DivideWithin(t: real, len: real)
    requires 0.0 <= t <= len && len > 0.0
    ensures 0.0 <= t / len <= 1.0
  {
    QuotientTimes(t, len);
    CancelFactor(0.0, t / len, len);
    CancelFactor(t / len, 1.0, len);
  }

  /** Looking only at the closest point decides about the whole leg. */
  lemma ClosestDecides(w: World, p: Point2D, q: Point2D, o: Obstacle, c: Point2D)
    requires Closest(w, p, q, o.position, c)
    ensures Distance(w, c, o.position) >= o.radius + w.robotRadius <==> Clear(w, p, q, o)
  {
    var u :| 0.0 <= u <= 1.0 && c == Along(p, q, u);
    if Clear(w, p, q, o) {
      assert Distance(w, Along(p, q, u), o.position) >= o.radius + w.robotRadius;
    }
  }

  /** The loop's body: is the leg clear of this obstacle? */
  method ClearOf(w: World, p1: Point2D, p2: Point2D, obs: Obstacle, dx: real, dy: real, len: real) returns (clear: bool)
    requires Ok(w) && len > 0.0 && dx * len == p2.x - p1.x && dy * len == p2.y - p1.y && dx * dx + dy * dy == 1.0
    ensures clear <==> Clear(w, p1, p2, obs)
  {
    var t := Dot(obs.position.x - p1.x, obs.position.y - p1.y, dx, dy);
    t := Max(0.0, Min(len, t));
    var closest := At(p1, dx, dy, t);
    ClosestPoint(w, p1, p2, obs.position, dx, dy, len);
    ClosestDecides(w, p1, p2, obs, closest);
    var distToObs := Distance(w, closest, obs.position);
    clear := !(distToObs < obs.radius + w.robotRadius);
  }

  /** True exactly when the leg has no length or all of it keeps clear of every obstacle. */
  method IsCollisionFree(w: World, p1: Point2D, p2: Point2D) returns (free: bool)
    requires Ok(w)
    ensures free <==> Free(w, p1, p2)
  {
    var len := Distance(w, p1, p2);
    DistanceFacts(w, p1, p2);
    if len == 0.0 {
      return true;
    }
    UnitVector(w, p1, p2);
    var dx, dy := (p2.x - p1.x) / len, (p2.y - p1.y) / len;
    QuotientTimes(p2.x - p1.x, len);
    QuotientTimes(p2.y - p1.y, len);
    free := ClearOfAll(w, p1, p2, dx, dy, len);
  }

  method ClearOfAll(w: World, p1: Point2D, p2: Point2D, dx: real, dy: real, len: real) returns (free: bool)
    requires Ok(w) && len > 0.0 && dx * len == p2.x - p1.x && dy * len == p2.y - p1.y && dx * dx + dy * dy == 1.0
    ensures free <==> AllClear(w, p1, p2, |w.obstacles|)
  {
    for i := 0 to |w.obstacles|
      invariant AllClear(w, p1, p2, i)
    {
      var clear := ClearOf(w, p1, p2, w.obstacles[i], dx, dy, len);
      if !clear {
        return false;
      }
    }
    free := true;
  }

  predicate Outside(w: World, p: Point2D, o: Obstacle) {
    Distance(w, p, o.position) >= o.radius + w.robotRadius
  }

  lemma ClearPoint(w: World, p: Point2D, o: Obstacle)
    ensures Clear(w, p, p, o) <==> Outside(w, p, o)
  {
    assert forall u: real :: Along(p, p, u) == p;
    assert Distance(w, Along(p, p, 0.0), o.position) == Distance(w, p, o.position);
  }

  /** The answer means clearance exactly when the leg has a length or its one point keeps clear. */
  lemma FreeMeansClear(w: World, p: Point2D, q: Point2D)
    ensures (Free(w, p, q) <==> AllClear(w, p, q, |w.obstacles|)) <==>
            (p != q || forall i :: 0 <= i < |w.obstacles| ==> Outside(w, p, w.obstacles[i]))
  {
    forall i | 0 <= i < |w.obstacles|
      ensures Clear(w, p, p, w.obstacles[i]) <==> Outside(w, p, w.obstacles[i])
    {
      ClearPoint(w, p, w.obstacles[i]);
    }
  }

  /** At the centre of an obstacle: the leg without length passes as free. */
  lemma CentreIsFree(w: World, centre: Point2D)
    requires Ok(w) && w.obstacles == [Obstacle(0, centre, 1.0)] && w.robotRadius == 0.5
    ensures Free(w, centre, centre) && !AllClear(w, centre, centre, 1)
  {
    DistanceFacts(w, centre, centre);
    ClearPoint(w, centre, w.obstacles[0]);
  }

  // ----- steering -----

  /** A point at most one step from the nearest node, towards the sample. */
  function Steer(w: World, nearest: Point2D, sample: Point2D): Point2D
    requires Ok(w)
  {
    var dist := Distance(w, nearest, sample);
    if dist < w.stepSize then sample
    else
      Point2D(nearest.x + Portion(w.stepSize, sample.x - nearest.x, dist), nearest.y + Portion(w.stepSize, sample.y - nearest.y, dist))
  }

  function Portion(step: real, x: real, dist: real): real
    requires dist != 0.0
  {
    step * x / dist
  }

  lemma SteerReach(w: World, nearest: Point2D, sample: Point2D)
    requires Ok(w)
    ensures Distance(w, nearest, Steer(w, nearest, sample)) <= w.stepSize
    ensures Distance(w, nearest, sample) >= w.stepSize ==> Distance(w, nearest, Steer(w, nearest, sample)) == w.stepSize
  {
    var dist := Distance(w, nearest, sample);
    if dist >= w.stepSize {
      var x, y := sample.x - nearest.x, sample.y - nearest.y;
      DistanceFacts(w, nearest, sample);
      SquareFlip(nearest.x, sample.x);
      SquareFlip(nearest.y, sample.y);
      PortionSquares(w.stepSize, x, y, dist);
      OffsetDistance(w, nearest, Portion(w.stepSize, x, dist), Portion(w.stepSize, y, dist), w.stepSize);
    }
  }

  /** A vector shortened to one step has that length. */
  lemma PortionSquares(step: real, x: real, y: real, dist: real)
    requires dist > 0.0 && x * x + y * y == dist * dist
    ensures Portion(step, x, dist) * Portion(step, x, dist) + Portion(step, y, dist) * Portion(step, y, dist) == step * step
  {
    QuotientTimes(step * x, dist);
    QuotientTimes(step * y, dist);
    PortionTimes(Portion(step, x, dist), Portion(step, y, dist), step, x, y, dist);
  }

  lemma PortionTimes(a: real, b: real, step: real, x: real, y: real, dist: real)
    requires dist > 0.0 && a * dist == step * x && b * dist == step * y && x * x + y * y == dist * dist
    ensures a * a + b * b == step * step
  {
    var n := ProductValue(dist, dist);
    calc {
      (a * a + b * b) * n;
      (a * dist) * (a * dist) + (b * dist) * (b * dist);
      (step * x) * (step * x) + (step * y) * (step * y);
      (step * step) * (x * x + y * y);
      (step * step) * n;
    }
    CancelFactor(a * a + b * b, step * step, n);
  }

  lemma OffsetDistance(w: World, p: Point2D, a: real, b: real, d: real)
    requires Ok(w) && d >= 0.0 && a * a + b * b == d * d
    ensures Distance(w, p, Point2D(p.x + a, p.y + b)) == d
  {
    SquareOffset(p.x, a);
    SquareOffset(p.y, b);
    SqrtOfSquare(w.sqrt, d);
  }

  lemma SquareOffset(x: real, d: real)
    ensures Square(x - (x + d)) == d * d
  {
  }

  /** How far along the leg to the sample a step goes. */
  function StepShare(w: World, nearest: Point2D, sample: Point2D): real {
    var dist := Distance(w, nearest, sample);
    if dist < w.stepSize || dist == 0.0 then 1.0 else w.stepSize / dist
  }

  lemma ShareTimes(step: real, x: real, dist: real)
    requires dist > 0.0
    ensures Portion(step, x, dist) == (step / dist) * x
  {
    QuotientTimes(step * x, dist);
    QuotientTimes(step, dist);
    assert ((step / dist) * x) * dist == (step / dist * dist) * x;
    CancelFactor(Portion(step, x, dist), (step / dist) * x, dist);
  }

  lemma ShareWithin(step: real, dist: real)
    requires 0.0 < step <= dist
    ensures 0.0 < step / dist <= 1.0
  {
    QuotientTimes(step, dist);
    PositiveFactor(step / dist, dist);
    CancelFactor(step / dist, 1.0, dist);
  }

  /** A point of the leg is as far from its end as the rest of the leg is long. */
  lemma AlongDistance(w: World, p: Point2D, q: Point2D, u: real)
    requires Ok(w) && 0.0 <= u <= 1.0
    ensures Distance(w, p, Along(p, q, u)) == u * Distance(w, p, q)
    ensures Distance(w, Along(p, q, u), q) == (1.0 - u) * Distance(w, p, q)
  {
    AlongSquares(p, q, u);
    ScaledRoot(w, SquaredDistance(p, q), u, SquaredDistance(p, Along(p, q, u)));
    ScaledRoot(w, SquaredDistance(p, q), 1.0 - u, SquaredDistance(Along(p, q, u), q));
  }

  lemma AlongSquares(p: Point2D, q: Point2D, u: real)
    ensures SquaredDistance(p, Along(p, q, u)) == (u * u) * SquaredDistance(p, q)
    ensures SquaredDistance(Along(p, q, u), q) == ((1.0 - u) * (1.0 - u)) * SquaredDistance(p, q)
  {
    ScaledSquares(p.x, q.x, u);
    ScaledSquares(p.y, q.y, u);
    DistributePlus(u * u, Square(p.x - q.x), Square(p.y - q.y));
    DistributePlus((1.0 - u) * (1.0 - u), Square(p.x - q.x), Square(p.y - q.y));
  }

  lemma ScaledSquares(a: real, b: real, u: real)
    ensures Square(a - Between(a, b, u)) == (u * u) * Square(a - b)
    ensures Square(Between(a, b, u) - b) == ((1.0 - u) * (1.0 - u)) * Square(a - b)
  {
    var z := a - b;
    assert a - Between(a, b, u) == u * z && Between(a, b, u) - b == (1.0 - u) * z;
    SquareScaled(u, z);
    SquareScaled(1.0 - u, z);
  }

  lemma SquareScaled(u: real, z: real)
    ensures Square(u * z) == (u * u) * Square(z)
  {
  }

  lemma ProductNonNegative(a: real, b: real)
    requires a >= 0.0 && b >= 0.0
    ensures a * b >= 0.0
  {
    ProductMonotone(0.0, a, b);
  }

  lemma ScaledRoot(w: World, s: real, u: real, t: real)
    requires Ok(w) && s >= 0.0 && u >= 0.0 && t == (u * u) * s
    ensures w.sqrt(t) == u * w.sqrt(s)
  {
    var r := w.sqrt(s);
    ProductMonotone(0.0, u, r);
    assert (u * r) * (u * r) == (u * u) * (r * r);
    Replace(u * u, r * r, s);
    ProductNonNegative(u * u, s);
    SquareOrder(w.sqrt(t), u * r);
    SquareOrder(u * r, w.sqrt(t));
  }

  /** A step goes along the leg to the sample, and brings it nearer by the step size, or all the way. */
  lemma SteerTowards(w: World, nearest: Point2D, sample: Point2D)
    requires Ok(w)
    ensures var u := StepShare(w, nearest, sample); 0.0 < u <= 1.0 && Steer(w, nearest, sample) == Along(nearest, sample, u)
    ensures Distance(w, Steer(w, nearest, sample), sample) == Max(Distance(w, nearest, sample) - w.stepSize, 0.0)
    ensures Distance(w, nearest, sample) < w.stepSize ==> Steer(w, nearest, sample) == sample
  {
    var dist, u := Distance(w, nearest, sample), StepShare(w, nearest, sample);
    if dist < w.stepSize {
      DistanceFacts(w, sample, sample);
    } else {
      ShareTimes(w.stepSize, sample.x - nearest.x, dist);
      ShareTimes(w.stepSize, sample.y - nearest.y, dist);
      ShareWithin(w.stepSize, dist);
      QuotientTimes(w.stepSize, dist);
      AlongDistance(w, nearest, sample, u);
      assert (1.0 - u) * dist == dist - u * dist;
    }
  }

  // ----- the tree -----

  datatype RRTXNode = RRTXNode(position: Point2D, cost: real, parent: int)

  /** A leg of the tree: one step at most, and free. */
  ghost predicate Leg(w: World, p: Point2D, q: Point2D) {
    Distance(w, p, q) <= w.stepSize && Free(w, p, q)
  }

  ghost predicate NodeOk(w: World, nodes: seq<RRTXNode>, start: Point2D, i: nat)
    requires i < |nodes|
  {
    if i == 0 then nodes[i] == RRTXNode(start, 0.0, -1)
    else
      && 0 <= nodes[i].parent < i
      && Leg(w, nodes[nodes[i].parent].position, nodes[i].position)
      && nodes[i].cost == nodes[nodes[i].parent].cost + Distance(w, nodes[nodes[i].parent].position, nodes[i].position)
  }

  /** Every node but the first hangs by a leg under an earlier one, and knows the length of the way to it. */
  ghost predicate TreeOk(w: World, nodes: seq<RRTXNode>, start: Point2D) {
    nodes != [] && forall i :: 0 <= i < |nodes| ==> NodeOk(w, nodes, start, i)
  }

  /** The positions from the start to node i. */
  function Route(w: World, nodes: seq<RRTXNode>, start: Point2D, i: nat): (path: seq<Point2D>)
    requires TreeOk(w, nodes, start) && i < |nodes|
    ensures path != [] && path[0] == start && path[|path| - 1] == nodes[i].position
    decreases i
  {
    assert NodeOk(w, nodes, start, i);
    if i == 0 then [nodes[0].position]
    else Route(w, nodes, start, nodes[i].parent) + [nodes[i].position]
  }

  ghost predicate Legs(w: World, path: seq<Point2D>) {
    forall k :: 0 < k < |path| ==> Leg(w, path[k - 1], path[k])
  }

  function Length(w: World, path: seq<Point2D>): real {
    if |path| < 2 then 0.0
    else Length(w, path[..|path| - 1]) + Distance(w, path[|path| - 2], path[|path| - 1])
  }

  /** The route consists of legs, and its length is the node's cost. */
  lemma {:induction false} RouteFacts(w: World, nodes: seq<RRTXNode>, start: Point2D, i: nat)
    requires TreeOk(w, nodes, start) && i < |nodes|
    ensures Legs(w, Route(w, nodes, start, i)) && Length(w, Route(w, nodes, start, i)) == nodes[i].cost
    decreases i
  {
    assert NodeOk(w, nodes, start, i);
    if i > 0 {
      var front := Route(w, nodes, start, nodes[i].parent);
      RouteFacts(w, nodes, start, nodes[i].parent);
      var path := front + [nodes[i].position];
      assert path[..|path| - 1] == front;
    }
  }

  function Reverse(s: seq<Point2D>): seq<Point2D> {
    if s == [] then [] else [s[|s| - 1]] + Reverse(s[..|s| - 1])
  }

  const FAR: real := 1_000_000_000.0

  /** The first of the nearest nodes, if any is within 1e9. */
  ghost predicate FirstNearest(w: World, nodes: seq<RRTXNode>, p: Point2D, idx: int) {
    && 0 <= idx < |nodes| && Distance(w, nodes[idx].position, p) < 1_000_000_000.0
    && (forall i :: 0 <= i < |nodes| ==> Distance(w, nodes[idx].position, p) <= Distance(w, nodes[i].position, p))
    && (forall i :: 0 <= i < idx ==> Distance(w, nodes[idx].position, p) < Distance(w, nodes[i].position, p))
  }

  ghost predicate AllFar(w: World, nodes: seq<RRTXNode>, p: Point2D) {
    forall i :: 0 <= i < |nodes| ==> Distance(w, nodes[i].position, p) >= 1_000_000_000.0
  }

  /** The linear search for the node nearest to a point; beyond 1e9 it keeps its default. */
  method Nearest(w: World, nodes: seq<RRTXNode>, p: Point2D, default: int) returns (idx: int, minDist: real)
    requires Ok(w)
    ensures if AllFar(w, nodes, p) then idx == default && minDist == FAR
            else FirstNearest(w, nodes, p, idx) && minDist == Distance(w, nodes[idx].position, p)
  {
    idx, minDist := default, FAR;
    for i := 0 to |nodes|
      invariant if AllFar(w, nodes[..i], p) then idx == default && minDist == FAR
                else FirstNearest(w, nodes[..i], p, idx) && minDist == Distance(w, nodes[idx].position, p)
    {
      var dist := Distance(w, nodes[i].position, p);
      assert nodes[..i + 1] == nodes[..i] + [nodes[i]];
      if dist < minDist {
        minDist := dist;
        idx := i;
      }
    }
    assert nodes[..|nodes|] == nodes;
  }

  /** The index a sample grows from: the first nearest node, or the first node when all are out of range. */
  ghost predicate GrowsFrom(w: World, nodes: seq<RRTXNode>, sample: Point2D, idx: int) {
    FirstNearest(w, nodes, sample, idx) || (idx == 0 && nodes != [] && AllFar(w, nodes, sample))
  }

  /** The node that grows from a node towards a sample. */
  function Grown(w: World, nodes: seq<RRTXNode>, idx: nat, sample: Point2D): RRTXNode
    requires Ok(w) && idx < |nodes|
  {
    var position := Steer(w, nodes[idx].position, sample);
    RRTXNode(position, nodes[idx].cost + Distance(w, nodes[idx].position, position), idx)
  }

  lemma GrownOk(w: World, nodes: seq<RRTXNode>, start: Point2D, idx: nat, sample: Point2D)
    requires Ok(w) && TreeOk(w, nodes, start) && idx < |nodes|
    requires Free(w, nodes[idx].position, Steer(w, nodes[idx].position, sample))
    ensures TreeOk(w, nodes + [Grown(w, nodes, idx, sample)], start)
  {
    var longer := nodes + [Grown(w, nodes, idx, sample)];
    SteerReach(w, nodes[idx].position, sample);
    forall i | 0 <= i < |longer| ensures NodeOk(w, longer, start, i) {
      if i < |nodes| {
        assert NodeOk(w, nodes, start, i);
      }
    }
  }

  /** One sample: a node one step from the nearest node towards it, if the leg is free. */
  ghost predicate Extends(w: World, nodes: seq<RRTXNode>, sample: Point2D, next: seq<RRTXNode>)
    requires Ok(w)
  {
    exists idx: nat :: GrowsFrom(w, nodes, sample, idx) && next == ExtendedAt(w, nodes, idx, sample)
  }

  ghost function ExtendedAt(w: World, nodes: seq<RRTXNode>, idx: nat, sample: Point2D): seq<RRTXNode>
    requires Ok(w) && idx < |nodes|
  {
    if Free(w, nodes[idx].position, Steer(w, nodes[idx].position, sample)) then nodes + [Grown(w, nodes, idx, sample)] else nodes
  }

  /** A sample determines the next tree. */
  lemma ExtendsOnce(w: World, nodes: seq<RRTXNode>, sample: Point2D, a: seq<RRTXNode>, b: seq<RRTXNode>)
    requires Ok(w) && Extends(w, nodes, sample, a) && Extends(w, nodes, sample, b)
    ensures a == b
  {
    var i: nat :| GrowsFrom(w, nodes, sample, i) && a == ExtendedAt(w, nodes, i, sample);
    var j: nat :| GrowsFrom(w, nodes, sample, j) && b == ExtendedAt(w, nodes, j, sample);
    assert i == j;
  }

  /** Where a tree that took in a node has it: on the leg from a first nearest node to the sample, one step nearer or at the sample. */
  ghost predicate GrewTowards(w: World, nodes: seq<RRTXNode>, sample: Point2D, node: RRTXNode)
    requires Ok(w)
  {
    && 0 <= node.parent < |nodes| && GrowsFrom(w, nodes, sample, node.parent)
    && var from := nodes[node.parent].position;
       && (exists u :: 0.0 < u <= 1.0 && node.position == Along(from, sample, u))
       && Distance(w, node.position, sample) == Max(Distance(w, from, sample) - w.stepSize, 0.0)
  }

  lemma ExtendsTowards(w: World, nodes: seq<RRTXNode>, sample: Point2D, next: seq<RRTXNode>)
    requires Ok(w) && Extends(w, nodes, sample, next) && next != nodes
    ensures |next| == |nodes| + 1 && next[..|nodes|] == nodes && GrewTowards(w, nodes, sample, next[|nodes|])
  {
    var idx: nat :| GrowsFrom(w, nodes, sample, idx) && next == ExtendedAt(w, nodes, idx, sample);
    var from := nodes[idx].position;
    SteerTowards(w, from, sample);
    assert next[|nodes|].position == Along(from, sample, StepShare(w, from, sample));
  }

  method Extend(w: World, nodes0: seq<RRTXNode>, start: Point2D, sample: Point2D) returns (nodes: seq<RRTXNode>)
    requires Ok(w) && TreeOk(w, nodes0, start)
    ensures TreeOk(w, nodes, start) && Extends(w, nodes0, sample, nodes)
    ensures nodes == nodes0 || (|nodes| == |nodes0| + 1 && nodes[..|nodes0|] == nodes0 && GrewTowards(w, nodes0, sample, nodes[|nodes0|]))
  {
    nodes := nodes0;
    var nearestIdx, _ := Nearest(w, nodes, sample, 0);
    assert GrowsFrom(w, nodes0, sample, nearestIdx);
    var nearestPos := nodes[nearestIdx].position;
    var newPos := Steer(w, nearestPos, sample);
    var free := IsCollisionFree(w, nearestPos, newPos);
    if !free {
      assert nodes == ExtendedAt(w, nodes0, nearestIdx, sample);
      return;
    }
    GrownOk(w, nodes, start, nearestIdx, sample);
    var newNode := RRTXNode(newPos, nodes[nearestIdx].cost + Distance(w, nearestPos, newPos), nearestIdx);
    nodes := nodes + [newNode];
    assert nodes == ExtendedAt(w, nodes0, nearestIdx, sample);
    ExtendsTowards(w, nodes0, sample, nodes);
  }

  /** The tree just grew a node that is near the goal and in free sight of it. */
  ghost predicate Connects(w: World, goal: Point2D, nodes: seq<RRTXNode>, next: seq<RRTXNode>) {
    && |next| > |nodes| && Distance(w, next[|next| - 1].position, goal) < w.stepSize
    && Free(w, next[|next| - 1].position, goal)
  }

  /** The trees after 0, 1, 2, … samples, none of which connected before the last. */
  ghost predicate Growth(w: World, start: Point2D, goal: Point2D, samples: seq<Point2D>, trees: seq<seq<RRTXNode>>) {
    && Ok(w) && 0 < |trees| <= |samples| + 1 && trees[0] == [RRTXNode(start, 0.0, -1)]
    && (forall k :: 0 < k < |trees| ==> Extends(w, trees[k - 1], samples[k - 1], trees[k]))
    && (forall k :: 0 < k < |trees| - 1 ==> !Connects(w, goal, trees[k - 1], trees[k]))
  }

  /** Growing ended at the first connection or, without one, when the samples ran out. */
  ghost predicate Ended(w: World, goal: Point2D, samples: seq<Point2D>, trees: seq<seq<RRTXNode>>, best: int)
    requires trees != []
  {
    var n := |trees| - 1;
    if best == -1 then n == |samples| && (n > 0 ==> !Connects(w, goal, trees[n - 1], trees[n]))
    else n > 0 && Connects(w, goal, trees[n - 1], trees[n]) && best == |trees[n]| - 1
  }

  /** Some growth ends in this tree. */
  ghost predicate GrownTree(w: World, start: Point2D, goal: Point2D, samples: seq<Point2D>, nodes: seq<RRTXNode>, best: int) {
    exists trees :: Growth(w, start, goal, samples, trees) && Ended(w, goal, samples, trees, best) && nodes == trees[|trees| - 1]
  }

  /** The samples determine every tree on the way. */
  lemma {:induction false} GrowthOnce(w: World, start: Point2D, goal: Point2D, samples: seq<Point2D>, a: seq<seq<RRTXNode>>, b: seq<seq<RRTXNode>>, k: nat)
    requires Growth(w, start, goal, samples, a) && Growth(w, start, goal, samples, b) && k < |a| && k < |b|
    ensures a[k] == b[k]
  {
    if k > 0 {
      GrowthOnce(w, start, goal, samples, a, b, k - 1);
      ExtendsOnce(w, a[k - 1], samples[k - 1], a[k], b[k]);
    }
  }

  /** A growth that has ended is not continued by another. */
  lemma GrowthStops(w: World, start: Point2D, goal: Point2D, samples: seq<Point2D>, a: seq<seq<RRTXNode>>, b: seq<seq<RRTXNode>>, best: int)
    requires Growth(w, start, goal, samples, a) && Growth(w, start, goal, samples, b) && Ended(w, goal, samples, a, best)
    ensures |b| <= |a|
  {
    var n := |a| - 1;
    if n > 0 && n < |b| {
      GrowthOnce(w, start, goal, samples, a, b, n);
      GrowthOnce(w, start, goal, samples, a, b, n - 1);
    }
  }

  lemma SameEnd(w: World, start: Point2D, goal: Point2D, samples: seq<Point2D>, a: seq<seq<RRTXNode>>, best1: int, b: seq<seq<RRTXNode>>, best2: int)
    requires Growth(w, start, goal, samples, a) && Ended(w, goal, samples, a, best1)
    requires Growth(w, start, goal, samples, b) && Ended(w, goal, samples, b, best2)
    ensures a[|a| - 1] == b[|b| - 1] && best1 == best2
  {
    GrowthStops(w, start, goal, samples, a, b, best1);
    GrowthStops(w, start, goal, samples, b, a, best2);
    var n := |a| - 1;
    GrowthOnce(w, start, goal, samples, a, b, n);
    if n > 0 {
      GrowthOnce(w, start, goal, samples, a, b, n - 1);
    }
  }

  /** So they determine the tree that planning ends with, and the node that connects it. */
  lemma GrownTreeOnce(w: World, start: Point2D, goal: Point2D, samples: seq<Point2D>, nodes1: seq<RRTXNode>, best1: int, nodes2: seq<RRTXNode>, best2: int)
    requires GrownTree(w, start, goal, samples, nodes1, best1) && GrownTree(w, start, goal, samples, nodes2, best2)
    ensures nodes1 == nodes2 && best1 == best2
  {
    var a :| Growth(w, start, goal, samples, a) && Ended(w, goal, samples, a, best1) && nodes1 == a[|a| - 1];
    var b :| Growth(w, start, goal, samples, b) && Ended(w, goal, samples, b, best2) && nodes2 == b[|b| - 1];
    SameEnd(w, start, goal, samples, a, best1, b, best2);
  }

  /** A growth that may go on. */
  ghost predicate Growing(w: World, start: Point2D, goal: Point2D, samples: seq<Point2D>, trees: seq<seq<RRTXNode>>, nodes: seq<RRTXNode>) {
    && Growth(w, start, goal, samples, trees) && nodes == trees[|trees| - 1]
    && (|trees| > 1 ==> !Connects(w, goal, trees[|trees| - 2], nodes))
  }

  lemma GrowthNext(w: World, start: Point2D, goal: Point2D, samples: seq<Point2D>, trees: seq<seq<RRTXNode>>, nodes: seq<RRTXNode>, next: seq<RRTXNode>)
    requires Growing(w, start, goal, samples, trees, nodes) && |trees| <= |samples| && Extends(w, nodes, samples[|trees| - 1], next)
    ensures Growth(w, start, goal, samples, trees + [next])
    ensures Connects(w, goal, nodes, next) ==> GrownTree(w, start, goal, samples, next, |next| - 1)
    ensures !Connects(w, goal, nodes, next) ==> Growing(w, start, goal, samples, trees + [next], next)
  {
    var longer := trees + [next];
    forall k | 0 < k < |longer| ensures Extends(w, longer[k - 1], samples[k - 1], longer[k]) {
    }
    assert Connects(w, goal, nodes, next) ==> Ended(w, goal, samples, longer, |next| - 1);
  }

  /** Whether the tree just connected to the goal. */
  method CheckGoal(w: World, goal: Point2D, before: seq<RRTXNode>, nodes: seq<RRTXNode>) returns (connected: bool)
    requires Ok(w)
    ensures connected <==> Connects(w, goal, before, nodes)
  {
    connected := false;
    if |nodes| > |before| {
      var newPos := nodes[|nodes| - 1].position;
      if Distance(w, newPos, goal) < w.stepSize {
        connected := IsCollisionFree(w, newPos, goal);
      }
    }
  }

  /** Grows the tree until a node connects to the goal or the samples (the time) run out. */
  method Grow(w: World, start: Point2D, goal: Point2D, samples: seq<Point2D>) returns (nodes: seq<RRTXNode>, best: int)
    requires Ok(w)
    ensures TreeOk(w, nodes, start) && GrownTree(w, start, goal, samples, nodes, best)
  {
    nodes, best := [RRTXNode(start, 0.0, -1)], -1;
    ghost var trees := [nodes];
    for n := 0 to |samples|
      invariant TreeOk(w, nodes, start) && best == -1 && |trees| == n + 1
      invariant Growing(w, start, goal, samples, trees, nodes)
    {
      var next := Extend(w, nodes, start, samples[n]);
      var connected := CheckGoal(w, goal, nodes, next);
      GrowthNext(w, start, goal, samples, trees, nodes, next);
      nodes := next;
      trees := trees + [next];
      if connected {
        best := |nodes| - 1;
        return;
      }
    }
    assert Ended(w, goal, samples, trees, best);
  }

  /** Moving the last point of a route to the reversed list. */
  lemma RouteStep(w: World, nodes: seq<RRTXNode>, start: Point2D, i: nat, back: seq<Point2D>)
    requires TreeOk(w, nodes, start) && i < |nodes|
    ensures -1 <= nodes[i].parent < i
    ensures Route(w, nodes, start, i) + Reverse(back) ==
            (if nodes[i].parent == -1 then [] else Route(w, nodes, start, nodes[i].parent)) + Reverse(back + [nodes[i].position])
  {
    assert NodeOk(w, nodes, start, i);
    var x := nodes[i].position;
    assert (back + [x])[..|back|] == back;
    if i > 0 {
      var front := Route(w, nodes, start, nodes[i].parent);
      assert front + [x] + Reverse(back) == front + ([x] + Reverse(back));
    }
  }

  /** Follows the parents back to the start and turns the list around. */
  method ReadPath(w: World, nodes: seq<RRTXNode>, start: Point2D, from: int) returns (path: seq<Point2D>)
    requires Ok(w) && TreeOk(w, nodes, start) && -1 <= from < |nodes|
    ensures path == if from == -1 then [] else Route(w, nodes, start, from)
  {
    var curr, back := from, [];
    while curr != -1
      invariant -1 <= curr < |nodes|
      invariant (if curr == -1 then [] else Route(w, nodes, start, curr)) + Reverse(back) == if from == -1 then [] else Route(w, nodes, start, from)
      decreases curr
    {
      RouteStep(w, nodes, start, curr, back);
      back := back + [nodes[curr].position];
      curr := nodes[curr].parent;
    }
    path := Reverse(back);
  }

  // ----- the plan -----

  /** A path through the tree: legs from the start to some node, whose cost is their length. */
  ghost predicate TreePath(w: World, nodes: seq<RRTXNode>, start: Point2D, path: seq<Point2D>, last: nat) {
    && path != [] && last < |nodes| && path[0] == start && path[|path| - 1] == nodes[last].position
    && Legs(w, path) && Length(w, path) == nodes[last].cost
  }

  /** The path read off the finished tree: to the goal through the connecting node, or else towards it from the nearest node. */
  ghost predicate ReadOff(w: World, start: Point2D, goal: Point2D, nodes: seq<RRTXNode>, best: int, path: seq<Point2D>) {
    if best != -1 then
      && best == |nodes| - 1 && Arrives(path, goal) && TreePath(w, nodes, start, path[..|path| - 1], best)
      && Distance(w, nodes[best].position, goal) < w.stepSize && Free(w, nodes[best].position, goal)
    else if AllFar(w, nodes, goal) then path == []
    else exists last: nat :: FirstNearest(w, nodes, goal, last) && ReadTowards(w, start, goal, nodes, last, path)
  }

  ghost predicate Arrives(path: seq<Point2D>, goal: Point2D) {
    |path| >= 2 && path[|path| - 1] == goal
  }

  /** The goal is added when it is in free sight and not already reached to within 0.01. */
  ghost predicate ReadTowards(w: World, start: Point2D, goal: Point2D, nodes: seq<RRTXNode>, last: nat, path: seq<Point2D>)
    requires last < |nodes|
  {
    if Free(w, nodes[last].position, goal) && Distance(w, nodes[last].position, goal) > 0.01
    then Arrives(path, goal) && TreePath(w, nodes, start, path[..|path| - 1], last)
    else TreePath(w, nodes, start, path, last)
  }

  /** The whole of plan: the straight leg if it is free, otherwise the path read off the grown tree. */
  ghost predicate Planned(w: World, start: Point2D, goal: Point2D, samples: seq<Point2D>, nodes0: seq<RRTXNode>, nodes: seq<RRTXNode>, path: seq<Point2D>) {
    if Free(w, start, goal) then path == [start, goal] && nodes == nodes0
    else TreeOk(w, nodes, start) && exists best :: GrownTree(w, start, goal, samples, nodes, best) && ReadOff(w, start, goal, nodes, best, path)
  }

  lemma GrownGoal(w: World, start: Point2D, goal: Point2D, samples: seq<Point2D>, nodes: seq<RRTXNode>, best: int)
    requires GrownTree(w, start, goal, samples, nodes, best)
    ensures best == -1 || (0 < best == |nodes| - 1 && Distance(w, nodes[best].position, goal) < w.stepSize && Free(w, nodes[best].position, goal))
  {
    var trees :| Growth(w, start, goal, samples, trees) && Ended(w, goal, samples, trees, best) && nodes == trees[|trees| - 1];
    if best != -1 {
      var n := |trees| - 1;
      assert Extends(w, trees[n - 1], samples[n - 1], trees[n]);
    }
  }

  method Plan(w: World, start: Point2D, goal: Point2D, samples: seq<Point2D>, nodes0: seq<RRTXNode>) returns (path: seq<Point2D>, nodes: seq<RRTXNode>)
    requires Ok(w)
    ensures Planned(w, start, goal, samples, nodes0, nodes, path)
  {
    nodes := nodes0;
    var direct := IsCollisionFree(w, start, goal);
    if direct {
      return [start, goal], nodes;
    }
    var tree, best := Grow(w, start, goal, samples);
    GrownGoal(w, start, goal, samples, tree, best);
    path := ReadTree(w, start, goal, tree, best);
    nodes := tree;
  }

  /** The second half of plan. */
  method ReadTree(w: World, start: Point2D, goal: Point2D, tree: seq<RRTXNode>, best: int) returns (path: seq<Point2D>)
    requires Ok(w) && TreeOk(w, tree, start)
    requires best == -1 || (best == |tree| - 1 && Distance(w, tree[best].position, goal) < w.stepSize && Free(w, tree[best].position, goal))
    ensures ReadOff(w, start, goal, tree, best, path)
  {
    var curr := best;
    if curr == -1 {
      var minDist;
      curr, minDist := Nearest(w, tree, goal, -1);
    }
    path := ReadPath(w, tree, start, curr);
    if curr == -1 {
      return;
    }
    RouteFacts(w, tree, start, curr);
    ghost var route := path;
    assert (route + [goal])[..|route|] == route;
    if best != -1 {
      path := path + [goal];
    } else {
      var free := IsCollisionFree(w, path[|path| - 1], goal);
      if free && Distance(w, path[|path| - 1], goal) > 0.01 {
        path := path + [goal];
      }
      assert ReadTowards(w, start, goal, tree, curr, path);
    }
  }

  // ----- the planner object -----

  class RRTX {
    const robotRadius: real
    const stepSize: real
    const sqrt: real -> real
    var start: Point2D
    var goal: Point2D
    var obstacles: seq<Obstacle>
    var nodes: seq<RRTXNode>

    function WorldOf(): World
      reads this
    {
      World(obstacles, robotRadius, stepSize, sqrt)
    }

    constructor (robotRadius: real, stepSize: real, sqrt: real -> real)
      ensures this.robotRadius == robotRadius && this.stepSize == stepSize && this.sqrt == sqrt && obstacles == [] && nodes == []
    {
      this.robotRadius, this.stepSize, this.sqrt := robotRadius, stepSize, sqrt;
      start, goal := Point2D(0.0, 0.0), Point2D(0.0, 0.0);
      obstacles, nodes := [], [];
    }

    /** The samples stand for the random ones drawn until the time is up. */
    method PlanningStep(start: Point2D, goal: Point2D, obstacles: seq<Obstacle>, samples: seq<Point2D>) returns (path: seq<Point2D>)
      requires stepSize > 0.0 && IsSqrt(sqrt)
      modifies this
      ensures this.start == start && this.goal == goal && this.obstacles == obstacles
      ensures Planned(WorldOf(), start, goal, samples, old(nodes), nodes, path)
    {
      this.start := start;
      this.goal := goal;
      this.obstacles := obstacles;
      var tree: seq<RRTXNode>;
      path, tree := Plan(WorldOf(), start, goal, samples, nodes);
      nodes := tree;
    }
  }
}

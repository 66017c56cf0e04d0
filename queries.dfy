/** What the read-only queries of the engine compute: the nearest Static body to a point,
    the nearest body of its walk down, the gravity those bodies exert at a point, and the
    spin velocity of a point on a body's surface. Distances use the runtime positions of
    the records. */
module Queries {
  import opened Numerics
  import opened DecimalVector
  import opened Records
  import opened Hierarchy

  /** The gravitational constant, in m³/(kg·s²). */
  const G_CONSTANT: real := 0.0000000000667408

  /** Distance from the runtime position of a record to the point. */
  function Distance(r: SimulatedBody, point: Vector3, sqrt: real -> real): real {
    DistanceTo(r.position, point, sqrt)
  }

  // ---------------------------------------------------------------------------
  // find_closest_static

  /** The running minimum over the first `n` records: the index of the first Static
      record at the smallest distance, or `None` while no Static record has been seen
      (the search starts from an infinite distance and only a strictly smaller one
      replaces the current best). */
  function NearestStaticAmong(rs: seq<SimulatedBody>, point: Vector3, sqrt: real -> real, n: nat): (best: Option<nat>)
    requires n <= |rs|
    ensures best.Some? ==> best.value < n
  {
    if n == 0 then None else
      var best := NearestStaticAmong(rs, point, sqrt, n - 1);
      if rs[n - 1].body.dynamics.Static? &&
         (best.None? || Distance(rs[n - 1], point, sqrt) < Distance(rs[best.value], point, sqrt))
      then Some(n - 1)
      else best
  }

  /** The index `find_closest_static` settles on: the nearest Static record, or the
      first record when there is no Static one. */
  function ClosestStatic(rs: seq<SimulatedBody>, point: Vector3, sqrt: real -> real): (k: nat)
    requires |rs| > 0
    ensures k < |rs|
  {
    var best := NearestStaticAmong(rs, point, sqrt, |rs|);
    if best.None? then 0 else best.value
  }

  /** Record `k` is a Static record among the first `n`, no farther than any Static record
      among them and strictly nearer than every Static record before it. */
  predicate FirstNearestStatic(rs: seq<SimulatedBody>, point: Vector3, sqrt: real -> real, n: nat, k: nat)
    requires n <= |rs|
  {
    k < n && rs[k].body.dynamics.Static? &&
    (forall j :: 0 <= j < n && rs[j].body.dynamics.Static? ==>
       Distance(rs[k], point, sqrt) <= Distance(rs[j], point, sqrt)) &&
    (forall j :: 0 <= j < k && rs[j].body.dynamics.Static? ==>
       Distance(rs[k], point, sqrt) < Distance(rs[j], point, sqrt))
  }

  /** Over the first `n` records the running minimum is `None` exactly when none of them is
      Static; otherwise it is a Static record no farther than any Static record, and
      strictly nearer than every Static record before it. */
  lemma {:induction false} NearestStaticAmongIsFirstMinimum(rs: seq<SimulatedBody>, point: Vector3, sqrt: real -> real, n: nat)
    requires n <= |rs|
    ensures NearestStaticAmong(rs, point, sqrt, n).None? <==> forall j :: 0 <= j < n ==> !rs[j].body.dynamics.Static?
    ensures NearestStaticAmong(rs, point, sqrt, n).Some? ==>
      FirstNearestStatic(rs, point, sqrt, n, NearestStaticAmong(rs, point, sqrt, n).value)
  {
    if n > 0 {
      NearestStaticAmongIsFirstMinimum(rs, point, sqrt, n - 1);
      var prev := NearestStaticAmong(rs, point, sqrt, n - 1);
      if prev.Some? {
        NearestStaticExtend(rs, point, sqrt, n - 1, prev.value);
      }
    }
  }

  /** One more record: the earlier minimum stays the minimum unless the new record is a
      Static record strictly nearer than it, in which case the new record is. */
  lemma NearestStaticExtend(rs: seq<SimulatedBody>, point: Vector3, sqrt: real -> real, n: nat, k: nat)
    requires n < |rs| && FirstNearestStatic(rs, point, sqrt, n, k)
    ensures if rs[n].body.dynamics.Static? && Distance(rs[n], point, sqrt) < Distance(rs[k], point, sqrt)
      then FirstNearestStatic(rs, point, sqrt, n + 1, n)
      else FirstNearestStatic(rs, point, sqrt, n + 1, k)
  {
  }

  /** `find_closest_static` returns a Static record at the smallest distance, the first
      one on ties, and the first record when no record is Static. */
  lemma ClosestStaticIsNearest(rs: seq<SimulatedBody>, point: Vector3, sqrt: real -> real)
    requires |rs| > 0
    ensures var k := ClosestStatic(rs, point, sqrt);
      k < |rs| &&
      ((forall j :: 0 <= j < |rs| ==> !rs[j].body.dynamics.Static?) ==> k == 0) &&
      ((exists j :: 0 <= j < |rs| && rs[j].body.dynamics.Static?) ==>
        rs[k].body.dynamics.Static? &&
        (forall j :: 0 <= j < |rs| && rs[j].body.dynamics.Static? ==>
           Distance(rs[k], point, sqrt) <= Distance(rs[j], point, sqrt)) &&
        (forall j :: 0 <= j < k && rs[j].body.dynamics.Static? ==>
           Distance(rs[k], point, sqrt) < Distance(rs[j], point, sqrt)))
  {
    NearestStaticAmongIsFirstMinimum(rs, point, sqrt, |rs|);
  }

  // ---------------------------------------------------------------------------
  // find_closest_body

  /** The running minimum over `d[0..n]`, starting from `d[0]`: the index of the first
      record at the smallest distance. */
  function NearestAmong(d: seq<SimulatedBody>, point: Vector3, sqrt: real -> real, n: nat): (k: nat)
    requires 0 < n <= |d|
    ensures k < n
  {
    if n == 1 then 0 else
      var best := NearestAmong(d, point, sqrt, n - 1);
      if Distance(d[n - 1], point, sqrt) < Distance(d[best], point, sqrt) then n - 1 else best
  }

  /** One more candidate: the running minimum moves to `d[n]` exactly when it is strictly
      nearer than the current one. */
  lemma NearestStep(d: seq<SimulatedBody>, point: Vector3, sqrt: real -> real, n: nat)
    requires 0 < n < |d|
    ensures var k := NearestAmong(d, point, sqrt, n);
      NearestAmong(d, point, sqrt, n + 1) ==
        if Distance(d[n], point, sqrt) < Distance(d[k], point, sqrt) then n else k
  {
  }

  /** The running minimum over `d[0..n]` is no farther than any of them and strictly
      nearer than every record before it. */
  lemma {:induction false} NearestAmongIsFirstMinimum(d: seq<SimulatedBody>, point: Vector3, sqrt: real -> real, n: nat)
    requires 0 < n <= |d|
    ensures var k := NearestAmong(d, point, sqrt, n);
      k < n &&
      (forall j :: 0 <= j < n ==> Distance(d[k], point, sqrt) <= Distance(d[j], point, sqrt)) &&
      (forall j :: 0 <= j < k ==> Distance(d[k], point, sqrt) < Distance(d[j], point, sqrt))
  {
    if n > 1 {
      NearestAmongIsFirstMinimum(d, point, sqrt, n - 1);
    }
  }

  /** The record `find_closest_body` returns: the nearest Static record when its walk down
      is empty, otherwise the nearest record of that walk. */
  function ClosestBody(rs: seq<SimulatedBody>, point: Vector3, sqrt: real -> real): SimulatedBody
    requires |rs| > 0 && SatellitesAfter(rs)
  {
    var s := rs[ClosestStatic(rs, point, sqrt)];
    var d := Down(rs, s);
    if |d| == 0 then s else d[NearestAmong(d, point, sqrt, |d|)]
  }

  /** `find_closest_body` returns the nearest Static record when nothing lies below it;
      otherwise a record below it (so never the Static record itself) that is no farther
      than any other record below it, the first such in walk order. */
  lemma ClosestBodyIsNearestBelow(rs: seq<SimulatedBody>, point: Vector3, sqrt: real -> real)
    requires |rs| > 0 && SatellitesAfter(rs)
    ensures var s := rs[ClosestStatic(rs, point, sqrt)];
      var d := Down(rs, s);
      var r := ClosestBody(rs, point, sqrt);
      (|d| == 0 ==> r == s) &&
      (|d| > 0 ==>
        r in rs && r != s && s.id < r.id &&
        exists i :: 0 <= i < |d| && r == d[i] &&
          (forall j :: 0 <= j < |d| ==> Distance(r, point, sqrt) <= Distance(d[j], point, sqrt)) &&
          (forall j :: 0 <= j < i ==> Distance(r, point, sqrt) < Distance(d[j], point, sqrt)))
  {
    var s := rs[ClosestStatic(rs, point, sqrt)];
    var d := Down(rs, s);
    if |d| > 0 {
      DownBelow(rs, s);
      NearestAmongIsFirstMinimum(d, point, sqrt, |d|);
    }
  }

  // ---------------------------------------------------------------------------
  // calculate_gravity_flux

  /** What one term of the sum divides by: the squared distance and its root. */
  predicate PullDefined(b: SimulatedBody, point: Vector3, sqrt: real -> real) {
    LengthSquared(Sub(b.position, point)) != 0.0 && sqrt(LengthSquared(Sub(b.position, point))) != 0.0
  }

  /** The term of one body: the offset from the point to the body, scaled by
      (1 / |offset|) · (G · mass / |offset|²). */
  function Pull(b: SimulatedBody, point: Vector3, sqrt: real -> real): Vector3
    requires PullDefined(b, point, sqrt)
  {
    var relative := Sub(b.position, point);
    var lengthSquared := LengthSquared(relative);
    MulScalar(relative, 1.0 / sqrt(lengthSquared) * (G_CONSTANT * b.body.mass / lengthSquared))
  }

  /** The term computed step by step, as `calculate_gravity_flux` does, is `Pull`. */
  lemma PullSteps(b: SimulatedBody, point: Vector3, sqrt: real -> real,
                  relative: Vector3, lengthSquared: real, length: real, strength: real)
    requires relative == Sub(b.position, point) && lengthSquared == LengthSquared(relative)
    requires length == sqrt(lengthSquared) && lengthSquared != 0.0 && length != 0.0
    requires strength == G_CONSTANT * b.body.mass / lengthSquared
    ensures PullDefined(b, point, sqrt)
    ensures MulScalar(relative, 1.0 / length * strength) == Pull(b, point, sqrt)
  {
  }

  predicate AllPullsDefined(h: seq<SimulatedBody>, point: Vector3, sqrt: real -> real) {
    forall i :: 0 <= i < |h| ==> PullDefined(h[i], point, sqrt)
  }

  /** The sum of the terms of `h`, added in order from the zero vector. */
  function FluxOf(h: seq<SimulatedBody>, point: Vector3, sqrt: real -> real): Vector3
    requires AllPullsDefined(h, point, sqrt)
  {
    if h == [] then Zero() else
      Add(FluxOf(h[..|h| - 1], point, sqrt), Pull(h[|h| - 1], point, sqrt))
  }

  /** One more term: the sum over the first `i + 1` bodies adds the term of body `i` to
      the sum over the first `i`. */
  lemma FluxStep(h: seq<SimulatedBody>, i: nat, point: Vector3, sqrt: real -> real)
    requires AllPullsDefined(h, point, sqrt) && i < |h|
    ensures AllPullsDefined(h[..i], point, sqrt) && AllPullsDefined(h[..i + 1], point, sqrt)
    ensures FluxOf(h[..i + 1], point, sqrt) == Add(FluxOf(h[..i], point, sqrt), Pull(h[i], point, sqrt))
  {
    assert h[..i + 1][..i] == h[..i];
  }

  /** The bodies whose terms `calculate_gravity_flux` adds: the walk down from the nearest
      Static record, then that record itself. */
  function GravityBodies(rs: seq<SimulatedBody>, point: Vector3, sqrt: real -> real): seq<SimulatedBody>
    requires |rs| > 0 && SatellitesAfter(rs)
  {
    var s := rs[ClosestStatic(rs, point, sqrt)];
    Down(rs, s) + [s]
  }

  /** The vector `calculate_gravity_flux` returns. */
  function GravityFlux(rs: seq<SimulatedBody>, point: Vector3, sqrt: real -> real): Vector3
    requires |rs| > 0 && SatellitesAfter(rs) && AllPullsDefined(GravityBodies(rs, point, sqrt), point, sqrt)
  {
    FluxOf(GravityBodies(rs, point, sqrt), point, sqrt)
  }

  lemma AddAssociates(a: Vector3, b: Vector3, c: Vector3)
    ensures Add(Add(a, b), c) == Add(a, Add(b, c))
  {
  }

  /** The sum over two lists is the sum of the two sums: the order of accumulation only
      groups the terms. */
  lemma {:induction false} FluxAdditive(a: seq<SimulatedBody>, b: seq<SimulatedBody>, point: Vector3, sqrt: real -> real)
    requires AllPullsDefined(a, point, sqrt) && AllPullsDefined(b, point, sqrt)
    ensures AllPullsDefined(a + b, point, sqrt)
    ensures FluxOf(a + b, point, sqrt) == Add(FluxOf(a, point, sqrt), FluxOf(b, point, sqrt))
    decreases |b|
  {
    var ab := a + b;
    assert AllPullsDefined(ab, point, sqrt) by {
      forall i | 0 <= i < |ab|
        ensures PullDefined(ab[i], point, sqrt)
      {
        if i >= |a| {
          assert ab[i] == b[i - |a|];
        }
      }
    }
    if b == [] {
      assert ab == a;
    } else {
      var init := b[..|b| - 1];
      var last := b[|b| - 1];
      assert AllPullsDefined(init, point, sqrt) by {
        forall i | 0 <= i < |init|
          ensures PullDefined(init[i], point, sqrt)
        {
          assert init[i] == b[i];
        }
      }
      FluxAdditive(a, init, point, sqrt);
      assert ab[..|ab| - 1] == a + init;
      assert ab[|ab| - 1] == last;
      AddAssociates(FluxOf(a, point, sqrt), FluxOf(init, point, sqrt), Pull(last, point, sqrt));
    }
  }

  /** The gravity at the point is the sum over the walk down from the nearest Static
      record plus exactly one term for that record, added last. */
  lemma GravityFluxSplits(rs: seq<SimulatedBody>, point: Vector3, sqrt: real -> real)
    requires |rs| > 0 && SatellitesAfter(rs) && AllPullsDefined(GravityBodies(rs, point, sqrt), point, sqrt)
    ensures var s := rs[ClosestStatic(rs, point, sqrt)];
      |GravityBodies(rs, point, sqrt)| == |Down(rs, s)| + 1 &&
      AllPullsDefined(Down(rs, s), point, sqrt) && PullDefined(s, point, sqrt) &&
      GravityFlux(rs, point, sqrt) == Add(FluxOf(Down(rs, s), point, sqrt), Pull(s, point, sqrt))
  {
    var s := rs[ClosestStatic(rs, point, sqrt)];
    var h := GravityBodies(rs, point, sqrt);
    assert h[..|h| - 1] == Down(rs, s);
    assert h[|h| - 1] == s;
    assert AllPullsDefined(Down(rs, s), point, sqrt) by {
      forall i | 0 <= i < |Down(rs, s)|
        ensures PullDefined(Down(rs, s)[i], point, sqrt)
      {
        assert h[i] == Down(rs, s)[i];
      }
    }
  }

  lemma PositiveProduct(a: real, b: real)
    requires a > 0.0 && b > 0.0
    ensures a * b > 0.0
  {
  }

  /** A body of positive mass pulls the point towards itself: its term has a positive
      component along the offset from the point to the body. */
  lemma PullPointsToBody(b: SimulatedBody, point: Vector3, sqrt: real -> real)
    requires IsSqrt(sqrt) && PullDefined(b, point, sqrt) && b.body.mass > 0.0
    ensures Dot(Pull(b, point, sqrt), Sub(b.position, point)) > 0.0
  {
    var relative := Sub(b.position, point);
    var ls := LengthSquared(relative);
    SqrtLaw(sqrt, ls);
    var root := sqrt(ls);
    assert ls > 0.0;
    assert root > 0.0;
    var strength := G_CONSTANT * b.body.mass / ls;
    assert G_CONSTANT * b.body.mass > 0.0;
    assert strength > 0.0;
    assert 1.0 / root > 0.0;
    var factor := 1.0 / root * strength;
    PositiveProduct(1.0 / root, strength);
    DotScales(relative, factor, relative);
    PositiveProduct(factor, ls);
  }

  // ---------------------------------------------------------------------------
  // get_surface_velocity

  /** The velocity of the point `point` (relative to the body's centre) due to the body's
      spin: the angular velocity vector, axis times 2π / period, crossed with the point. */
  function SurfaceVelocity(b: SimulatedBody, point: Vector3, pimul2: real): Vector3
    requires b.body.rotationPeriod != 0.0
  {
    Cross(MulScalar(b.body.rotationAxis, pimul2 / b.body.rotationPeriod), point)
  }

  /** A product is zero only when a factor is. */
  lemma ZeroFactor(w: real, x: real)
    requires w * x == 0.0 && w != 0.0
    ensures x == 0.0
  {
    assert x == (w * x) / w;
  }

  /** The cross product of a scaled axis with any vector is orthogonal to the axis. */
  lemma ScaledCrossOrthogonal(axis: Vector3, w: real, p: Vector3)
    ensures Dot(axis, Cross(MulScalar(axis, w), p)) == 0.0
  {
    var v := Cross(MulScalar(axis, w), p);
    if w != 0.0 {
      var d := Dot(axis, v);
      DotScales(axis, w, v);
      assert w * d == 0.0;
      ZeroFactor(w, d);
    } else {
      CrossOfZero(axis, p);
    }
  }

  lemma CrossOfZero(axis: Vector3, p: Vector3)
    ensures Dot(axis, Cross(MulScalar(axis, 0.0), p)) == 0.0
  {
    var z := Cross(MulScalar(axis, 0.0), p);
    assert z.x == 0.0 && z.y == 0.0 && z.z == 0.0;
    DotWithZero(axis, z);
  }

  lemma DotWithZero(a: Vector3, z: Vector3)
    requires z.x == 0.0 && z.y == 0.0 && z.z == 0.0
    ensures Dot(a, z) == 0.0
  {
  }

  /** The surface velocity is orthogonal to the spin axis and to the point. */
  lemma SurfaceVelocityOrthogonal(b: SimulatedBody, point: Vector3, pimul2: real)
    requires b.body.rotationPeriod != 0.0
    ensures Dot(b.body.rotationAxis, SurfaceVelocity(b, point, pimul2)) == 0.0
    ensures Dot(point, SurfaceVelocity(b, point, pimul2)) == 0.0
  {
    ScaledCrossOrthogonal(b.body.rotationAxis, pimul2 / b.body.rotationPeriod, point);
  }
}

/** The simulation engine: a flat list of runtime records and the counter that hands out
    ids. Registering a body tree appends its records; `Update` overwrites positions,
    velocities and orientations in place; the queries read the list. Each method is
    proved against the functions of `Records`, `Hierarchy`, `Update` and `Queries`,
    whose properties are proved there. */
module Engine {
  import opened Numerics
  import opened DecimalVector
  import opened DecimalMatrix
  import opened Bodies
  import opened Records
  import opened Hierarchy
  import opened Update
  import opened Queries

  class Simulation {
    var bodies: seq<SimulatedBody>
    var idCounter: int

    /** The list is well formed for the current counter. */
    ghost predicate Valid()
      reads this
    {
      0 <= idCounter && WellFormed(bodies, idCounter)
    }

    constructor ()
      ensures bodies == [] && idCounter == 0 && Valid()
    {
      bodies := [];
      idCounter := 0;
    }

    // -------------------------------------------------------------------------
    // Registration.

    /** Registers `body` and, depth first, its satellites: the root takes the next id,
        each satellite's subtree the ids after it, and the root's record is appended
        after those of its subtrees. Returns the root's id. */
    method AddHierarchy(body: Body, parent: Option<int>) returns (newId: int)
      modifies this
      ensures newId == old(idCounter)
      ensures idCounter == old(idCounter) + Size(body)
      ensures bodies == old(bodies) + Flatten(body, parent, old(idCounter))
      ensures old(Valid()) && KnownParent(parent, old(idCounter)) ==> Valid() && Walkable(bodies)
      ensures old(Registered(bodies, idCounter)) ==> Registered(bodies, idCounter)
      ensures old(SatellitesAfter(bodies)) ==> SatellitesAfter(bodies)
      decreases body, 1
    {
      ghost var before := bodies;
      ghost var wasValid := Valid();
      ghost var wasRegistered := Registered(bodies, idCounter);
      ghost var wasOrdered := SatellitesAfter(bodies);
      newId := idCounter;
      idCounter := idCounter + 1;
      var satellites := AddSatellites(body, newId);
      AppendAssociates(before, FlattenChildren(body.satellites, newId, newId + 1),
        [Fresh(newId, body, parent, satellites)]);
      bodies := bodies + [Fresh(newId, body, parent, satellites)];
      if wasValid && KnownParent(parent, newId) {
        KnownParentWalkable(before, newId, body, parent);
      }
      if wasRegistered {
        AddKeepsRegistered(before, newId, body, parent);
      }
      if wasOrdered {
        AddKeepsSatellitesAfter(before, body, parent, newId);
      }
    }

    /** The loop of `add_hierarchy` over the satellites of `body`, whose id is `parentId`:
        registers each satellite's tree in turn and collects their ids. */
    method AddSatellites(body: Body, parentId: int) returns (satellites: seq<int>)
      modifies this
      ensures idCounter == old(idCounter) + SizeOf(body.satellites)
      ensures satellites == ChildIds(body.satellites, old(idCounter))
      ensures bodies == old(bodies) + FlattenChildren(body.satellites, parentId, old(idCounter))
      decreases body, 0
    {
      ghost var before := bodies;
      ghost var start := idCounter;
      satellites := [];
      var bs := body.satellites;
      for i := 0 to |bs|
        invariant idCounter == start + SizeOf(bs[..i])
        invariant satellites == ChildIds(bs[..i], start)
        invariant bodies == before + FlattenChildren(bs[..i], parentId, start)
      {
        ChildrenStep(bs, i, parentId, start);
        assert bs[i] in body.satellites;
        ghost var done := FlattenChildren(bs[..i], parentId, start);
        var childId := AddHierarchy(bs[i], Some(parentId));
        AppendAssociates(before, done, Flatten(bs[i], Some(parentId), childId));
        satellites := satellites + [childId];
      }
      assert bs[..|bs|] == bs;
    }

    // -------------------------------------------------------------------------
    // Lookups: linear scans returning the first match.

    method GetBodyByName(name: string) returns (r: Option<SimulatedBody>)
      ensures r == FindByName(bodies, name)
    {
      for i := 0 to |bodies|
        invariant forall j :: 0 <= j < i ==> bodies[j].body.name != name
      {
        if bodies[i].body.name == name {
          return Some(bodies[i]);
        }
      }
      return None;
    }

    method GetBodyById(id: int) returns (r: Option<SimulatedBody>)
      ensures r == FindById(bodies, id)
    {
      for i := 0 to |bodies|
        invariant forall j :: 0 <= j < i ==> bodies[j].id != id
      {
        if bodies[i].id == id {
          return Some(bodies[i]);
        }
      }
      return None;
    }

    /** The mutable lookup: the position in the list of the first record with the id. */
    method GetMutBodyById(id: int) returns (r: Option<nat>)
      ensures r == IndexOfId(bodies, id)
    {
      for i := 0 to |bodies|
        invariant forall j :: 0 <= j < i ==> bodies[j].id != id
      {
        if bodies[i].id == id {
          return Some(i);
        }
      }
      return None;
    }

    // -------------------------------------------------------------------------
    // The walks.

    method ResolveHierarchyUp(body: SimulatedBody) returns (result: seq<SimulatedBody>)
      requires body in bodies && Walkable(bodies)
      ensures result == Up(bodies, body)
      decreases body.id
    {
      result := [];
      if body.parent.Some? {
        var found := GetBodyById(body.parent.value);
        if found.Some? {
          var parent := found.value;
          result := result + [parent];
          var sub := ResolveHierarchyUp(parent);
          result := result + sub;
        }
      }
    }

    method ResolveHierarchyDown(body: SimulatedBody) returns (result: seq<SimulatedBody>)
      requires body in bodies && SatellitesAfter(bodies)
      ensures result == Down(bodies, body)
      decreases IdCeiling(bodies) - body.id
    {
      result := [];
      for i := 0 to |body.satellites|
        invariant result == DownFrom(bodies, body, i)
      {
        DownFromUnfold(bodies, body, i);
        var found := GetBodyById(body.satellites[i]);
        if found.Some? {
          var sat := found.value;
          result := result + [sat];
          var sub := ResolveHierarchyDown(sat);
          result := result + sub;
        }
      }
    }

    // -------------------------------------------------------------------------
    // Advancing to a time.

    method GetBodyPosition(time: real, body: SimulatedBody, trig: Trig) returns (p: Vector3)
      requires PositionDefined(bodies, body)
      ensures p == BodyPosition(bodies, time, body, trig)
    {
      match body.body.dynamics
      case Static(position) =>
        p := position;
      case Orbiting(radius, period, normal) =>
        var parent := GetBodyById(body.parent.value);
        var progression := Fract(time / period);
        var angle := trig.pimul2 * progression;
        var rotation := AxisAngle(normal, angle, trig);
        p := Add(Apply(rotation, Vector3(radius, 0.0, 0.0)), parent.value.position);
        assert angle == Phase(time, period, trig);
        assert parent == FindById(bodies, body.parent.value);
    }

    /** Builds the schedule, then advances every scheduled record in schedule order; the
        list afterwards is `UpdateState` of the list before, and the counter is kept. */
    method Update(time: real, trig: Trig)
      requires UpdateDefined(bodies)
      modifies this
      ensures bodies == UpdateState(old(bodies), time, trig)
      ensures idCounter == old(idCounter)
      ensures old(Valid()) ==> Valid()
    {
      ghost var wasValid := Valid();
      var schedule := BuildSchedule();
      ghost var start := bodies;
      for i := 0 to |schedule|
        invariant bodies == RunSchedule(start, schedule[..i], time, trig)
        invariant idCounter == old(idCounter)
      {
        RunStepLemma(start, schedule, i, time, trig);
        AdvanceBody(schedule[i], time, trig);
      }
      assert schedule[..|schedule|] == schedule;
      if wasValid {
        FrameWellFormed(start, bodies, idCounter);
      }
    }

    /** One iteration of the second loop of `update`: the position now and one second
        ago, their difference as velocity and the orientation now are written into the
        first record with the id. */
    method AdvanceBody(id: int, time: real, trig: Trig)
      requires StepDefined(bodies, id)
      modifies this
      ensures bodies == Step(old(bodies), id, time, trig)
      ensures idCounter == old(idCounter)
      ensures old(Valid()) ==> Valid()
    {
      ghost var before := bodies;
      ghost var wasValid := Valid();
      var found := GetBodyById(id);
      var body := found.value;
      var position := GetBodyPosition(time, body, trig);
      var positionSecondAgo := GetBodyPosition(time - 1.0, body, trig);
      var velocity := Sub(position, positionSecondAgo);
      var orientation := BodyOrientation(time, body, trig);
      var k := GetMutBodyById(id);
      bodies := bodies[k.value := bodies[k.value].(position := position, velocity := velocity, orientation := orientation)];
      if wasValid {
        FrameWellFormed(before, bodies, idCounter);
      }
    }

    /** The first loop of `update`: for every Static record in list order, the ids of its
        walk down. */
    method BuildSchedule() returns (schedule: seq<int>)
      requires SatellitesAfter(bodies)
      ensures schedule == Schedule(bodies)
    {
      schedule := [];
      ghost var segs := Segments(bodies);
      for i := 0 to |bodies|
        invariant schedule == Concat(segs[..i])
      {
        ConcatStep(segs, i);
        assert bodies[i] in bodies;
        if bodies[i].body.dynamics.Static? {
          var hierarchy := ResolveHierarchyDown(bodies[i]);
          schedule := AppendIds(schedule, hierarchy);
        }
      }
      assert segs[..|bodies|] == segs;
    }

    // -------------------------------------------------------------------------
    // Queries.

    method GetBody(name: string) returns (r: SimulatedBody)
      requires FindByName(bodies, name).Some?
      ensures r in bodies && r.body.name == name
      ensures r == FindByName(bodies, name).value
    {
      var found := GetBodyByName(name);
      r := found.value;
    }

    method GetSurfaceVelocity(name: string, point: Vector3, trig: Trig) returns (v: Vector3)
      requires FindByName(bodies, name).Some? && FindByName(bodies, name).value.body.rotationPeriod != 0.0
      ensures v == SurfaceVelocity(FindByName(bodies, name).value, point, trig.pimul2)
    {
      var body := GetBody(name);
      var angularSpeed := trig.pimul2 / body.body.rotationPeriod;
      var angularVelocity := MulScalar(body.body.rotationAxis, angularSpeed);
      v := Cross(angularVelocity, point);
    }

    method FindClosestStatic(point: Vector3, sqrt: real -> real) returns (closest: nat)
      requires |bodies| > 0
      ensures closest == ClosestStatic(bodies, point, sqrt)
    {
      var minDistance: Option<real> := None;
      closest := 0;
      for i := 0 to |bodies|
        invariant minDistance.None? ==> closest == 0 && NearestStaticAmong(bodies, point, sqrt, i).None?
        invariant minDistance.Some? ==>
          (NearestStaticAmong(bodies, point, sqrt, i) == Some(closest) &&
           closest < |bodies| && minDistance.value == Distance(bodies[closest], point, sqrt))
      {
        if bodies[i].body.dynamics.Static? {
          var distance := DistanceTo(bodies[i].position, point, sqrt);
          if minDistance.None? || distance < minDistance.value {
            closest := i;
            minDistance := Some(distance);
          }
        }
      }
    }

    method FindClosestBody(point: Vector3, sqrt: real -> real) returns (r: SimulatedBody)
      requires |bodies| > 0 && SatellitesAfter(bodies)
      ensures r == ClosestBody(bodies, point, sqrt)
    {
      var k := FindClosestStatic(point, sqrt);
      var closestStatic := bodies[k];
      var down := ResolveHierarchyDown(closestStatic);
      if |down| == 0 {
        return closestStatic;
      }
      var closest := 0;
      var minDistance := DistanceTo(down[0].position, point, sqrt);
      for i := 1 to |down|
        invariant closest == NearestAmong(down, point, sqrt, i)
        invariant minDistance == Distance(down[closest], point, sqrt)
      {
        NearestStep(down, point, sqrt, i);
        var distance := DistanceTo(down[i].position, point, sqrt);
        if distance < minDistance {
          closest := i;
          minDistance := distance;
        }
      }
      r := down[closest];
    }

    method CalculateGravityFlux(point: Vector3, sqrt: real -> real) returns (flux: Vector3)
      requires |bodies| > 0 && SatellitesAfter(bodies)
      requires AllPullsDefined(GravityBodies(bodies, point, sqrt), point, sqrt)
      ensures flux == GravityFlux(bodies, point, sqrt)
    {
      var k := FindClosestStatic(point, sqrt);
      var closestStatic := bodies[k];
      var hierarchy := ResolveHierarchyDown(closestStatic);
      hierarchy := hierarchy + [closestStatic];
      assert hierarchy == GravityBodies(bodies, point, sqrt);
      assert hierarchy[..0] == [];
      flux := Zero();
      for i := 0 to |hierarchy|
        invariant AllPullsDefined(hierarchy[..i], point, sqrt)
        invariant flux == FluxOf(hierarchy[..i], point, sqrt)
      {
        FluxStep(hierarchy, i, point, sqrt);
        var body := hierarchy[i];
        var relative := Sub(body.position, point);
        var lengthSquared := LengthSquared(relative);
        var length := sqrt(lengthSquared);
        var strength := G_CONSTANT * body.body.mass / lengthSquared;
        var term := MulScalar(relative, 1.0 / length * strength);
        PullSteps(body, point, sqrt, relative, lengthSquared, length, strength);
        flux := Add(flux, term);
      }
      assert hierarchy[..|hierarchy|] == hierarchy;
    }
  }

  lemma AppendAssociates<T>(a: seq<T>, b: seq<T>, c: seq<T>)
    ensures (a + b) + c == a + (b + c)
  {
  }

  /** The innermost loop of `update`: pushes the id of every record of a walk. */
  method AppendIds(schedule: seq<int>, hierarchy: seq<SimulatedBody>) returns (r: seq<int>)
    ensures r == schedule + Ids(hierarchy)
  {
    r := schedule;
    for j := 0 to |hierarchy|
      invariant r == schedule + Ids(hierarchy[..j])
    {
      IdsStep(hierarchy, j);
      r := r + [hierarchy[j].id];
    }
    assert hierarchy[..|hierarchy|] == hierarchy;
  }

  /** One more step of the schedule: its prefix is defined on the list it starts from,
      and running it is running the shorter prefix and then the step. */
  lemma RunStepLemma(rs: seq<SimulatedBody>, sched: seq<int>, i: nat, time: real, trig: Trig)
    requires ScheduleDefined(rs, sched) && i < |sched|
    ensures ScheduleDefined(rs, sched[..i]) && ScheduleDefined(rs, sched[..i + 1])
    ensures StepDefined(RunSchedule(rs, sched[..i], time, trig), sched[i])
    ensures RunSchedule(rs, sched[..i + 1], time, trig) == Step(RunSchedule(rs, sched[..i], time, trig), sched[i], time, trig)
  {
    var p := sched[..i + 1];
    assert forall j :: 0 <= j < |p| ==> p[j] == sched[j];
    assert p[..i] == sched[..i];
    PrefixKeeps(rs, p);
    FrameStepDefined(rs, RunSchedule(rs, sched[..i], time, trig), sched[i]);
  }
}

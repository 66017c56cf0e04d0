/** Advancing the records to a time: which records are scheduled, where a body is at a
    time, and the state after running the schedule. The engine's `update` method is
    proved against `UpdateState` below. */
module Update {
  import opened Numerics
  import opened DecimalVector
  import opened DecimalMatrix
  import opened Records
  import opened Hierarchy

  /** The ids of a sequence of records, in order. */
  function Ids(d: seq<SimulatedBody>): (ids: seq<int>)
    ensures |ids| == |d| && forall k :: 0 <= k < |d| ==> ids[k] == d[k].id
  {
    if d == [] then [] else Ids(d[..|d| - 1]) + [d[|d| - 1].id]
  }

  // ---------------------------------------------------------------------------
  // The schedule.

  /** The part of the schedule one record contributes: for a Static record the ids of
      its walk down (which never includes the Static record itself), for an Orbiting
      record nothing. */
  function Segment(rs: seq<SimulatedBody>, t: SimulatedBody): seq<int>
    requires t in rs && SatellitesAfter(rs)
  {
    if t.body.dynamics.Static? then Ids(Down(rs, t)) else []
  }

  /** The segment of every record, in list order. */
  function Segments(rs: seq<SimulatedBody>): (segs: seq<seq<int>>)
    requires SatellitesAfter(rs)
    ensures |segs| == |rs| && forall i :: 0 <= i < |rs| ==> segs[i] == Segment(rs, rs[i])
  {
    seq(|rs|, i requires 0 <= i < |rs| => Segment(rs, rs[i]))
  }

  /** The segments one after the other. */
  function Concat(segs: seq<seq<int>>): seq<int> {
    if segs == [] then [] else Concat(segs[..|segs| - 1]) + segs[|segs| - 1]
  }

  /** One more segment, and one more id. */
  lemma ConcatStep(segs: seq<seq<int>>, i: nat)
    requires i < |segs|
    ensures Concat(segs[..i + 1]) == Concat(segs[..i]) + segs[i]
  {
    assert segs[..i + 1][..i] == segs[..i];
  }

  lemma IdsStep(d: seq<SimulatedBody>, j: nat)
    requires j < |d|
    ensures Ids(d[..j + 1]) == Ids(d[..j]) + [d[j].id]
  {
    assert d[..j + 1][..j] == d[..j];
  }

  /** The ids `update` advances, in the order it advances them. */
  function Schedule(rs: seq<SimulatedBody>): seq<int>
    requires SatellitesAfter(rs)
  {
    Concat(Segments(rs))
  }

  lemma {:induction false} ConcatMember(segs: seq<seq<int>>, id: int)
    ensures id in Concat(segs) <==> exists i :: 0 <= i < |segs| && id in segs[i]
  {
    if segs != [] {
      var init, last := segs[..|segs| - 1], segs[|segs| - 1];
      assert Concat(segs) == Concat(init) + last;
      ConcatMember(init, id);
      assert forall i :: 0 <= i < |init| ==> init[i] == segs[i];
    }
  }

  /** An id is in the schedule exactly when it is the id of a record on the walk down from
      some Static record. */
  lemma ScheduleMembers(rs: seq<SimulatedBody>, id: int)
    requires SatellitesAfter(rs)
    ensures id in Schedule(rs) <==>
      exists m, x :: 0 <= m < |rs| && rs[m].body.dynamics.Static? && x in Down(rs, rs[m]) && x.id == id
  {
    var segs := Segments(rs);
    ConcatMember(segs, id);
    if id in Schedule(rs) {
      var m :| 0 <= m < |segs| && id in segs[m];
      IdInSegment(rs, rs[m], id);
    }
    if exists m, x :: 0 <= m < |rs| && rs[m].body.dynamics.Static? && x in Down(rs, rs[m]) && x.id == id {
      var m, x :| 0 <= m < |rs| && rs[m].body.dynamics.Static? && x in Down(rs, rs[m]) && x.id == id;
      SegmentHasId(rs, rs[m], x);
    }
  }

  lemma IdInSegment(rs: seq<SimulatedBody>, t: SimulatedBody, id: int)
    requires t in rs && SatellitesAfter(rs) && id in Segment(rs, t)
    ensures t.body.dynamics.Static? && exists x :: x in Down(rs, t) && x.id == id
  {
    var d := Down(rs, t);
    var i :| 0 <= i < |d| && Ids(d)[i] == id;
    assert d[i] in d;
  }

  lemma SegmentHasId(rs: seq<SimulatedBody>, t: SimulatedBody, x: SimulatedBody)
    requires t in rs && SatellitesAfter(rs) && t.body.dynamics.Static? && x in Down(rs, t)
    ensures x.id in Segment(rs, t)
  {
    var d := Down(rs, t);
    var i :| 0 <= i < |d| && d[i] == x;
    assert Ids(d)[i] == x.id;
  }

  /** A record none of whose ancestors is Static is never scheduled; in particular no
      root record (one without a parent), Static or not, is ever scheduled. */
  lemma UnanchoredNotScheduled(rs: seq<SimulatedBody>, x: SimulatedBody)
    requires Walkable(rs) && ChildLinks(rs) && DistinctIds(rs) && x in rs
    requires forall a :: a in Up(rs, x) ==> !a.body.dynamics.Static?
    ensures x.id !in Schedule(rs)
  {
    ScheduleMembers(rs, x.id);
    if x.id in Schedule(rs) {
      var m, y :| 0 <= m < |rs| && rs[m].body.dynamics.Static? && y in Down(rs, rs[m]) && y.id == x.id;
      DownUnderAncestor(rs, rs[m], y);
    }
  }

  lemma RootNotScheduled(rs: seq<SimulatedBody>, x: SimulatedBody)
    requires Walkable(rs) && ChildLinks(rs) && DistinctIds(rs) && x in rs && x.parent.None?
    ensures x.id !in Schedule(rs)
  {
    UnanchoredNotScheduled(rs, x);
  }

  /** Every record on the walk down from a Static record is scheduled. */
  lemma AnchoredScheduled(rs: seq<SimulatedBody>, m: nat, x: SimulatedBody)
    requires SatellitesAfter(rs) && m < |rs| && rs[m].body.dynamics.Static? && x in Down(rs, rs[m])
    ensures x.id in Schedule(rs)
  {
    ScheduleMembers(rs, x.id);
  }

  // ---------------------------------------------------------------------------
  // Position and orientation at a time.

  /** Angle swept after `time` on a cycle of length `period`: 2π times the fractional
      part of time / period. */
  function Phase(time: real, period: real, trig: Trig): real
    requires period != 0.0
  {
    trig.pimul2 * Fract(time / period)
  }

  /** The angle only depends on the time modulo the period. */
  lemma PhasePeriodic(time: real, period: real, trig: Trig)
    requires period != 0.0
    ensures Phase(time + period, period, trig) == Phase(time, period, trig)
  {
    assert (time + period) / period == time / period + 1 as real;
    FractPeriodic(time / period, 1);
  }

  /** What `get_body_position` needs: an Orbiting body has a nonzero period and a parent
      whose record is found. */
  predicate PositionDefined(rs: seq<SimulatedBody>, r: SimulatedBody) {
    match r.body.dynamics
    case Static(_) => true
    case Orbiting(_, period, _) => period != 0.0 && r.parent.Some? && FindById(rs, r.parent.value).Some?
  }

  /** A Static body sits at its fixed position; an Orbiting body sits on its circle,
      `(radius, 0, 0)` turned about the orbit normal by the orbit phase, offset by the
      current runtime position of its parent's record. */
  function BodyPosition(rs: seq<SimulatedBody>, time: real, r: SimulatedBody, trig: Trig): Vector3
    requires PositionDefined(rs, r)
  {
    match r.body.dynamics
    case Static(p) => p
    case Orbiting(radius, period, normal) =>
      Add(Apply(AxisAngle(normal, Phase(time, period, trig), trig), Vector3(radius, 0.0, 0.0)),
          FindById(rs, r.parent.value).value.position)
  }

  /** The orientation: the rotation about the spin axis by the spin phase. */
  function BodyOrientation(time: real, r: SimulatedBody, trig: Trig): Matrix3
    requires r.body.rotationPeriod != 0.0
  {
    AxisAngle(r.body.rotationAxis, Phase(time, r.body.rotationPeriod, trig), trig)
  }

  /** Over one full orbit the position comes back to where it was, as long as the parent
      stays put. */
  lemma PositionPeriodic(rs: seq<SimulatedBody>, time: real, r: SimulatedBody, trig: Trig)
    requires PositionDefined(rs, r) && r.body.dynamics.Orbiting?
    ensures BodyPosition(rs, time + r.body.dynamics.orbitPeriod, r, trig) == BodyPosition(rs, time, r, trig)
  {
    PhasePeriodic(time, r.body.dynamics.orbitPeriod, trig);
  }

  /** Over one full turn the orientation comes back to what it was. */
  lemma OrientationPeriodic(time: real, r: SimulatedBody, trig: Trig)
    requires r.body.rotationPeriod != 0.0
    ensures BodyOrientation(time + r.body.rotationPeriod, r, trig) == BodyOrientation(time, r, trig)
  {
    PhasePeriodic(time, r.body.rotationPeriod, trig);
  }

  /** The one-second difference of positions does not depend on where the parent is: the
      parent's position is added at both instants and cancels, so the velocity is the
      velocity relative to the parent; a Static body's is zero. */
  lemma VelocityIgnoresParentPosition(a: seq<SimulatedBody>, b: seq<SimulatedBody>, time: real, r: SimulatedBody, trig: Trig)
    requires PositionDefined(a, r) && PositionDefined(b, r)
    ensures Sub(BodyPosition(a, time, r, trig), BodyPosition(a, time - 1.0, r, trig)) ==
            Sub(BodyPosition(b, time, r, trig), BodyPosition(b, time - 1.0, r, trig))
    ensures r.body.dynamics.Static? ==> Sub(BodyPosition(a, time, r, trig), BodyPosition(a, time - 1.0, r, trig)) == Zero()
  {
    if r.body.dynamics.Orbiting? {
      var d := r.body.dynamics;
      var now := Apply(AxisAngle(d.orbitPlaneNormal, Phase(time, d.orbitPeriod, trig), trig), Vector3(d.orbitRadius, 0.0, 0.0));
      var before := Apply(AxisAngle(d.orbitPlaneNormal, Phase(time - 1.0, d.orbitPeriod, trig), trig), Vector3(d.orbitRadius, 0.0, 0.0));
      OffsetCancels(now, before, FindById(a, r.parent.value).value.position);
      OffsetCancels(now, before, FindById(b, r.parent.value).value.position);
    }
  }

  lemma OffsetCancels(u: Vector3, v: Vector3, p: Vector3)
    ensures Sub(Add(u, p), Add(v, p)) == Sub(u, v)
  {
  }

  // ---------------------------------------------------------------------------
  // One step of the schedule, and the whole schedule.

  /** Two lists of records that differ at most in positions, velocities and orientations. */
  predicate SameFrame(a: seq<SimulatedBody>, b: seq<SimulatedBody>) {
    |a| == |b| &&
    forall k :: 0 <= k < |a| ==>
      a[k].id == b[k].id && a[k].body == b[k].body && a[k].parent == b[k].parent &&
      a[k].satellites == b[k].satellites
  }

  /** Lookups by id only see the frame. */
  lemma {:induction false} FrameLookup(a: seq<SimulatedBody>, b: seq<SimulatedBody>, id: int)
    requires SameFrame(a, b)
    ensures IndexOfId(a, id) == IndexOfId(b, id)
  {
    if a != [] && a[0].id != id {
      assert SameFrame(a[1..], b[1..]) by {
        forall k | 0 <= k < |a| - 1
          ensures a[1..][k].id == b[1..][k].id
        {
          assert a[1..][k] == a[k + 1] && b[1..][k] == b[k + 1];
        }
      }
      FrameLookup(a[1..], b[1..], id);
    }
  }

  /** What running one step for `id` needs: the record is found, its position is defined
      and its spin period is nonzero. */
  predicate StepDefined(rs: seq<SimulatedBody>, id: int) {
    FindById(rs, id).Some? && PositionDefined(rs, FindById(rs, id).value) &&
    FindById(rs, id).value.body.rotationPeriod != 0.0
  }

  lemma FrameStepDefined(a: seq<SimulatedBody>, b: seq<SimulatedBody>, id: int)
    requires SameFrame(a, b) && StepDefined(a, id)
    ensures StepDefined(b, id)
    ensures FindById(a, id).value.parent == FindById(b, id).value.parent
  {
    FrameLookup(a, b, id);
    var r := FindById(a, id).value;
    if r.parent.Some? {
      FrameLookup(a, b, r.parent.value);
    }
  }

  /** The record for `id` after one step at `time`: position at `time`, velocity as the
      difference to the position one second earlier, orientation at `time`. */
  function Advanced(rs: seq<SimulatedBody>, r: SimulatedBody, time: real, trig: Trig): SimulatedBody
    requires PositionDefined(rs, r) && r.body.rotationPeriod != 0.0
  {
    var p := BodyPosition(rs, time, r, trig);
    r.(position := p, velocity := Sub(p, BodyPosition(rs, time - 1.0, r, trig)),
       orientation := BodyOrientation(time, r, trig))
  }

  /** One step: the first record with the id is advanced; the frame and every record with
      another id stay as they were. */
  function Step(rs: seq<SimulatedBody>, id: int, time: real, trig: Trig): (r: seq<SimulatedBody>)
    requires StepDefined(rs, id)
    ensures SameFrame(rs, r)
    ensures forall j :: 0 <= j < |rs| && rs[j].id != id ==> r[j] == rs[j]
  {
    var k := IndexOfId(rs, id).value;
    rs[k := Advanced(rs, rs[k], time, trig)]
  }

  predicate ScheduleDefined(rs: seq<SimulatedBody>, sched: seq<int>) {
    forall i :: 0 <= i < |sched| ==> StepDefined(rs, sched[i])
  }

  /** The steps for the ids of `sched`, in order. The frame is kept and a record whose
      id is not scheduled is never written. */
  function RunSchedule(rs: seq<SimulatedBody>, sched: seq<int>, time: real, trig: Trig): (r: seq<SimulatedBody>)
    requires ScheduleDefined(rs, sched)
    ensures SameFrame(rs, r)
    ensures forall j :: 0 <= j < |rs| && rs[j].id !in sched ==> r[j] == rs[j]
    decreases |sched|
  {
    if sched == [] then rs else
      var init := sched[..|sched| - 1];
      PrefixKeeps(rs, sched);
      var before := RunSchedule(rs, init, time, trig);
      FrameStepDefined(rs, before, sched[|sched| - 1]);
      var after := Step(before, sched[|sched| - 1], time, trig);
      KeepOutside(rs, before, after, sched);
      after
  }

  /** Records untouched by a prefix of the schedule and not the target of the next step
      stay untouched. */
  lemma KeepOutside(rs: seq<SimulatedBody>, before: seq<SimulatedBody>, after: seq<SimulatedBody>, sched: seq<int>)
    requires |sched| > 0 && |rs| == |before| == |after|
    requires forall j :: 0 <= j < |rs| && rs[j].id !in sched[..|sched| - 1] ==> before[j] == rs[j]
    requires forall j :: 0 <= j < |before| && before[j].id != sched[|sched| - 1] ==> after[j] == before[j]
    ensures forall j :: 0 <= j < |rs| && rs[j].id !in sched ==> after[j] == rs[j]
  {
  }

  /** No scheduled step reads its own record as parent. */
  predicate NoSelfRead(rs: seq<SimulatedBody>, sched: seq<int>) {
    forall i :: 0 <= i < |sched| ==> ReadParent(rs, sched[i]) != Some(sched[i])
  }

  /** What holds of a schedule holds of it without its last step. */
  lemma PrefixKeeps(rs: seq<SimulatedBody>, sched: seq<int>)
    requires |sched| > 0
    ensures ScheduleDefined(rs, sched) ==> ScheduleDefined(rs, sched[..|sched| - 1])
    ensures NoSelfRead(rs, sched) ==> NoSelfRead(rs, sched[..|sched| - 1])
    ensures forall id :: id in sched && id != sched[|sched| - 1] ==> id in sched[..|sched| - 1]
  {
    var init := sched[..|sched| - 1];
    assert sched == init + [sched[|sched| - 1]];
    assert forall i :: 0 <= i < |init| ==> init[i] == sched[i];
  }

  /** What `update` needs: every scheduled step is defined. */
  predicate UpdateDefined(rs: seq<SimulatedBody>) {
    SatellitesAfter(rs) && ScheduleDefined(rs, Schedule(rs))
  }

  /** The records after `update(time)`. */
  function UpdateState(rs: seq<SimulatedBody>, time: real, trig: Trig): seq<SimulatedBody>
    requires UpdateDefined(rs)
  {
    RunSchedule(rs, Schedule(rs), time, trig)
  }

  // ---------------------------------------------------------------------------
  // Order of the schedule.

  lemma IdsConcat(a: seq<SimulatedBody>, b: seq<SimulatedBody>)
    ensures Ids(a + b) == Ids(a) + Ids(b)
  {
  }

  /** The record scheduled at position `p` names as parent a record scheduled earlier or a
      Static record. */
  predicate ParentScheduledBefore(rs: seq<SimulatedBody>, sched: seq<int>, p: nat)
    requires p < |sched|
  {
    FindById(rs, sched[p]).Some? ==>
      var x := FindById(rs, sched[p]).value;
      x.parent.Some? &&
      ((exists q :: 0 <= q < p && sched[q] == x.parent.value) ||
       (FindById(rs, x.parent.value).Some? && FindById(rs, x.parent.value).value.body.dynamics.Static?))
  }

  predicate ParentsScheduledFirst(rs: seq<SimulatedBody>, sched: seq<int>) {
    forall p :: 0 <= p < |sched| ==> ParentScheduledBefore(rs, sched, p)
  }

  lemma SegmentParentsFirst(rs: seq<SimulatedBody>, t: SimulatedBody)
    requires t in rs && SatellitesAfter(rs) && ChildLinks(rs) && DistinctIds(rs) && t.body.dynamics.Static?
    ensures ParentsScheduledFirst(rs, Ids(Down(rs, t)))
  {
    var d := Down(rs, t);
    DownParentsFirst(rs, t);
    DownBelow(rs, t);
    var kt :| 0 <= kt < |rs| && rs[kt] == t;
    FindByIdDistinct(rs, kt);
    forall p | 0 <= p < |d|
      ensures ParentScheduledBefore(rs, Ids(d), p)
    {
      EntryParentBefore(rs, t, d, p);
    }
  }

  /** One entry of a walk down from a Static record `t`: its parent is `t` or an earlier
      entry, so it is a Static record or scheduled earlier. */
  lemma EntryParentBefore(rs: seq<SimulatedBody>, t: SimulatedBody, d: seq<SimulatedBody>, p: nat)
    requires DistinctIds(rs) && FindById(rs, t.id) == Some(t) && t.body.dynamics.Static?
    requires p < |d| && d[p] in rs
    requires d[p].parent == Some(t.id) || exists j :: 0 <= j < p && d[p].parent == Some(d[j].id)
    ensures ParentScheduledBefore(rs, Ids(d), p)
  {
    var k :| 0 <= k < |rs| && rs[k] == d[p];
    FindByIdDistinct(rs, k);
    if d[p].parent != Some(t.id) {
      var j :| 0 <= j < p && d[p].parent == Some(d[j].id);
      assert Ids(d)[j] == d[j].id;
    }
  }

  lemma ParentBeforeInPrefix(rs: seq<SimulatedBody>, a: seq<int>, b: seq<int>, p: nat)
    requires p < |a| && ParentScheduledBefore(rs, a, p)
    ensures ParentScheduledBefore(rs, a + b, p)
  {
    var s := a + b;
    assert s[p] == a[p];
    if FindById(rs, s[p]).Some? {
      var x := FindById(rs, s[p]).value;
      if exists q :: 0 <= q < p && a[q] == x.parent.value {
        var q :| 0 <= q < p && a[q] == x.parent.value;
        assert s[q] == a[q];
      }
    }
  }

  lemma ParentBeforeInSuffix(rs: seq<SimulatedBody>, a: seq<int>, b: seq<int>, p: nat)
    requires p < |b| && ParentScheduledBefore(rs, b, p)
    ensures ParentScheduledBefore(rs, a + b, |a| + p)
  {
    var s := a + b;
    assert s[|a| + p] == b[p];
    if FindById(rs, b[p]).Some? {
      var x := FindById(rs, b[p]).value;
      if exists q :: 0 <= q < p && b[q] == x.parent.value {
        var q :| 0 <= q < p && b[q] == x.parent.value;
        assert s[|a| + q] == b[q];
      }
    }
  }

  lemma {:induction false} ConcatParentsFirst(rs: seq<SimulatedBody>, segs: seq<seq<int>>, p: nat)
    requires forall i :: 0 <= i < |segs| ==> ParentsScheduledFirst(rs, segs[i])
    requires p < |Concat(segs)|
    ensures ParentScheduledBefore(rs, Concat(segs), p)
  {
    var init := segs[..|segs| - 1];
    var last := segs[|segs| - 1];
    assert forall i :: 0 <= i < |init| ==> init[i] == segs[i];
    if p < |Concat(init)| {
      ConcatParentsFirst(rs, init, p);
      ParentBeforeInPrefix(rs, Concat(init), last, p);
    } else {
      ParentBeforeInSuffix(rs, Concat(init), last, p - |Concat(init)|);
    }
  }

  /** The schedule computes a parent's position before any of its children's: every
      scheduled body names as parent a body scheduled earlier or a Static body. */
  lemma ScheduleParentsFirst(rs: seq<SimulatedBody>)
    requires SatellitesAfter(rs) && ChildLinks(rs) && DistinctIds(rs)
    ensures ParentsScheduledFirst(rs, Schedule(rs))
  {
    var segs := Segments(rs);
    forall i | 0 <= i < |segs|
      ensures ParentsScheduledFirst(rs, segs[i])
    {
      if rs[i].body.dynamics.Static? {
        SegmentParentsFirst(rs, rs[i]);
      }
    }
    forall p | 0 <= p < |Schedule(rs)|
      ensures ParentScheduledBefore(rs, Schedule(rs), p)
    {
      ConcatParentsFirst(rs, segs, p);
    }
  }

  // ---------------------------------------------------------------------------
  // Only the frame decides the schedule.

  /** Well-formedness only looks at the frame. */
  lemma FrameWellFormed(a: seq<SimulatedBody>, b: seq<SimulatedBody>, counter: int)
    requires SameFrame(a, b) && WellFormed(a, counter)
    ensures WellFormed(b, counter)
  {
    FrameShape(a, b);
  }

  lemma FrameShape(a: seq<SimulatedBody>, b: seq<SimulatedBody>)
    requires SameFrame(a, b)
    ensures Walkable(a) ==> Walkable(b)
    ensures SatellitesAfter(a) ==> SatellitesAfter(b)
    ensures ChildLinks(a) ==> ChildLinks(b)
    ensures DistinctIds(a) ==> DistinctIds(b)
  {
  }

  lemma {:induction false} DownFrame(a: seq<SimulatedBody>, b: seq<SimulatedBody>, k: nat)
    requires SameFrame(a, b) && SatellitesAfter(a) && SatellitesAfter(b) && k < |a|
    ensures Ids(Down(a, a[k])) == Ids(Down(b, b[k]))
    decreases IdCeiling(a) - a[k].id, 1
  {
    DownFromFrame(a, b, k, |a[k].satellites|);
  }

  lemma {:induction false} DownFromFrame(a: seq<SimulatedBody>, b: seq<SimulatedBody>, k: nat, n: nat)
    requires SameFrame(a, b) && SatellitesAfter(a) && SatellitesAfter(b) && k < |a| && n <= |a[k].satellites|
    ensures Ids(DownFrom(a, a[k], n)) == Ids(DownFrom(b, b[k], n))
    decreases IdCeiling(a) - a[k].id, 0, n, 1
  {
    if n > 0 {
      var m: nat := n - 1;
      var c := a[k].satellites[m];
      FrameLookup(a, b, c);
      var found := IndexOfId(a, c);
      if found.None? {
        MissingSatelliteFrame(a, b, k, m);
      } else {
        FoundSatelliteFrame(a, b, k, m, found.value);
      }
    }
  }

  lemma {:induction false} MissingSatelliteFrame(a: seq<SimulatedBody>, b: seq<SimulatedBody>, k: nat, m: nat)
    requires SameFrame(a, b) && SatellitesAfter(a) && SatellitesAfter(b) && k < |a| && m < |a[k].satellites|
    requires IndexOfId(a, a[k].satellites[m]).None? && IndexOfId(b, b[k].satellites[m]).None?
    ensures Ids(DownFrom(a, a[k], m + 1)) == Ids(DownFrom(b, b[k], m + 1))
    decreases IdCeiling(a) - a[k].id, 0, m, 2
  {
    DownFromFrame(a, b, k, m);
    MissingSatelliteIds(a, a[k], m);
    MissingSatelliteIds(b, b[k], m);
  }

  lemma {:induction false} FoundSatelliteFrame(a: seq<SimulatedBody>, b: seq<SimulatedBody>, k: nat, m: nat, i: nat)
    requires SameFrame(a, b) && SatellitesAfter(a) && SatellitesAfter(b) && k < |a| && m < |a[k].satellites|
    requires IndexOfId(a, a[k].satellites[m]) == Some(i) && IndexOfId(b, b[k].satellites[m]) == Some(i)
    ensures Ids(DownFrom(a, a[k], m + 1)) == Ids(DownFrom(b, b[k], m + 1))
    decreases IdCeiling(a) - a[k].id, 0, m, 2
  {
    DownFromFrame(a, b, k, m);
    SatelliteOrder(a, k, m, i);
    DownFrame(a, b, i);
    FoundSatelliteIds(a, a[k], m, i);
    FoundSatelliteIds(b, b[k], m, i);
  }

  /** A satellite whose record is missing adds nothing to the walk down. */
  lemma MissingSatelliteIds(rs: seq<SimulatedBody>, r: SimulatedBody, m: nat)
    requires r in rs && SatellitesAfter(rs) && m < |r.satellites|
    requires IndexOfId(rs, r.satellites[m]).None?
    ensures DownFrom(rs, r, m + 1) == DownFrom(rs, r, m)
  {
    SatelliteAfterOwner(rs, r, m);
  }

  /** The ids the satellite at position `m` adds to the walk down when its record sits at
      index `i`. */
  lemma FoundSatelliteIds(rs: seq<SimulatedBody>, r: SimulatedBody, m: nat, i: nat)
    requires r in rs && SatellitesAfter(rs) && m < |r.satellites| && i < |rs|
    requires IndexOfId(rs, r.satellites[m]) == Some(i)
    ensures Ids(DownFrom(rs, r, m + 1)) == Ids(DownFrom(rs, r, m)) + [rs[i].id] + Ids(Down(rs, rs[i]))
  {
    DownFromUnfold(rs, r, m);
    IdsJoin(DownFrom(rs, r, m), rs[i], Down(rs, rs[i]));
  }

  lemma IdsJoin(a: seq<SimulatedBody>, x: SimulatedBody, b: seq<SimulatedBody>)
    ensures Ids(a + [x] + b) == Ids(a) + [x.id] + Ids(b)
  {
    IdsConcat(a + [x], b);
    IdsConcat(a, [x]);
  }

  lemma SatelliteOrder(rs: seq<SimulatedBody>, k: nat, j: nat, i: nat)
    requires SatellitesAfter(rs) && k < |rs| && j < |rs[k].satellites| && i < |rs|
    requires rs[i].id == rs[k].satellites[j]
    ensures rs[k].id < rs[i].id
  {
    assert rs[k].satellites[j] in rs[k].satellites;
  }

  /** Positions, velocities and orientations do not influence the schedule. */
  lemma ScheduleFrame(a: seq<SimulatedBody>, b: seq<SimulatedBody>)
    requires SameFrame(a, b) && SatellitesAfter(a)
    ensures SatellitesAfter(b) && Schedule(a) == Schedule(b)
  {
    FrameShape(a, b);
    forall i | 0 <= i < |a|
      ensures Segment(a, a[i]) == Segment(b, b[i])
    {
      DownFrame(a, b, i);
    }
    assert Segments(a) == Segments(b);
  }

  // ---------------------------------------------------------------------------
  // Running the schedule twice.

  /** The id of the parent whose position the step for `id` reads, if it reads one. */
  function ReadParent(rs: seq<SimulatedBody>, id: int): Option<int> {
    match FindById(rs, id)
    case None => None
    case Some(r) => if r.body.dynamics.Orbiting? then r.parent else None
  }

  lemma FrameReadParent(a: seq<SimulatedBody>, b: seq<SimulatedBody>, id: int)
    requires SameFrame(a, b)
    ensures ReadParent(a, id) == ReadParent(b, id)
  {
    FrameLookup(a, b, id);
  }

  /** A step changes nothing exactly when the found record is already advanced. */
  lemma StepFixedPoint(rs: seq<SimulatedBody>, id: int, time: real, trig: Trig)
    requires StepDefined(rs, id)
    ensures Step(rs, id, time, trig) == rs <==> Advanced(rs, FindById(rs, id).value, time, trig) == FindById(rs, id).value
  {
    var k := IndexOfId(rs, id).value;
    assert Step(rs, id, time, trig)[k] == Advanced(rs, rs[k], time, trig);
  }

  /** A step for `y` leaves the record found for any other id as it was. */
  lemma StepKeepsOther(rs: seq<SimulatedBody>, y: int, x: int, time: real, trig: Trig)
    requires StepDefined(rs, y) && x != y
    ensures FindById(Step(rs, y, time, trig), x) == FindById(rs, x)
  {
    var after := Step(rs, y, time, trig);
    FrameLookup(rs, after, x);
    if IndexOfId(rs, x).Some? {
      var k := IndexOfId(rs, x).value;
      assert after[k] == rs[k];
    }
  }

  /** Advancing a record reads the list only through its parent's record. */
  lemma AdvancedReadsParent(a: seq<SimulatedBody>, b: seq<SimulatedBody>, r: SimulatedBody, time: real, trig: Trig)
    requires PositionDefined(a, r) && PositionDefined(b, r) && r.body.rotationPeriod != 0.0
    requires r.body.dynamics.Orbiting? ==> FindById(a, r.parent.value) == FindById(b, r.parent.value)
    ensures Advanced(a, r, time, trig) == Advanced(b, r, time, trig)
  {
  }

  /** A step reads only the parent's position and writes only its own record, so a step for
      another id that is not the parent leaves an already settled step settled. */
  lemma SettledStepStaysSettled(rs: seq<SimulatedBody>, y: int, id: int, time: real, trig: Trig)
    requires StepDefined(rs, y) && StepDefined(rs, id) && y != id && ReadParent(rs, id) != Some(y)
    requires Step(rs, id, time, trig) == rs
    ensures StepDefined(Step(rs, y, time, trig), id)
    ensures Step(Step(rs, y, time, trig), id, time, trig) == Step(rs, y, time, trig)
  {
    var after := Step(rs, y, time, trig);
    FrameStepDefined(rs, after, id);
    StepKeepsOther(rs, y, id, time, trig);
    var r := FindById(rs, id).value;
    if r.body.dynamics.Orbiting? {
      StepKeepsOther(rs, y, r.parent.value, time, trig);
    }
    AdvancedReadsParent(after, rs, r, time, trig);
    StepFixedPoint(rs, id, time, trig);
    StepFixedPoint(after, id, time, trig);
  }

  /** Repeating a step changes nothing when the record is not its own parent. */
  lemma StepRepeated(rs: seq<SimulatedBody>, y: int, time: real, trig: Trig)
    requires StepDefined(rs, y) && ReadParent(rs, y) != Some(y)
    ensures StepDefined(Step(rs, y, time, trig), y)
    ensures Step(Step(rs, y, time, trig), y, time, trig) == Step(rs, y, time, trig)
  {
    var after := Step(rs, y, time, trig);
    FrameStepDefined(rs, after, y);
    FrameLookup(rs, after, y);
    var k := IndexOfId(rs, y).value;
    var r := rs[k];
    if r.body.dynamics.Orbiting? {
      var pid := r.parent.value;
      FrameLookup(rs, after, pid);
      var kp := IndexOfId(rs, pid).value;
      assert rs[kp].id != y;
      assert after[kp] == rs[kp];
    }
    assert BodyPosition(after, time, after[k], trig) == BodyPosition(rs, time, r, trig);
    assert BodyPosition(after, time - 1.0, after[k], trig) == BodyPosition(rs, time - 1.0, r, trig);
    assert Advanced(after, after[k], time, trig) == after[k];
  }

  /** In `sched`, every occurrence of `pid` is followed by a later occurrence of `id`. */
  predicate Followed(sched: seq<int>, pid: int, id: int) {
    forall j :: 0 <= j < |sched| && sched[j] == pid ==> exists l :: j < l < |sched| && sched[l] == id
  }

  /** The last step for `id` comes after every step that moves the parent it reads. */
  predicate SettlesAfterParent(rs: seq<SimulatedBody>, sched: seq<int>, id: int) {
    ReadParent(rs, id).Some? ==> Followed(sched, ReadParent(rs, id).value, id)
  }

  /** After running a schedule, a scheduled step whose parent does not move after it is a
      fixed point. */
  lemma {:induction false} RunScheduleSettles(rs: seq<SimulatedBody>, sched: seq<int>, id: int, time: real, trig: Trig)
    requires ScheduleDefined(rs, sched) && id in sched && SettlesAfterParent(rs, sched, id)
    requires NoSelfRead(rs, sched)
    ensures StepDefined(RunSchedule(rs, sched, time, trig), id)
    ensures Step(RunSchedule(rs, sched, time, trig), id, time, trig) == RunSchedule(rs, sched, time, trig)
    decreases |sched|
  {
    var init, y := sched[..|sched| - 1], sched[|sched| - 1];
    PrefixKeeps(rs, sched);
    var before := RunSchedule(rs, init, time, trig);
    FrameStepDefined(rs, before, y);
    FrameReadParent(rs, before, y);
    if id == y {
      StepRepeated(before, y, time, trig);
    } else {
      FrameStepDefined(rs, before, id);
      FrameReadParent(rs, before, id);
      if ReadParent(rs, id).Some? {
        FollowedInPrefix(sched, ReadParent(rs, id).value, id);
      }
      RunScheduleSettles(rs, init, id, time, trig);
      SettledStepStaysSettled(before, y, id, time, trig);
    }
  }

  lemma FollowedInPrefix(sched: seq<int>, pid: int, id: int)
    requires |sched| > 0 && Followed(sched, pid, id) && sched[|sched| - 1] != id
    ensures Followed(sched[..|sched| - 1], pid, id) && sched[|sched| - 1] != pid
  {
    var init := sched[..|sched| - 1];
    forall j | 0 <= j < |init| && init[j] == pid
      ensures exists l :: j < l < |init| && init[l] == id
    {
      assert sched[j] == pid;
      var l :| j < l < |sched| && sched[l] == id;
      assert init[l] == id;
    }
  }

  /** A schedule made of steps that are all fixed points changes nothing. */
  lemma {:induction false} RunSettledSchedule(rs: seq<SimulatedBody>, sched: seq<int>, time: real, trig: Trig)
    requires ScheduleDefined(rs, sched)
    requires forall i :: 0 <= i < |sched| ==> Step(rs, sched[i], time, trig) == rs
    ensures RunSchedule(rs, sched, time, trig) == rs
    decreases |sched|
  {
    if sched != [] {
      var init, y := sched[..|sched| - 1], sched[|sched| - 1];
      PrefixKeeps(rs, sched);
      forall i | 0 <= i < |init|
        ensures Step(rs, init[i], time, trig) == rs
      {
        assert init[i] == sched[i];
      }
      RunSettledSchedule(rs, init, time, trig);
      assert Step(rs, y, time, trig) == rs;
    }
  }

  /** In every segment, each occurrence of `o`'s id is followed later by the id `c` of a
      satellite of `o` whose record is found. */
  lemma SegmentFollowed(rs: seq<SimulatedBody>, t: SimulatedBody, o: SimulatedBody, c: int)
    requires t in rs && o in rs && SatellitesAfter(rs) && DistinctIds(rs)
    requires c in o.satellites && FindById(rs, c).Some?
    ensures Followed(Segment(rs, t), o.id, c)
  {
    if t.body.dynamics.Static? {
      var d := Down(rs, t);
      forall j | 0 <= j < |Ids(d)| && Ids(d)[j] == o.id
        ensures exists l :: j < l < |Ids(d)| && Ids(d)[l] == c
      {
        DownFollowed(rs, t, o, c, j);
        var l :| j < l < |d| && d[l].id == c;
        assert Ids(d)[l] == c;
      }
    }
  }

  lemma {:induction false} ConcatFollowed(segs: seq<seq<int>>, pid: int, id: int, j: nat)
    requires forall i :: 0 <= i < |segs| ==> Followed(segs[i], pid, id)
    requires j < |Concat(segs)| && Concat(segs)[j] == pid
    ensures exists l :: j < l < |Concat(segs)| && Concat(segs)[l] == id
    decreases |segs|
  {
    var init := segs[..|segs| - 1];
    var last := segs[|segs| - 1];
    assert forall i :: 0 <= i < |init| ==> init[i] == segs[i];
    assert Concat(segs) == Concat(init) + last;
    if j < |Concat(init)| {
      ConcatFollowed(init, pid, id, j);
      var l :| j < l < |Concat(init)| && Concat(init)[l] == id;
      assert Concat(segs)[l] == Concat(init)[l];
    } else {
      var i := j - |Concat(init)|;
      assert last[i] == pid;
      var l :| i < l < |last| && last[l] == id;
      assert Concat(segs)[|Concat(init)| + l] == id;
    }
  }

  /** Every scheduled body is stepped again after each step of the parent it reads, so its
      last step sees the parent's final position. */
  lemma ScheduleSettles(rs: seq<SimulatedBody>, id: int)
    requires SatellitesAfter(rs) && ChildLinks(rs) && DistinctIds(rs) && id in Schedule(rs)
    ensures SettlesAfterParent(rs, Schedule(rs), id)
  {
    if ReadParent(rs, id).Some? {
      var o := ScheduledOwner(rs, id);
      ScheduleFollowed(rs, o, id);
    }
  }

  /** A scheduled body with a parent to read is listed as a satellite by a record, which
      is that parent. */
  lemma ScheduledOwner(rs: seq<SimulatedBody>, id: int) returns (o: SimulatedBody)
    requires SatellitesAfter(rs) && ChildLinks(rs) && DistinctIds(rs) && id in Schedule(rs)
    requires ReadParent(rs, id).Some?
    ensures o in rs && id in o.satellites && FindById(rs, id).Some? && ReadParent(rs, id) == Some(o.id)
  {
    ScheduleMembers(rs, id);
    var m, x :| 0 <= m < |rs| && rs[m].body.dynamics.Static? && x in Down(rs, rs[m]) && x.id == id;
    DownBelow(rs, rs[m]);
    DownListed(rs, rs[m], x);
    o :| o in rs && x.id in o.satellites;
    ChildNamesOwner(rs, o, x);
    var kx :| 0 <= kx < |rs| && rs[kx] == x;
    FindByIdDistinct(rs, kx);
  }

  /** Every step of a record `o` in the schedule is followed by a step of its satellite
      `c` whose record is found. */
  lemma ScheduleFollowed(rs: seq<SimulatedBody>, o: SimulatedBody, c: int)
    requires SatellitesAfter(rs) && DistinctIds(rs) && o in rs && c in o.satellites && FindById(rs, c).Some?
    ensures Followed(Schedule(rs), o.id, c)
  {
    var segs := Segments(rs);
    forall i | 0 <= i < |segs|
      ensures Followed(segs[i], o.id, c)
    {
      SegmentFollowed(rs, rs[i], o, c);
    }
    forall j | 0 <= j < |Schedule(rs)| && Schedule(rs)[j] == o.id
      ensures exists l :: j < l < |Schedule(rs)| && Schedule(rs)[l] == c
    {
      ConcatFollowed(segs, o.id, c, j);
    }
  }

  /** The parent a step reads has a smaller id than the body stepped, so no step reads
      its own record. */
  lemma ParentReadIsEarlier(rs: seq<SimulatedBody>, id: int)
    requires ParentsBefore(rs)
    ensures ReadParent(rs, id).Some? ==> ReadParent(rs, id).value < id
  {
    if FindById(rs, id).Some? {
      var r := FindById(rs, id).value;
      var k :| 0 <= k < |rs| && rs[k] == r;
    }
  }

  /** Running `update` twice with the same time changes nothing the second time: every
      position, velocity and orientation is a function of the time and of the frame, which
      `update` keeps. */
  lemma UpdateIdempotent(rs: seq<SimulatedBody>, time: real, trig: Trig)
    requires UpdateDefined(rs) && ChildLinks(rs) && DistinctIds(rs)
    ensures UpdateDefined(UpdateState(rs, time, trig))
    ensures UpdateState(UpdateState(rs, time, trig), time, trig) == UpdateState(rs, time, trig)
  {
    var s := Schedule(rs);
    var after := RunSchedule(rs, s, time, trig);
    ScheduleFrame(rs, after);
    assert NoSelfRead(rs, s) by {
      forall i | 0 <= i < |s|
        ensures ReadParent(rs, s[i]) != Some(s[i])
      {
        if ReadParent(rs, s[i]).Some? {
          var o := ScheduledOwner(rs, s[i]);
        }
      }
    }
    forall i | 0 <= i < |s|
      ensures StepDefined(after, s[i]) && Step(after, s[i], time, trig) == after
    {
      ScheduleSettles(rs, s[i]);
      RunScheduleSettles(rs, s, s[i], time, trig);
    }
    RunSettledSchedule(after, s, time, trig);
  }
}

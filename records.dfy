/** The runtime records of the engine: one `SimulatedBody` per registered body, kept in a
    flat list and linked by integer ids, with the first-match lookups over that list and
    the flattening of a body tree into records. */
module Records {
  import opened DecimalVector
  import opened DecimalMatrix
  import opened Bodies

  datatype Option<T> = None | Some(value: T)

  /** A registered body: its id, its input description, the three fields `update`
      overwrites, the id of its parent (if any) and the ids of its satellites. */
  datatype SimulatedBody = SimulatedBody(
    id: int,
    body: Body,
    position: Vector3,
    velocity: Vector3,
    orientation: Matrix3,
    parent: Option<int>,
    satellites: seq<int>)

  /** A record as registration creates it: zero position and velocity, identity
      orientation. */
  function Fresh(id: int, body: Body, parent: Option<int>, satellites: seq<int>): SimulatedBody {
    SimulatedBody(id, body, Zero(), Zero(), Identity(), parent, satellites)
  }

  // ---------------------------------------------------------------------------
  // First-match lookups.

  /** Index of the first record with the given id, or `None` when there is none. */
  function IndexOfId(rs: seq<SimulatedBody>, id: int): (r: Option<nat>)
    ensures r.Some? ==> r.value < |rs| && rs[r.value].id == id
    ensures r.Some? ==> forall j :: 0 <= j < r.value ==> rs[j].id != id
    ensures r.None? <==> forall j :: 0 <= j < |rs| ==> rs[j].id != id
  {
    if rs == [] then None
    else if rs[0].id == id then Some(0)
    else
      match IndexOfId(rs[1..], id)
      case None => None
      case Some(k) => Some(k + 1)
  }

  /** Index of the first record whose body has the given name, or `None`. */
  function IndexOfName(rs: seq<SimulatedBody>, name: string): (r: Option<nat>)
    ensures r.Some? ==> r.value < |rs| && rs[r.value].body.name == name
    ensures r.Some? ==> forall j :: 0 <= j < r.value ==> rs[j].body.name != name
    ensures r.None? <==> forall j :: 0 <= j < |rs| ==> rs[j].body.name != name
  {
    if rs == [] then None
    else if rs[0].body.name == name then Some(0)
    else
      match IndexOfName(rs[1..], name)
      case None => None
      case Some(k) => Some(k + 1)
  }

  /** The first record with the given id. */
  function FindById(rs: seq<SimulatedBody>, id: int): (r: Option<SimulatedBody>)
    ensures r.Some? ==> r.value in rs && r.value.id == id
    ensures r.None? <==> forall k :: 0 <= k < |rs| ==> rs[k].id != id
  {
    match IndexOfId(rs, id)
    case None => None
    case Some(k) => Some(rs[k])
  }

  /** The first record with the given name. */
  function FindByName(rs: seq<SimulatedBody>, name: string): (r: Option<SimulatedBody>)
    ensures r.Some? ==> r.value in rs && r.value.body.name == name
    ensures r.None? <==> forall k :: 0 <= k < |rs| ==> rs[k].body.name != name
  {
    match IndexOfName(rs, name)
    case None => None
    case Some(k) => Some(rs[k])
  }

  /** With distinct ids, the record at index `k` is the one found by its id. */
  lemma FindByIdDistinct(rs: seq<SimulatedBody>, k: nat)
    requires DistinctIds(rs) && k < |rs|
    ensures IndexOfId(rs, rs[k].id) == Some(k)
    ensures FindById(rs, rs[k].id) == Some(rs[k])
  {
  }

  /** With distinct ids a record of the list is determined by its id. */
  lemma SameIdSameRecord(rs: seq<SimulatedBody>, a: SimulatedBody, b: SimulatedBody)
    requires DistinctIds(rs) && a in rs && b in rs && a.id == b.id
    ensures a == b
  {
    var i :| 0 <= i < |rs| && rs[i] == a;
    var j :| 0 <= j < |rs| && rs[j] == b;
    FindByIdDistinct(rs, i);
    FindByIdDistinct(rs, j);
  }

  // ---------------------------------------------------------------------------
  // Shape of a list of records.

  predicate IdsIn(rs: seq<SimulatedBody>, lo: int, hi: int) {
    forall k :: 0 <= k < |rs| ==> lo <= rs[k].id < hi
  }

  predicate DistinctIds(rs: seq<SimulatedBody>) {
    forall i, j :: 0 <= i < j < |rs| ==> rs[i].id != rs[j].id
  }

  /** Every record is as registration left it. */
  predicate AllFresh(rs: seq<SimulatedBody>) {
    forall k :: 0 <= k < |rs| ==>
      rs[k].position == Zero() && rs[k].velocity == Zero() && rs[k].orientation == Identity()
  }

  /** Every satellite id is greater than its owner's id and below `hi`. */
  predicate SatellitesIn(rs: seq<SimulatedBody>, hi: int) {
    forall k, c :: 0 <= k < |rs| && c in rs[k].satellites ==> rs[k].id < c < hi
  }

  /** Every satellite id is greater than its owner's id. */
  predicate SatellitesAfter(rs: seq<SimulatedBody>) {
    forall k, c :: 0 <= k < |rs| && c in rs[k].satellites ==> rs[k].id < c
  }

  /** Every parent id is smaller than the id of its child. */
  predicate ParentsBefore(rs: seq<SimulatedBody>) {
    forall k :: 0 <= k < |rs| && rs[k].parent.Some? ==> rs[k].parent.value < rs[k].id
  }

  /** Every record whose id a record lists as a satellite names that record as parent. */
  predicate ChildLinks(rs: seq<SimulatedBody>) {
    forall k, j :: 0 <= k < |rs| && 0 <= j < |rs| && rs[j].id in rs[k].satellites ==>
      rs[j].parent == Some(rs[k].id)
  }

  /** Every record whose id is in `ids` names `parentId` as parent. */
  predicate PointTo(rs: seq<SimulatedBody>, ids: seq<int>, parentId: int) {
    forall k :: 0 <= k < |rs| && rs[k].id in ids ==> rs[k].parent == Some(parentId)
  }

  /** What every registration keeps, whatever parent it is given: one record for each id
      below `counter`, and satellite links that the satellites confirm. */
  predicate Registered(rs: seq<SimulatedBody>, counter: int) {
    |rs| == counter && IdsIn(rs, 0, counter) && DistinctIds(rs) && SatellitesIn(rs, counter) &&
    ChildLinks(rs)
  }

  /** The parent a registration is meant to be given: none, or an id already handed out
      (an id below `counter`). */
  predicate KnownParent(parent: Option<int>, counter: int) {
    parent.None? || parent.value < counter
  }

  /** The well-formedness the engine keeps when every parent is an id already handed out:
      a registered list whose parents come before their children. */
  predicate WellFormed(rs: seq<SimulatedBody>, counter: int) {
    Registered(rs, counter) && ParentsBefore(rs)
  }

  // ---------------------------------------------------------------------------
  // Flattening a body tree: ids pre-order, records post-order.

  /** The ids `add_hierarchy` hands to a list of satellites whose first one receives
      `start`: each subtree takes as many ids as it has bodies. */
  function ChildIds(bs: seq<Body>, start: int): seq<int> {
    if bs == [] then [] else
      var init := bs[..|bs| - 1];
      ChildIds(init, start) + [start + SizeOf(init)]
  }

  /** The records `add_hierarchy(b, parent)` appends when the counter stands at `start`:
      the subtrees of the satellites in order, then the record of `b` itself. */
  function Flatten(b: Body, parent: Option<int>, start: int): seq<SimulatedBody>
    decreases b, 1
  {
    FlattenChildren(b.satellites, start, start + 1) + [Fresh(start, b, parent, ChildIds(b.satellites, start + 1))]
  }

  /** The records appended for the satellites `bs` of the body with id `parentId`, the
      first of them receiving `start`. */
  function FlattenChildren(bs: seq<Body>, parentId: int, start: int): seq<SimulatedBody>
    decreases bs, 0
  {
    if bs == [] then [] else
      var init := bs[..|bs| - 1];
      FlattenChildren(init, parentId, start) + Flatten(bs[|bs| - 1], Some(parentId), start + SizeOf(init))
  }

  /** One more satellite: the size, the ids and the records of the first `i + 1`
      satellites extend those of the first `i` by the `i`-th subtree. */
  lemma ChildrenStep(bs: seq<Body>, i: nat, parentId: int, start: int)
    requires i < |bs|
    ensures SizeOf(bs[..i + 1]) == SizeOf(bs[..i]) + Size(bs[i])
    ensures ChildIds(bs[..i + 1], start) == ChildIds(bs[..i], start) + [start + SizeOf(bs[..i])]
    ensures FlattenChildren(bs[..i + 1], parentId, start) ==
      FlattenChildren(bs[..i], parentId, start) + Flatten(bs[i], Some(parentId), start + SizeOf(bs[..i]))
  {
    assert bs[..i + 1][..i] == bs[..i];
  }

  // ---------------------------------------------------------------------------
  // Properties of the flattening.

  /** One id per satellite, all of them in the id range the satellites take. */
  lemma ChildIdsRange(bs: seq<Body>, start: int)
    ensures |ChildIds(bs, start)| == |bs|
    ensures forall c :: c in ChildIds(bs, start) ==> start <= c < start + SizeOf(bs)
  {
    ChildIdsAt(bs, start);
    var ids := ChildIds(bs, start);
    forall c | c in ids
      ensures start <= c < start + SizeOf(bs)
    {
      var k :| 0 <= k < |ids| && ids[k] == c;
      SizeOfPrefix(bs, k);
    }
  }

  /** Ids in input order: the `k`-th satellite's id is `start` plus the number of bodies
      in the subtrees before it. */
  lemma {:induction false} ChildIdsAt(bs: seq<Body>, start: int)
    ensures |ChildIds(bs, start)| == |bs|
    ensures forall k :: 0 <= k < |bs| ==> ChildIds(bs, start)[k] == start + SizeOf(bs[..k])
  {
    if bs != [] {
      var init := bs[..|bs| - 1];
      var ids := ChildIds(bs, start);
      ChildIdsAt(init, start);
      assert ids == ChildIds(init, start) + [start + SizeOf(init)];
      forall k | 0 <= k < |bs|
        ensures ids[k] == start + SizeOf(bs[..k])
      {
        if k < |init| {
          assert bs[..k] == init[..k];
        } else {
          assert bs[..k] == init;
        }
      }
    }
  }

  /** The subtrees before the `k`-th hold fewer bodies than the whole list. */
  lemma {:induction false} SizeOfPrefix(bs: seq<Body>, k: nat)
    requires k < |bs|
    ensures SizeOf(bs[..k]) < SizeOf(bs)
    decreases |bs|
  {
    var init := bs[..|bs| - 1];
    if k == |bs| - 1 {
      assert bs[..k] == init;
    } else {
      SizeOfPrefix(init, k);
      assert init[..k] == bs[..k];
    }
  }

  lemma ConcatRange(a: seq<SimulatedBody>, b: seq<SimulatedBody>, lo: int, mid: int, hi: int)
    requires lo <= mid <= hi && IdsIn(a, lo, mid) && IdsIn(b, mid, hi)
    ensures IdsIn(a + b, lo, hi)
  {
    var ab := a + b;
    forall k | 0 <= k < |ab|
      ensures lo <= ab[k].id < hi
    {
      if k >= |a| {
        assert ab[k] == b[k - |a|];
      }
    }
  }

  lemma ConcatIds(a: seq<SimulatedBody>, b: seq<SimulatedBody>, lo: int, mid: int, hi: int)
    requires lo <= mid <= hi && IdsIn(a, lo, mid) && IdsIn(b, mid, hi) && DistinctIds(a) && DistinctIds(b)
    ensures IdsIn(a + b, lo, hi) && DistinctIds(a + b)
  {
    var ab := a + b;
    forall k | 0 <= k < |ab|
      ensures lo <= ab[k].id < hi
    {
      if k >= |a| {
        assert ab[k] == b[k - |a|];
      }
    }
    forall i, j | 0 <= i < j < |ab|
      ensures ab[i].id != ab[j].id
    {
      if j < |a| {
      } else if i >= |a| {
        assert ab[i] == b[i - |a|] && ab[j] == b[j - |a|];
      } else {
        assert ab[j] == b[j - |a|];
      }
    }
  }

  lemma ConcatSatellites(a: seq<SimulatedBody>, b: seq<SimulatedBody>, mid: int, hi: int)
    requires mid <= hi && SatellitesIn(a, mid) && SatellitesIn(b, hi)
    ensures SatellitesIn(a + b, hi)
  {
    var ab := a + b;
    forall k, c | 0 <= k < |ab| && c in ab[k].satellites
      ensures ab[k].id < c < hi
    {
      if k >= |a| {
        assert ab[k] == b[k - |a|];
      }
    }
  }

  lemma ConcatLinks(a: seq<SimulatedBody>, b: seq<SimulatedBody>, lo: int, mid: int, hi: int)
    requires IdsIn(a, lo, mid) && IdsIn(b, mid, hi)
    requires SatellitesIn(a, mid) && SatellitesIn(b, hi) && ChildLinks(a) && ChildLinks(b)
    ensures ChildLinks(a + b)
  {
    var ab := a + b;
    forall k, j | 0 <= k < |ab| && 0 <= j < |ab| && ab[j].id in ab[k].satellites
      ensures ab[j].parent == Some(ab[k].id)
    {
      if k >= |a| {
        assert ab[k] == b[k - |a|];
        if j >= |a| {
          assert ab[j] == b[j - |a|];
        }
      }
    }
  }

  lemma ConcatShape(a: seq<SimulatedBody>, b: seq<SimulatedBody>, lo: int, mid: int, hi: int)
    requires lo <= mid <= hi && IdsIn(a, lo, mid) && IdsIn(b, mid, hi) && DistinctIds(a) && DistinctIds(b)
    requires SatellitesIn(a, mid) && SatellitesIn(b, hi) && ChildLinks(a) && ChildLinks(b)
    ensures IdsIn(a + b, lo, hi) && DistinctIds(a + b) && SatellitesIn(a + b, hi) && ChildLinks(a + b)
  {
    ConcatIds(a, b, lo, mid, hi);
    ConcatSatellites(a, b, mid, hi);
    ConcatLinks(a, b, lo, mid, hi);
  }

  lemma ConcatParents(a: seq<SimulatedBody>, b: seq<SimulatedBody>)
    requires ParentsBefore(a) && ParentsBefore(b)
    ensures ParentsBefore(a + b)
  {
  }

  // Ids: how many records, which ids, and where satellites point.

  /** The records `add_hierarchy(b, parent)` appends number as many as the tree has
      bodies, take distinct ids from `start` on, and list satellites above their owner and
      inside that range. */
  lemma {:induction false} FlattenIds(b: Body, parent: Option<int>, start: int)
    ensures var f := Flatten(b, parent, start);
      |f| == Size(b) && IdsIn(f, start, start + Size(b)) && DistinctIds(f) && SatellitesIn(f, start + Size(b))
    decreases b, 1
  {
    var c := FlattenChildren(b.satellites, start, start + 1);
    var root := Fresh(start, b, parent, ChildIds(b.satellites, start + 1));
    FlattenChildrenIds(b.satellites, start, start + 1);
    ChildIdsRange(b.satellites, start + 1);
    RootAppended(c, root, start + 1, start + Size(b));
  }

  lemma {:induction false} FlattenChildrenIds(bs: seq<Body>, parentId: int, start: int)
    ensures var c := FlattenChildren(bs, parentId, start);
      |c| == SizeOf(bs) && IdsIn(c, start, start + SizeOf(bs)) && DistinctIds(c) &&
      SatellitesIn(c, start + SizeOf(bs))
    decreases bs, 0
  {
    if bs != [] {
      var init, last := bs[..|bs| - 1], bs[|bs| - 1];
      var mid := start + SizeOf(init);
      FlattenChildrenIds(init, parentId, start);
      FlattenIds(last, Some(parentId), mid);
      ConcatIds(FlattenChildren(init, parentId, start), Flatten(last, Some(parentId), mid), start, mid, mid + Size(last));
      ConcatSatellites(FlattenChildren(init, parentId, start), Flatten(last, Some(parentId), mid), mid, mid + Size(last));
    }
  }

  /** The same counts and ranges as `FlattenIds`, without distinctness. */
  lemma {:induction false} FlattenRange(b: Body, parent: Option<int>, start: int)
    ensures var f := Flatten(b, parent, start);
      |f| == Size(b) && IdsIn(f, start, start + Size(b)) && SatellitesIn(f, start + Size(b))
    decreases b, 1
  {
    var c := FlattenChildren(b.satellites, start, start + 1);
    var root := Fresh(start, b, parent, ChildIds(b.satellites, start + 1));
    FlattenChildrenRange(b.satellites, start, start + 1);
    ChildIdsRange(b.satellites, start + 1);
    RootRange(c, root, start + 1, start + Size(b));
  }

  lemma {:induction false} FlattenChildrenRange(bs: seq<Body>, parentId: int, start: int)
    ensures var c := FlattenChildren(bs, parentId, start);
      |c| == SizeOf(bs) && IdsIn(c, start, start + SizeOf(bs)) && SatellitesIn(c, start + SizeOf(bs))
    decreases bs, 0
  {
    if bs != [] {
      var init, last := bs[..|bs| - 1], bs[|bs| - 1];
      var mid := start + SizeOf(init);
      FlattenChildrenRange(init, parentId, start);
      FlattenRange(last, Some(parentId), mid);
      ConcatRange(FlattenChildren(init, parentId, start), Flatten(last, Some(parentId), mid), start, mid, mid + Size(last));
      ConcatSatellites(FlattenChildren(init, parentId, start), Flatten(last, Some(parentId), mid), mid, mid + Size(last));
    }
  }

  lemma RootRange(c: seq<SimulatedBody>, root: SimulatedBody, lo: int, hi: int)
    requires lo <= hi && IdsIn(c, lo, hi) && SatellitesIn(c, hi)
    requires root.id == lo - 1 && forall x :: x in root.satellites ==> lo <= x < hi
    ensures IdsIn(c + [root], lo - 1, hi) && SatellitesIn(c + [root], hi)
  {
    var f := c + [root];
    forall k | 0 <= k < |f|
      ensures lo - 1 <= f[k].id < hi
    {
      if k < |c| {
        assert f[k] == c[k];
      }
    }
    forall k, x | 0 <= k < |f| && x in f[k].satellites
      ensures f[k].id < x < hi
    {
      if k < |c| {
        assert f[k] == c[k];
      }
    }
  }

  /** A root record with an id just below the range of its subtrees, whose satellites lie
      in that range, can follow the subtrees' records. */
  lemma RootAppended(c: seq<SimulatedBody>, root: SimulatedBody, lo: int, hi: int)
    requires lo <= hi && IdsIn(c, lo, hi) && DistinctIds(c) && SatellitesIn(c, hi)
    requires root.id == lo - 1 && forall x :: x in root.satellites ==> lo <= x < hi
    ensures IdsIn(c + [root], lo - 1, hi) && DistinctIds(c + [root]) && SatellitesIn(c + [root], hi)
  {
    var f := c + [root];
    forall k | 0 <= k < |f|
      ensures lo - 1 <= f[k].id < hi
    {
      if k < |c| {
        assert f[k] == c[k];
      }
    }
    forall i, j | 0 <= i < j < |f|
      ensures f[i].id != f[j].id
    {
      assert f[i] == c[i];
      if j < |c| {
        assert f[j] == c[j];
      }
    }
    forall k, x | 0 <= k < |f| && x in f[k].satellites
      ensures f[k].id < x < hi
    {
      if k < |c| {
        assert f[k] == c[k];
      }
    }
  }

  // Links: satellites confirm their owner, parents come first.

  /** Below the root of a registered tree, every record comes after its parent: a
      satellite subtree's root names the owner, whose id is smaller than the range the
      subtree takes. */
  lemma {:induction false} FlattenChildrenParents(bs: seq<Body>, parentId: int, start: int)
    requires parentId < start
    ensures ParentsBefore(FlattenChildren(bs, parentId, start))
    decreases bs
  {
    if bs != [] {
      var init, last := bs[..|bs| - 1], bs[|bs| - 1];
      var mid := start + SizeOf(init);
      var f := Flatten(last, Some(parentId), mid);
      var c := FlattenChildren(last.satellites, mid, mid + 1);
      FlattenChildrenParents(init, parentId, start);
      FlattenChildrenParents(last.satellites, mid, mid + 1);
      AppendParentsBefore(c, [f[|f| - 1]]);
      assert f == c + [f[|f| - 1]];
      ConcatParents(FlattenChildren(init, parentId, start), f);
    }
  }

  /** The records of the satellites `bs` whose ids are the satellites' own ids name
      `parentId` as parent. */
  lemma {:induction false} FlattenChildrenPointTo(bs: seq<Body>, parentId: int, start: int)
    ensures PointTo(FlattenChildren(bs, parentId, start), ChildIds(bs, start), parentId)
  {
    if bs != [] {
      var init, last := bs[..|bs| - 1], bs[|bs| - 1];
      var mid := start + SizeOf(init);
      var a, f := FlattenChildren(init, parentId, start), Flatten(last, Some(parentId), mid);
      var ids := ChildIds(init, start);
      FlattenChildrenPointTo(init, parentId, start);
      FlattenChildrenRange(init, parentId, start);
      ChildIdsRange(init, start);
      PointToExtended(a, ids, mid, parentId);
      SubtreePointTo(last, parentId, mid, ids + [mid]);
      ConcatPointTo(a, f, ids + [mid], parentId);
    }
  }

  /** Of the records of a satellite's subtree, the only one with an id up to `start` is
      its root, which names `parentId`. */
  lemma SubtreePointTo(b: Body, parentId: int, start: int, ids: seq<int>)
    requires forall c :: c in ids ==> c <= start
    ensures PointTo(Flatten(b, Some(parentId), start), ids, parentId)
  {
    var f := Flatten(b, Some(parentId), start);
    var c := FlattenChildren(b.satellites, start, start + 1);
    FlattenChildrenRange(b.satellites, start, start + 1);
    forall k | 0 <= k < |f| - 1
      ensures f[k] == c[k] && start < f[k].id
    {
    }
  }

  /** The records `add_hierarchy(b, parent)` appends confirm every satellite link. */
  lemma {:induction false} FlattenLinks(b: Body, parent: Option<int>, start: int)
    ensures ChildLinks(Flatten(b, parent, start))
    decreases b, 1
  {
    var c := FlattenChildren(b.satellites, start, start + 1);
    var sats := ChildIds(b.satellites, start + 1);
    var root := Fresh(start, b, parent, sats);
    FlattenChildrenLinks(b.satellites, start, start + 1);
    FlattenChildrenPointTo(b.satellites, start, start + 1);
    FlattenChildrenRange(b.satellites, start, start + 1);
    ChildIdsRange(b.satellites, start + 1);
    RootLinks(c, root, sats, start, start + Size(b));
  }

  lemma {:induction false} FlattenChildrenLinks(bs: seq<Body>, parentId: int, start: int)
    ensures ChildLinks(FlattenChildren(bs, parentId, start))
    decreases bs, 0
  {
    if bs != [] {
      var init, last := bs[..|bs| - 1], bs[|bs| - 1];
      var mid := start + SizeOf(init);
      var a, f := FlattenChildren(init, parentId, start), Flatten(last, Some(parentId), mid);
      FlattenChildrenLinks(init, parentId, start);
      FlattenLinks(last, Some(parentId), mid);
      FlattenChildrenRange(init, parentId, start);
      FlattenRange(last, Some(parentId), mid);
      ConcatLinks(a, f, start, mid, mid + Size(last));
    }
  }

  /** The root record after the records of its subtrees: every satellite it lists is a
      subtree root pointing back at it, and ids above it are never its own. */
  lemma RootLinks(c: seq<SimulatedBody>, root: SimulatedBody, sats: seq<int>, id: int, hi: int)
    requires ChildLinks(c) && PointTo(c, sats, id) && root.id == id && root.satellites == sats
    requires IdsIn(c, id + 1, hi) && SatellitesIn(c, hi) && forall x :: x in sats ==> id < x
    ensures ChildLinks(c + [root])
  {
    var f := c + [root];
    forall k, j | 0 <= k < |f| && 0 <= j < |f| && f[j].id in f[k].satellites
      ensures f[j].parent == Some(f[k].id)
    {
      if k == |c| {
        assert j < |c|;
        assert f[j] == c[j];
      } else {
        assert f[k] == c[k];
        assert j < |c|;
        assert f[j] == c[j];
      }
    }
  }

  lemma PointToExtended(a: seq<SimulatedBody>, ids: seq<int>, next: int, parentId: int)
    requires PointTo(a, ids, parentId)
    requires forall k :: 0 <= k < |a| ==> a[k].id < next
    ensures PointTo(a, ids + [next], parentId)
  {
  }

  lemma ConcatPointTo(a: seq<SimulatedBody>, f: seq<SimulatedBody>, ids: seq<int>, parentId: int)
    requires PointTo(a, ids, parentId) && PointTo(f, ids, parentId)
    ensures PointTo(a + f, ids, parentId)
  {
    var c := a + f;
    forall k | 0 <= k < |c| && c[k].id in ids
      ensures c[k].parent == Some(parentId)
    {
      if k >= |a| {
        assert c[k] == f[k - |a|];
      }
    }
  }

  /** The records `add_hierarchy(b, parent)` appends: as many as the tree has bodies, with
      distinct ids from `start` on, satellites after their owner, consistent links, every
      non-root record after its parent, and the root record last, carrying `start`, the
      given parent and the ids of its satellites in input order. */
  lemma FlattenFacts(b: Body, parent: Option<int>, start: int)
    ensures var f := Flatten(b, parent, start);
      |f| == Size(b) && f[|f| - 1] == Fresh(start, b, parent, ChildIds(b.satellites, start + 1)) &&
      IdsIn(f, start, start + Size(b)) && DistinctIds(f) &&
      SatellitesIn(f, start + Size(b)) && ChildLinks(f) && ParentsBefore(f[..|f| - 1])
  {
    var f := Flatten(b, parent, start);
    FlattenIds(b, parent, start);
    FlattenLinks(b, parent, start);
    FlattenChildrenParents(b.satellites, start, start + 1);
    assert f[..|f| - 1] == FlattenChildren(b.satellites, start, start + 1);
  }

  /** Every record registration creates starts at rest: zero position and velocity and
      the identity orientation. */
  lemma {:induction false} FlattenFresh(b: Body, parent: Option<int>, start: int)
    ensures AllFresh(Flatten(b, parent, start))
    decreases b, 1
  {
    FlattenChildrenFresh(b.satellites, start, start + 1);
  }

  lemma {:induction false} FlattenChildrenFresh(bs: seq<Body>, parentId: int, start: int)
    ensures AllFresh(FlattenChildren(bs, parentId, start))
    decreases bs, 0
  {
    if bs != [] {
      var init := bs[..|bs| - 1];
      FlattenChildrenFresh(init, parentId, start);
      FlattenFresh(bs[|bs| - 1], Some(parentId), start + SizeOf(init));
    }
  }

  /** Registering a tree at `counter` keeps the list well formed with the counter moved
      past the tree, as long as the parent given for its root is an id already handed
      out. */
  lemma AddKeepsWellFormed(rs: seq<SimulatedBody>, counter: int, b: Body, parent: Option<int>)
    requires WellFormed(rs, counter) && KnownParent(parent, counter)
    ensures WellFormed(rs + Flatten(b, parent, counter), counter + Size(b))
  {
    var f := Flatten(b, parent, counter);
    FlattenFacts(b, parent, counter);
    ConcatShape(rs, f, 0, counter, counter + Size(b));
    AppendParentsBefore(rs, f);
  }

  /** Registering a tree at `counter` under any parent, even one never handed out, keeps
      the list registered with the counter moved past the tree. */
  lemma AddKeepsRegistered(rs: seq<SimulatedBody>, counter: int, b: Body, parent: Option<int>)
    requires Registered(rs, counter)
    ensures Registered(rs + Flatten(b, parent, counter), counter + Size(b))
  {
    FlattenFacts(b, parent, counter);
    ConcatShape(rs, Flatten(b, parent, counter), 0, counter, counter + Size(b));
  }

  /** Registering a tree under any parent, even one never handed out, keeps every
      satellite id above its owner's: the old records keep their satellite lists and the
      new ones list only later ids. */
  lemma AddKeepsSatellitesAfter(rs: seq<SimulatedBody>, b: Body, parent: Option<int>, start: int)
    requires SatellitesAfter(rs)
    ensures SatellitesAfter(rs + Flatten(b, parent, start))
  {
    FlattenFacts(b, parent, start);
  }

  /** Parents stay before children when a list whose records up to the last keep parents
      first, and whose last record does too, is appended. */
  lemma AppendParentsBefore(rs: seq<SimulatedBody>, f: seq<SimulatedBody>)
    requires |f| > 0 && ParentsBefore(rs) && ParentsBefore(f[..|f| - 1])
    requires f[|f| - 1].parent.Some? ==> f[|f| - 1].parent.value < f[|f| - 1].id
    ensures ParentsBefore(rs + f)
  {
    var all := rs + f;
    forall k | 0 <= k < |all| && all[k].parent.Some?
      ensures all[k].parent.value < all[k].id
    {
      if k >= |rs| {
        var i := k - |rs|;
        assert all[k] == f[i];
        if i < |f| - 1 {
          assert f[i] == f[..|f| - 1][i];
        }
      }
    }
  }
}

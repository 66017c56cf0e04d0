/** The two walks over the parent/satellite links of the records: up from a body through
    its ancestors, and down from a body through its descendants. Both look every id up
    with the first-match lookup and skip ids that are not found. */
module Hierarchy {
  import opened Bodies
  import opened Records

  /** What the walk up needs to terminate: ids are non-negative, a parent's id is below
      its child's (and a satellite's id above its owner's, which is all the walk down
      needs). */
  predicate Walkable(rs: seq<SimulatedBody>) {
    (forall k :: 0 <= k < |rs| ==> 0 <= rs[k].id) && ParentsBefore(rs) && SatellitesAfter(rs)
  }

  lemma WellFormedIsWalkable(rs: seq<SimulatedBody>, counter: int)
    requires WellFormed(rs, counter)
    ensures Walkable(rs)
  {
  }

  /** `add_hierarchy` takes any parent id. Given the very id it is about to hand out, the
      root it registers names itself as parent: the lookup of that parent finds the root
      again, so the walk up from it never gets any further, and the list is not
      `Walkable`. */
  lemma SelfParentNotWalkable(rs: seq<SimulatedBody>, counter: int, b: Body)
    requires Registered(rs, counter)
    ensures var all := rs + Flatten(b, Some(counter), counter);
      all[|all| - 1].parent == Some(all[|all| - 1].id) &&
      FindById(all, all[|all| - 1].id) == Some(all[|all| - 1]) && !Walkable(all)
  {
    var all := rs + Flatten(b, Some(counter), counter);
    AddKeepsRegistered(rs, counter, b, Some(counter));
    FlattenFacts(b, Some(counter), counter);
    FindByIdDistinct(all, |all| - 1);
  }

  /** With the parent restricted to ids already handed out, registration keeps the list
      well formed, so the walk up is defined from every record. */
  lemma KnownParentWalkable(rs: seq<SimulatedBody>, counter: int, b: Body, parent: Option<int>)
    requires WellFormed(rs, counter) && KnownParent(parent, counter)
    ensures WellFormed(rs + Flatten(b, parent, counter), counter + Size(b))
    ensures Walkable(rs + Flatten(b, parent, counter))
  {
    AddKeepsWellFormed(rs, counter, b, parent);
    WellFormedIsWalkable(rs + Flatten(b, parent, counter), counter + Size(b));
  }

  /** One more than the largest id, and at least zero: a bound for the walk down. */
  function IdCeiling(rs: seq<SimulatedBody>): (c: int)
    ensures 0 <= c
    ensures forall k :: 0 <= k < |rs| ==> rs[k].id < c
  {
    if rs == [] then 0 else
      var c := IdCeiling(rs[..|rs| - 1]);
      assert forall k :: 0 <= k < |rs| - 1 ==> rs[k] == rs[..|rs| - 1][k];
      if rs[|rs| - 1].id < c then c else rs[|rs| - 1].id + 1
  }

  // ---------------------------------------------------------------------------
  // resolve_hierarchy_up

  /** The ancestors of `r`: its parent's record, then that record's ancestors. */
  function Up(rs: seq<SimulatedBody>, r: SimulatedBody): seq<SimulatedBody>
    requires r in rs && Walkable(rs)
    decreases r.id
  {
    match r.parent
    case None => []
    case Some(p) =>
      match FindById(rs, p)
      case None => []
      case Some(q) => [q] + Up(rs, q)
  }

  /** The walk up is a chain of parents, nearest first: it starts at the record of `r`'s
      parent, each entry names the next as its parent, the ids strictly decrease (so no
      ancestor appears twice), and it is empty exactly when `r` has no parent or its
      parent's id is not found. */
  lemma {:induction false} UpChain(rs: seq<SimulatedBody>, r: SimulatedBody)
    requires r in rs && Walkable(rs)
    ensures var u := Up(rs, r);
      (forall k :: 0 <= k < |u| ==> u[k] in rs) &&
      (|u| == 0 <==> r.parent.None? || FindById(rs, r.parent.value).None?) &&
      (|u| > 0 ==> Some(u[0]) == FindById(rs, r.parent.value)) &&
      (forall k :: 0 <= k < |u| - 1 ==> u[k].parent == Some(u[k + 1].id)) &&
      (forall k :: 0 <= k < |u| ==> u[k].id < r.id) &&
      (forall i, j :: 0 <= i < j < |u| ==> u[j].id < u[i].id)
    decreases r.id
  {
    UpIdsDecrease(rs, r);
    if r.parent.Some? && FindById(rs, r.parent.value).Some? {
      var q := FindById(rs, r.parent.value).value;
      UpChain(rs, q);
      ConsChain(q, Up(rs, q));
    }
  }

  /** Putting a record in front of a chain of parents whose head is its parent's record
      gives a chain of parents. */
  lemma ConsChain(q: SimulatedBody, s: seq<SimulatedBody>)
    requires |s| > 0 ==> q.parent == Some(s[0].id)
    requires forall k :: 0 <= k < |s| - 1 ==> s[k].parent == Some(s[k + 1].id)
    ensures var u := [q] + s; forall k :: 0 <= k < |u| - 1 ==> u[k].parent == Some(u[k + 1].id)
  {
    var u := [q] + s;
    forall k | 0 <= k < |u| - 1
      ensures u[k].parent == Some(u[k + 1].id)
    {
      if k > 0 {
        assert u[k] == s[k - 1] && u[k + 1] == s[k];
      }
    }
  }

  /** The ids along the walk up are below `r`'s and strictly decrease. */
  lemma {:induction false} UpIdsDecrease(rs: seq<SimulatedBody>, r: SimulatedBody)
    requires r in rs && Walkable(rs)
    ensures forall k :: 0 <= k < |Up(rs, r)| ==> Up(rs, r)[k] in rs
    ensures forall k :: 0 <= k < |Up(rs, r)| ==> Up(rs, r)[k].id < r.id
    ensures forall i, j :: 0 <= i < j < |Up(rs, r)| ==> Up(rs, r)[j].id < Up(rs, r)[i].id
    decreases r.id
  {
    if r.parent.Some? && FindById(rs, r.parent.value).Some? {
      var q := FindById(rs, r.parent.value).value;
      UpIdsDecrease(rs, q);
      ConsDecreasing(q, Up(rs, q));
      assert Up(rs, r) == [q] + Up(rs, q);
    }
  }

  /** Putting a record in front of records with smaller, strictly decreasing ids keeps the
      ids strictly decreasing. */
  lemma ConsDecreasing(q: SimulatedBody, s: seq<SimulatedBody>)
    requires forall k :: 0 <= k < |s| ==> s[k].id < q.id
    requires forall i, j :: 0 <= i < j < |s| ==> s[j].id < s[i].id
    ensures var u := [q] + s; forall i, j :: 0 <= i < j < |u| ==> u[j].id < u[i].id
  {
    var u := [q] + s;
    forall i, j | 0 <= i < j < |u|
      ensures u[j].id < u[i].id
    {
      assert u[j] == s[j - 1];
      if i > 0 {
        assert u[i] == s[i - 1];
      }
    }
  }

  /** Ancestors of an ancestor are ancestors. */
  lemma {:induction false} UpTransitive(rs: seq<SimulatedBody>, x: SimulatedBody, s: SimulatedBody)
    requires x in rs && Walkable(rs) && s in Up(rs, x)
    ensures s in rs && forall y :: y in Up(rs, s) ==> y in Up(rs, x)
    decreases x.id
  {
    var q := FindById(rs, x.parent.value).value;
    if s != q {
      UpTransitive(rs, q, s);
    }
  }

  // ---------------------------------------------------------------------------
  // resolve_hierarchy_down

  lemma SatelliteAfterOwner(rs: seq<SimulatedBody>, r: SimulatedBody, i: nat)
    requires r in rs && SatellitesAfter(rs) && i < |r.satellites|
    ensures r.id < r.satellites[i]
  {
    var k :| 0 <= k < |rs| && rs[k] == r;
    assert r.satellites[i] in rs[k].satellites;
  }

  /** The descendants of `r`, depth first: for each satellite id in order whose record is
      found, that record followed by its own descendants. */
  function Down(rs: seq<SimulatedBody>, r: SimulatedBody): seq<SimulatedBody>
    requires r in rs && SatellitesAfter(rs)
    decreases IdCeiling(rs) - r.id, 1
  {
    DownFrom(rs, r, |r.satellites|)
  }

  /** The part of the walk down contributed by the first `n` satellites of `r`. */
  function DownFrom(rs: seq<SimulatedBody>, r: SimulatedBody, n: nat): seq<SimulatedBody>
    requires r in rs && SatellitesAfter(rs) && n <= |r.satellites|
    decreases IdCeiling(rs) - r.id, 0, n
  {
    if n == 0 then [] else
      assert r.id < r.satellites[n - 1] by { SatelliteAfterOwner(rs, r, n - 1); }
      DownFrom(rs, r, n - 1) +
      match FindById(rs, r.satellites[n - 1])
      case None => []
      case Some(s) => [s] + Down(rs, s)
  }

  /** Every record of the walk down is a record of the list whose id exceeds `r`'s; in
      particular `r` itself is never part of it. */
  lemma {:induction false} DownBelow(rs: seq<SimulatedBody>, r: SimulatedBody)
    requires r in rs && SatellitesAfter(rs)
    ensures forall k :: 0 <= k < |Down(rs, r)| ==> Down(rs, r)[k] in rs && r.id < Down(rs, r)[k].id
    decreases IdCeiling(rs) - r.id, 1
  {
    DownFromBelow(rs, r, |r.satellites|);
  }

  lemma {:induction false} DownFromBelow(rs: seq<SimulatedBody>, r: SimulatedBody, n: nat)
    requires r in rs && SatellitesAfter(rs) && n <= |r.satellites|
    ensures forall k :: 0 <= k < |DownFrom(rs, r, n)| ==>
      DownFrom(rs, r, n)[k] in rs && r.id < DownFrom(rs, r, n)[k].id
    decreases IdCeiling(rs) - r.id, 0, n
  {
    if n > 0 {
      DownFromBelow(rs, r, n - 1);
      var found := FindById(rs, r.satellites[n - 1]);
      if found.Some? {
        var s := found.value;
        SatelliteAfterOwner(rs, r, n - 1);
        DownBelow(rs, s);
      }
    }
  }

  /** Under consistent links a record listed as satellite names its owner as parent. */
  lemma ChildNamesOwner(rs: seq<SimulatedBody>, r: SimulatedBody, s: SimulatedBody)
    requires r in rs && s in rs && ChildLinks(rs) && s.id in r.satellites
    ensures s.parent == Some(r.id)
  {
    var i, k :| 0 <= i < |rs| && rs[i] == s && 0 <= k < |rs| && rs[k] == r;
  }

  /** With distinct ids the walk up from a listed satellite starts at its owner. */
  lemma OwnerIsParent(rs: seq<SimulatedBody>, r: SimulatedBody, s: SimulatedBody)
    requires r in rs && s in rs && Walkable(rs) && ChildLinks(rs) && DistinctIds(rs)
    requires s.id in r.satellites
    ensures Up(rs, s) == [r] + Up(rs, r)
  {
    ChildNamesOwner(rs, r, s);
    var k :| 0 <= k < |rs| && rs[k] == r;
    FindByIdDistinct(rs, k);
  }

  /** Every record of a sequence names as parent either `owner` or a record before it. */
  predicate ParentsFirst(d: seq<SimulatedBody>, owner: int) {
    forall k :: 0 <= k < |d| ==>
      d[k].parent == Some(owner) || exists j :: 0 <= j < k && d[k].parent == Some(d[j].id)
  }

  lemma ParentsFirstConcat(a: seq<SimulatedBody>, s: SimulatedBody, d: seq<SimulatedBody>, owner: int)
    requires ParentsFirst(a, owner) && s.parent == Some(owner) && ParentsFirst(d, s.id)
    ensures ParentsFirst(a + [s] + d, owner)
  {
    var all := a + [s] + d;
    forall k | 0 <= k < |all|
      ensures all[k].parent == Some(owner) || exists j :: 0 <= j < k && all[k].parent == Some(all[j].id)
    {
      if k < |a| {
        assert all[k] == a[k];
        if a[k].parent != Some(owner) {
          var j :| 0 <= j < k && a[k].parent == Some(a[j].id);
          assert all[j] == a[j];
        }
      } else if k > |a| {
        var i := k - |a| - 1;
        assert all[k] == d[i];
        if d[i].parent == Some(s.id) {
          assert all[|a|] == s;
        } else {
          assert exists j :: 0 <= j < i && d[i].parent == Some(d[j].id);
          var j :| 0 <= j < i && d[i].parent == Some(d[j].id);
          assert all[|a| + 1 + j] == d[j];
        }
      }
    }
  }

  /** With consistent links the walk down visits every parent before its children: each
      record of it names `r` or an earlier record of it as parent. */
  lemma {:induction false} DownParentsFirst(rs: seq<SimulatedBody>, r: SimulatedBody)
    requires r in rs && SatellitesAfter(rs) && ChildLinks(rs)
    ensures ParentsFirst(Down(rs, r), r.id)
    decreases IdCeiling(rs) - r.id, 1
  {
    DownFromParentsFirst(rs, r, |r.satellites|);
  }

  lemma {:induction false} DownFromParentsFirst(rs: seq<SimulatedBody>, r: SimulatedBody, n: nat)
    requires r in rs && SatellitesAfter(rs) && ChildLinks(rs) && n <= |r.satellites|
    ensures ParentsFirst(DownFrom(rs, r, n), r.id)
    decreases IdCeiling(rs) - r.id, 0, n
  {
    if n > 0 {
      var m: nat := n - 1;
      DownFromStep(rs, r, m, n);
      DownFromParentsFirst(rs, r, m);
      var found := FindById(rs, r.satellites[m]);
      if found.Some? {
        var s := found.value;
        assert r.satellites[m] in r.satellites;
        ChildNamesOwner(rs, r, s);
        DownParentsFirst(rs, s);
        ParentsFirstConcat(DownFrom(rs, r, m), s, Down(rs, s), r.id);
      }
    }
  }

  /** The walk down reaches every satellite of `r` whose record is found: the record of
      the `i`-th satellite is part of the walk over the first `n > i` satellites. */
  lemma {:induction false} DownHasSatellite(rs: seq<SimulatedBody>, r: SimulatedBody, n: nat, i: nat)
    requires r in rs && SatellitesAfter(rs) && i < n <= |r.satellites|
    requires FindById(rs, r.satellites[i]).Some?
    ensures FindById(rs, r.satellites[i]).value in DownFrom(rs, r, n)
  {
    var m: nat := n - 1;
    DownFromStep(rs, r, m, n);
    var y := FindById(rs, r.satellites[i]).value;
    if i < m {
      DownHasSatellite(rs, r, m, i);
    } else {
      assert i == m;
    }
    var found := FindById(rs, r.satellites[m]);
    if found.Some? {
      InConcat(DownFrom(rs, r, m), found.value, Down(rs, found.value), DownFrom(rs, r, n), y);
    }
  }

  /** With distinct ids and consistent links, `r` is an ancestor of everything below it. */
  lemma {:induction false} DownUnderAncestor(rs: seq<SimulatedBody>, r: SimulatedBody, x: SimulatedBody)
    requires r in rs && Walkable(rs) && ChildLinks(rs) && DistinctIds(rs)
    requires x in Down(rs, r)
    ensures x in rs && r in Up(rs, x)
    decreases IdCeiling(rs) - r.id, 1
  {
    DownFromUnderAncestor(rs, r, |r.satellites|, x);
  }

  lemma {:induction false} DownFromUnderAncestor(rs: seq<SimulatedBody>, r: SimulatedBody, n: nat, x: SimulatedBody)
    requires r in rs && Walkable(rs) && ChildLinks(rs) && DistinctIds(rs) && n <= |r.satellites|
    requires x in DownFrom(rs, r, n)
    ensures x in rs && r in Up(rs, x)
    decreases IdCeiling(rs) - r.id, 0, n
  {
    var m: nat := n - 1;
    DownFromStep(rs, r, m, n);
    var found := FindById(rs, r.satellites[m]);
    if found.None? {
      DownFromUnderAncestor(rs, r, m, x);
    } else {
      var s := found.value;
      InConcat(DownFrom(rs, r, m), s, Down(rs, s), DownFrom(rs, r, n), x);
      if x in DownFrom(rs, r, m) {
        DownFromUnderAncestor(rs, r, m, x);
      } else {
        assert r.satellites[m] in r.satellites;
        OwnerIsParent(rs, r, s);
        if x != s {
          DownUnderAncestor(rs, s, x);
          UpTransitive(rs, x, s);
        }
      }
    }
  }

  /** Every record of the walk down is listed as a satellite by some record. */
  lemma {:induction false} DownListed(rs: seq<SimulatedBody>, r: SimulatedBody, x: SimulatedBody)
    requires r in rs && SatellitesAfter(rs) && x in Down(rs, r)
    ensures exists o :: o in rs && x.id in o.satellites
    decreases IdCeiling(rs) - r.id, 1
  {
    DownFromListed(rs, r, |r.satellites|, x);
  }

  lemma {:induction false} DownFromListed(rs: seq<SimulatedBody>, r: SimulatedBody, n: nat, x: SimulatedBody)
    requires r in rs && SatellitesAfter(rs) && n <= |r.satellites| && x in DownFrom(rs, r, n)
    ensures exists o :: o in rs && x.id in o.satellites
    decreases IdCeiling(rs) - r.id, 0, n
  {
    var m: nat := n - 1;
    DownFromStep(rs, r, m, n);
    var found := FindById(rs, r.satellites[m]);
    if found.None? {
      DownFromListed(rs, r, m, x);
    } else {
      var s := found.value;
      InConcat(DownFrom(rs, r, m), s, Down(rs, s), DownFrom(rs, r, n), x);
      if x in DownFrom(rs, r, m) {
        DownFromListed(rs, r, m, x);
      } else if x == s {
        assert r.satellites[m] in r.satellites;
      } else {
        DownListed(rs, s, x);
      }
    }
  }

  lemma InConcat<T>(a: seq<T>, x: T, b: seq<T>, d: seq<T>, y: T)
    requires d == a + [x] + b
    ensures y in d <==> y in a || y == x || y in b
  {
  }

  /** In the walk down, every occurrence of `o` is followed later by the record of each
      satellite `c` of `o` whose record is found. */
  lemma {:induction false} DownFollowed(rs: seq<SimulatedBody>, r: SimulatedBody, o: SimulatedBody, c: int, j: nat)
    requires r in rs && o in rs && SatellitesAfter(rs) && DistinctIds(rs)
    requires c in o.satellites && FindById(rs, c).Some?
    requires j < |Down(rs, r)| && Down(rs, r)[j].id == o.id
    ensures exists l :: j < l < |Down(rs, r)| && Down(rs, r)[l].id == c
    decreases IdCeiling(rs) - r.id, 1, 0, 0
  {
    DownFromFollowed(rs, r, |r.satellites|, o, c, j);
  }

  lemma {:induction false} DownFromFollowed(rs: seq<SimulatedBody>, r: SimulatedBody, n: nat, o: SimulatedBody, c: int, j: nat)
    requires r in rs && o in rs && SatellitesAfter(rs) && DistinctIds(rs) && n <= |r.satellites|
    requires c in o.satellites && FindById(rs, c).Some?
    requires j < |DownFrom(rs, r, n)| && DownFrom(rs, r, n)[j].id == o.id
    ensures exists l :: j < l < |DownFrom(rs, r, n)| && DownFrom(rs, r, n)[l].id == c
    decreases IdCeiling(rs) - r.id, 0, n, 1
  {
    var m: nat := n - 1;
    DownFromStep(rs, r, m, n);
    var found := FindById(rs, r.satellites[m]);
    if found.None? {
      DownFromFollowed(rs, r, m, o, c, j);
    } else {
      FollowedAfterSatellite(rs, r, m, found.value, DownFrom(rs, r, n), o, c, j);
    }
  }

  lemma {:induction false} FollowedAfterSatellite(rs: seq<SimulatedBody>, r: SimulatedBody, m: nat, s: SimulatedBody,
                                                  d: seq<SimulatedBody>, o: SimulatedBody, c: int, j: nat)
    requires r in rs && o in rs && SatellitesAfter(rs) && DistinctIds(rs) && m < |r.satellites|
    requires FindById(rs, r.satellites[m]) == Some(s) && d == DownFrom(rs, r, m + 1)
    requires c in o.satellites && FindById(rs, c).Some?
    requires j < |d| && d[j].id == o.id
    ensures exists l :: j < l < |d| && d[l].id == c
    decreases IdCeiling(rs) - r.id, 0, m, 2
  {
    DownFromUnfold(rs, r, m);
    var a := DownFrom(rs, r, m);
    var below := Down(rs, s);
    if j < |a| {
      HeadIndex(a, s, below, d, j);
      DownFromFollowed(rs, r, m, o, c, j);
      var l :| j < l < |a| && a[l].id == c;
      HeadIndex(a, s, below, d, l);
    } else if j == |a| {
      SameIdSameRecord(rs, s, o);
      SatelliteInDown(rs, o, c);
      var l :| 0 <= l < |below| && below[l].id == c;
      TailIndex(a, s, below, d, l);
    } else {
      var i := j - |a| - 1;
      TailIndex(a, s, below, d, i);
      DownFollowed(rs, s, o, c, i);
      var l :| i < l < |below| && below[l].id == c;
      TailIndex(a, s, below, d, l);
    }
  }

  lemma HeadIndex<T>(a: seq<T>, x: T, b: seq<T>, d: seq<T>, i: nat)
    requires d == a + [x] + b && i < |a|
    ensures d[i] == a[i] && |d| == |a| + 1 + |b| && d[|a|] == x
  {
  }

  lemma TailIndex<T>(a: seq<T>, x: T, b: seq<T>, d: seq<T>, i: nat)
    requires d == a + [x] + b && i < |b|
    ensures d[|a| + 1 + i] == b[i] && |d| == |a| + 1 + |b| && d[|a|] == x
  {
  }

  /** One more satellite: the walk over the first `m + 1` satellites extends the walk over
      the first `m` by the record of satellite `m`, if found, and its own walk down. */
  lemma DownFromStep(rs: seq<SimulatedBody>, r: SimulatedBody, m: nat, n: nat)
    requires r in rs && SatellitesAfter(rs) && n == m + 1 && n <= |r.satellites|
    ensures FindById(rs, r.satellites[m]).None? ==> DownFrom(rs, r, n) == DownFrom(rs, r, m)
    ensures FindById(rs, r.satellites[m]).Some? ==>
      var s := FindById(rs, r.satellites[m]).value;
      r.id < s.id && DownFrom(rs, r, n) == DownFrom(rs, r, m) + [s] + Down(rs, s)
  {
    DownFromUnfold(rs, r, m);
  }

  lemma DownFromUnfold(rs: seq<SimulatedBody>, r: SimulatedBody, m: nat)
    requires r in rs && SatellitesAfter(rs) && m < |r.satellites|
    ensures FindById(rs, r.satellites[m]).None? ==> DownFrom(rs, r, m + 1) == DownFrom(rs, r, m)
    ensures FindById(rs, r.satellites[m]).Some? ==>
      var s := FindById(rs, r.satellites[m]).value;
      r.id < s.id && DownFrom(rs, r, m + 1) == DownFrom(rs, r, m) + [s] + Down(rs, s)
  {
    SatelliteAfterOwner(rs, r, m);
  }

  /** A satellite of `o` whose record is found is part of the walk down from `o`. */
  lemma SatelliteInDown(rs: seq<SimulatedBody>, o: SimulatedBody, c: int)
    requires o in rs && SatellitesAfter(rs) && c in o.satellites && FindById(rs, c).Some?
    ensures exists l :: 0 <= l < |Down(rs, o)| && Down(rs, o)[l].id == c
  {
    var i :| 0 <= i < |o.satellites| && o.satellites[i] == c;
    DownHasSatellite(rs, o, |o.satellites|, i);
    var y := FindById(rs, c).value;
    var l :| 0 <= l < |Down(rs, o)| && Down(rs, o)[l] == y;
  }
}

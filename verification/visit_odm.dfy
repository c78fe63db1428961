/** Visits to a zone-level origin-destination matrix:
    `align_visits_to_zones`, `aligned_visits_to_odm` and `visits_to_odm`
    of src/py/genericvalidation.py, and the unit check of
    `zone_distances`.

    Which zone a visit's point lies in is a spatial join; here it is the
    parameter `locate`, giving at most one zone per visit. */
module VisitOdm {
  import opened Common

  datatype VisitKind = RegionVisit | PointVisit

  /** A generated visit: its user, day and time slot, and either a
      region id or a free point. */
  datatype Visit = Visit(user: int, day: int, timeslot: int, kind: VisitKind, region: int, lat: real, lng: real)

  /** A visit once aligned to a zone. */
  datatype ZonedVisit = ZonedVisit(user: int, day: int, timeslot: int, zone: int)

  function Zoned(v: Visit, zone: int): ZonedVisit
  {
    ZonedVisit(v.user, v.day, v.timeslot, zone)
  }

  // The unit check of zone_distances

  /** `zone_distances` asserts that every axis of the zones' coordinate
      system is measured in metres. */
  function CheckMetres(axisUnits: seq<string>): (r: Result<()>)
    ensures r.Ok? <==> forall k :: 0 <= k < |axisUnits| ==> axisUnits[k] == "metre"
    decreases |axisUnits|
  {
    if |axisUnits| == 0 then Ok(())
    else if axisUnits[0] != "metre" then Err("axis unit is not metre")
    else
      var r := CheckMetres(axisUnits[1..]);
      assert forall k :: 1 <= k < |axisUnits| ==> axisUnits[1..][k - 1] == axisUnits[k];
      r
  }

  // Aligning region visits

  predicate OfPair(v: Visit, u: int, r: int)
  {
    v.kind == RegionVisit && v.user == u && v.region == r
  }

  /** Position of the first region-visit of user u in region r at or
      after position i: the row `groupby(['userid', 'region']).head(1)`
      keeps. */
  function FirstOfPair(visits: seq<Visit>, u: int, r: int, i: nat): (f: Option<nat>)
    requires i <= |visits|
    ensures f.None? <==> forall k :: i <= k < |visits| ==> !OfPair(visits[k], u, r)
    ensures f.Some? ==> i <= f.value < |visits| && OfPair(visits[f.value], u, r)
                        && forall k :: i <= k < f.value ==> !OfPair(visits[k], u, r)
    decreases |visits| - i
  {
    if i == |visits| then None
    else if OfPair(visits[i], u, r) then Some(i)
    else FirstOfPair(visits, u, r, i + 1)
  }

  /** The zone of region-visit i: the zone of its pair's first visit. */
  function PairZone(visits: seq<Visit>, locate: Visit -> Option<int>, i: nat): Option<int>
    requires i < |visits| && visits[i].kind == RegionVisit
  {
    var f := FirstOfPair(visits, visits[i].user, visits[i].region, 0);
    locate(visits[f.value])
  }

  /** The region-visits among the first n, each aligned to its pair's
      zone; a pair whose first visit lies in no zone is dropped. */
  function RegionZoned(visits: seq<Visit>, locate: Visit -> Option<int>, n: nat): (z: seq<ZonedVisit>)
    requires n <= |visits|
    ensures |z| <= n
    decreases n
  {
    if n == 0 then []
    else
      var v := visits[n - 1];
      var front := RegionZoned(visits, locate, n - 1);
      if v.kind == RegionVisit && PairZone(visits, locate, n - 1).Some?
      then front + [Zoned(v, PairZone(visits, locate, n - 1).value)]
      else front
  }

  /** Every aligned region-visit is a region-visit carrying the zone of
      its pair's first visit, and every region-visit whose pair's first
      visit has a zone is aligned. */
  lemma {:induction false} RegionZonedMembers(visits: seq<Visit>, locate: Visit -> Option<int>, n: nat, z: ZonedVisit)
    requires n <= |visits|
    ensures z in RegionZoned(visits, locate, n) <==> exists i :: 0 <= i < n && AlignedAt(visits, locate, i, z)
  {
    if z in RegionZoned(visits, locate, n) {
      AlignedFrom(visits, locate, n, z);
    }
    if exists i :: 0 <= i < n && AlignedAt(visits, locate, i, z) {
      var i :| 0 <= i < n && AlignedAt(visits, locate, i, z);
      AlignedIn(visits, locate, n, i, z);
    }
  }

  /** Visit i is a region-visit whose pair's first visit has a zone, and
      z is the visit with that zone. */
  predicate AlignedAt(visits: seq<Visit>, locate: Visit -> Option<int>, i: int, z: ZonedVisit)
  {
    0 <= i < |visits| && visits[i].kind == RegionVisit
    && PairZone(visits, locate, i).Some? && z == Zoned(visits[i], PairZone(visits, locate, i).value)
  }

  lemma {:induction false} AlignedFrom(visits: seq<Visit>, locate: Visit -> Option<int>, n: nat, z: ZonedVisit)
    requires n <= |visits| && z in RegionZoned(visits, locate, n)
    ensures exists i :: 0 <= i < n && AlignedAt(visits, locate, i, z)
    decreases n
  {
    var v := visits[n - 1];
    var front := RegionZoned(visits, locate, n - 1);
    if z in front {
      AlignedFrom(visits, locate, n - 1, z);
      var i :| 0 <= i < n - 1 && AlignedAt(visits, locate, i, z);
      assert i < n;
    } else {
      assert v.kind == RegionVisit && PairZone(visits, locate, n - 1).Some?;
      assert RegionZoned(visits, locate, n) == front + [Zoned(v, PairZone(visits, locate, n - 1).value)];
      assert AlignedAt(visits, locate, n - 1, z);
    }
  }

  lemma {:induction false} AlignedIn(visits: seq<Visit>, locate: Visit -> Option<int>, n: nat, i: nat, z: ZonedVisit)
    requires n <= |visits| && i < n && AlignedAt(visits, locate, i, z)
    ensures z in RegionZoned(visits, locate, n)
    decreases n
  {
    var v := visits[n - 1];
    var front := RegionZoned(visits, locate, n - 1);
    if i < n - 1 {
      AlignedIn(visits, locate, n - 1, i, z);
      if v.kind == RegionVisit && PairZone(visits, locate, n - 1).Some? {
        assert RegionZoned(visits, locate, n) == front + [Zoned(v, PairZone(visits, locate, n - 1).value)];
      }
    } else {
      assert RegionZoned(visits, locate, n) == front + [Zoned(v, PairZone(visits, locate, n - 1).value)];
    }
  }

  /** Two region-visits of one user and region get the same zone, or are
      both dropped. */
  lemma {:induction false} PairSharesZone(visits: seq<Visit>, locate: Visit -> Option<int>, i: nat, j: nat)
    requires i < |visits| && j < |visits| && visits[j].kind == RegionVisit
    requires OfPair(visits[i], visits[j].user, visits[j].region)
    ensures PairZone(visits, locate, i) == PairZone(visits, locate, j)
  {
  }

  // Aligning point visits

  function LocatedPoints(visits: seq<Visit>, locate: Visit -> Option<int>, n: nat): (z: seq<ZonedVisit>)
    requires n <= |visits|
    ensures |z| <= n
    decreases n
  {
    if n == 0 then []
    else
      var v := visits[n - 1];
      var front := LocatedPoints(visits, locate, n - 1);
      if v.kind == PointVisit && locate(v).Some? then front + [Zoned(v, locate(v).value)] else front
  }

  /** The point-visits aligned to the zone they lie in; with no point
      visit at all the join is skipped and nothing comes out. */
  function PointZoned(visits: seq<Visit>, locate: Visit -> Option<int>): (z: seq<ZonedVisit>)
    ensures (forall k :: 0 <= k < |visits| ==> visits[k].kind != PointVisit) ==> z == []
  {
    if forall k :: 0 <= k < |visits| ==> visits[k].kind != PointVisit then []
    else LocatedPoints(visits, locate, |visits|)
  }

  // Chronological order

  /** Order by user, then day, then time slot. */
  predicate KeyLe(a: ZonedVisit, b: ZonedVisit)
  {
    a.user < b.user || (a.user == b.user && (a.day < b.day || (a.day == b.day && a.timeslot <= b.timeslot)))
  }

  predicate Chronological(s: seq<ZonedVisit>)
  {
    forall k :: 0 <= k < |s| - 1 ==> KeyLe(s[k], s[k + 1])
  }

  /** x placed after every element whose key is not greater. */
  function Insert(s: seq<ZonedVisit>, x: ZonedVisit): (r: seq<ZonedVisit>)
    requires Chronological(s)
    ensures Chronological(r)
    ensures multiset(r) == multiset(s) + multiset{x}
    ensures r[0] == x || (|s| > 0 && r[0] == s[0])
    decreases |s|
  {
    if |s| == 0 then [x]
    else if !KeyLe(s[0], x) then [x] + s
    else
      var rest := Insert(s[1..], x);
      assert s == [s[0]] + s[1..];
      [s[0]] + rest
  }

  /** The visits sorted by user, day and time slot, keeping the input
      order of equal keys. */
  function SortVisits(s: seq<ZonedVisit>): (r: seq<ZonedVisit>)
    ensures Chronological(r)
    ensures multiset(r) == multiset(s)
    decreases |s|
  {
    if |s| == 0 then []
    else
      assert s == s[..|s| - 1] + [s[|s| - 1]];
      Insert(SortVisits(s[..|s| - 1]), s[|s| - 1])
  }

  /** `align_visits_to_zones`: aligned region-visits and point-visits,
      in chronological order. */
  function AlignVisits(visits: seq<Visit>, locate: Visit -> Option<int>): (r: seq<ZonedVisit>)
    ensures Chronological(r)
    ensures multiset(r) == multiset(RegionZoned(visits, locate, |visits|) + PointZoned(visits, locate))
  {
    SortVisits(RegionZoned(visits, locate, |visits|) + PointZoned(visits, locate))
  }

  // The origin-destination matrix

  /** Adjacent visits of one user from zone o to zone d. In chronological
      order a user's visits are contiguous, so these are the consecutive
      pairs `visit_gaps` forms per user. */
  function PairCount(vs: seq<ZonedVisit>, o: int, d: int): nat
    decreases |vs|
  {
    if |vs| < 2 then 0
    else
      var a := vs[|vs| - 2];
      var b := vs[|vs| - 1];
      PairCount(vs[..|vs| - 1], o, d) + (if a.user == b.user && a.zone == o && b.zone == d then 1 else 0)
  }

  /** Every (a, b) with a from os and b from zs, row-major: the order of
      `MultiIndex.from_product`. */
  function ZonePairs(os: seq<int>, zs: seq<int>): (p: seq<(int, int)>)
    ensures forall o, d :: (o, d) in p <==> o in os && d in zs
    decreases |os|
  {
    if |os| == 0 then []
    else
      var row := seq(|zs|, j requires 0 <= j < |zs| => (os[0], zs[j]));
      forall d | d in zs ensures (os[0], d) in row {
        var j :| 0 <= j < |zs| && zs[j] == d;
        assert row[j] == (os[0], d);
      }
      var rest := ZonePairs(os[1..], zs);
      assert forall o :: o in os <==> o == os[0] || o in os[1..];
      row + rest
  }

  /** Pair counts over the zone pairs: the groupby sizes reindexed to the
      product of the zone list, a missing pair counting 0. */
  function DenseCounts(vs: seq<ZonedVisit>, p: seq<(int, int)>): (c: seq<nat>)
    ensures |c| == |p|
    ensures forall k :: 0 <= k < |p| ==> c[k] == PairCount(vs, p[k].0, p[k].1)
  {
    seq(|p|, k requires 0 <= k < |p| => PairCount(vs, p[k].0, p[k].1))
  }

  function AsReals(c: seq<nat>): (x: seq<real>)
    ensures |x| == |c|
    ensures forall k :: 0 <= k < |c| ==> x[k] == c[k] as real
    ensures AllNonNegative(x)
  {
    seq(|c|, k requires 0 <= k < |c| => c[k] as real)
  }

  /** Each proportion times the total count is its count. */
  predicate ProportionalTo(x: seq<real>, c: seq<nat>)
  {
    |x| == |c| && forall k :: 0 <= k < |c| ==> x[k] * Sum(AsReals(c)) == c[k] as real
  }

  lemma {:induction false} CountsZeroIffTotalZero(c: seq<nat>)
    ensures (forall k :: 0 <= k < |c| ==> c[k] == 0) <==> Sum(AsReals(c)) == 0.0
  {
    var x := AsReals(c);
    SumZeroIffAllZero(x);
    assert (forall k :: 0 <= k < |c| ==> c[k] == 0) <==> (forall k :: 0 <= k < |x| ==> x[k] == 0.0);
  }

  lemma {:induction false} NormalizedProportional(c: seq<nat>)
    requires Sum(AsReals(c)) != 0.0
    ensures ProportionalTo(Normalize(AsReals(c)), c)
  {
    var x := AsReals(c);
    var n := Normalize(x);
    forall k | 0 <= k < |c| ensures n[k] * Sum(x) == c[k] as real {
      assert n[k] * Sum(x) == x[k];
    }
  }

  /** Counts divided by their total; an error when they are all 0. */
  function Proportions(c: seq<nat>): (r: Result<seq<real>>)
    ensures r.Err? <==> forall k :: 0 <= k < |c| ==> c[k] == 0
    ensures r.Ok? ==> Sum(r.value) == 1.0 && ProportionalTo(r.value, c)
  {
    CountsZeroIffTotalZero(c);
    if Sum(AsReals(c)) == 0.0 then Err("no visit pair inside the zones")
    else
      NormalizedProportional(c);
      Ok(Normalize(AsReals(c)))
  }

  /** No adjacent pair of one user's visits goes between two zones of
      the list. */
  predicate NoPairInZones(vs: seq<ZonedVisit>, zones: seq<int>)
  {
    forall o, d :: o in zones && d in zones ==> PairCount(vs, o, d) == 0
  }

  /** The counts over zones x zones are all 0 exactly when every pair of
      zones has count 0. */
  lemma {:induction false} ZonePairCountsZero(vs: seq<ZonedVisit>, zones: seq<int>)
    ensures (forall k :: 0 <= k < |ZoneCounts(vs, zones)| ==> ZoneCounts(vs, zones)[k] == 0)
       <==> NoPairInZones(vs, zones)
  {
    var p := ZonePairs(zones, zones);
    var c := ZoneCounts(vs, zones);
    if forall k :: 0 <= k < |p| ==> c[k] == 0 {
      forall o, d | o in zones && d in zones ensures PairCount(vs, o, d) == 0 {
        assert (o, d) in p;
        var k :| 0 <= k < |p| && p[k] == (o, d);
        assert c[k] == 0;
      }
    } else {
      var k :| 0 <= k < |p| && c[k] != 0;
      var o, d := p[k].0, p[k].1;
      assert p[k] == (o, d);
      assert o in zones && d in zones && PairCount(vs, o, d) != 0;
    }
  }

  /** `aligned_visits_to_odm`: the pair counts over zones x zones, in
      row-major order, divided by their total; an error when no counted
      pair lies inside the zones (pandas would divide by zero). */
  function AlignedOdm(vs: seq<ZonedVisit>, zones: seq<int>): (r: Result<seq<real>>)
    ensures r.Err? <==> NoPairInZones(vs, zones)
    ensures r.Ok? ==> Sum(r.value) == 1.0
    ensures r.Ok? ==> ProportionalTo(r.value, ZoneCounts(vs, zones))
  {
    ZonePairCountsZero(vs, zones);
    Proportions(ZoneCounts(vs, zones))
  }

  /** The dense counts over zones x zones, row-major. */
  function ZoneCounts(vs: seq<ZonedVisit>, zones: seq<int>): (c: seq<nat>)
    ensures |c| == |ZonePairs(zones, zones)|
  {
    DenseCounts(vs, ZonePairs(zones, zones))
  }

  /** `visits_to_odm`: alignment followed by the matrix over the zone
      list's product with itself. */
  function VisitsToOdm(visits: seq<Visit>, locate: Visit -> Option<int>, zones: seq<int>): (r: Result<seq<real>>)
    ensures r.Err? <==> NoPairInZones(AlignVisits(visits, locate), zones)
    ensures r.Ok? ==> Sum(r.value) == 1.0
  {
    var vs := AlignVisits(visits, locate);
    AlignedOdm(vs, zones)
  }

  /** Counted pairs never join two users. */
  lemma {:induction false} PairCountSameUser(vs: seq<ZonedVisit>, o: int, d: int)
    requires forall k :: 0 <= k < |vs| - 1 ==> vs[k].user != vs[k + 1].user
    ensures PairCount(vs, o, d) == 0
    decreases |vs|
  {
    if |vs| >= 2 {
      PairCountSameUser(vs[..|vs| - 1], o, d);
    }
  }

  /** Visits of different users joined end to end count their pairs
      separately: the count is per user, as the groupby on user id makes
      it. */
  lemma {:induction false} PairCountSplit(a: seq<ZonedVisit>, b: seq<ZonedVisit>, o: int, d: int)
    requires |a| > 0 && |b| > 0 ==> a[|a| - 1].user != b[0].user
    ensures PairCount(a + b, o, d) == PairCount(a, o, d) + PairCount(b, o, d)
    decreases |b|
  {
    if |b| == 0 {
      assert a + b == a;
    } else if |b| == 1 {
      var ab := a + b;
      if |a| > 0 {
        assert ab[..|ab| - 1] == a;
      }
    } else {
      var ab := a + b;
      var init := b[..|b| - 1];
      assert ab[..|ab| - 1] == a + init;
      assert init[0] == b[0];
      PairCountSplit(a, init, o, d);
    }
  }
}

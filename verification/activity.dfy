/** Home and work detection over geotagged tweets: the `during_home`,
    `during_work`, `label_home`, `label_work` and
    `remove_tweets_outside_home_period` rules of lib/helpers.py,
    src/py/mscthesis.py, src/py/activitiesdf.py and src/py/archive.py.

    A data frame is a sequence of `Tweet` records in the row order the
    caller passes in. Timestamps are seconds. */
module Activity {
  import opened Common

  datatype Label = Home | Work | Other

  datatype Tweet = Tweet(
    user: int,
    tweetId: int,
    region: int,
    weekday: int,
    hour: int,
    createdAt: int,
    lat: real,
    lng: real,
    tag: Label)

  // Home and work hours

  /** The hour window of a `during_home` variant: weekday rows count when
      their hour is below `morningEnd` or above `eveningStart`. */
  datatype HomeWindow = HomeWindow(morningEnd: int, eveningStart: int)

  /** lib/helpers.py and src/py/mscthesis.py: before 9 or after 17. */
  const HelpersWindow := HomeWindow(9, 17)
  /** src/py/activitiesdf.py: before 10 or after 17. */
  const ActivitiesWindow := HomeWindow(10, 17)
  /** src/py/archive.py: before 9 or after 18. */
  const ArchiveWindow := HomeWindow(9, 18)

  predicate IsWeekday(t: Tweet)
  {
    0 < t.weekday < 6
  }

  predicate IsWeekend(t: Tweet)
  {
    t.weekday == 6 || t.weekday == 0
  }

  /** The row test of `during_home`. */
  predicate InHomeHours(t: Tweet, w: HomeWindow)
  {
    (IsWeekday(t) && (t.hour < w.morningEnd || w.eveningStart < t.hour)) || IsWeekend(t)
  }

  /** The hour test of `during_work` as written: `(h > 6) | (19 > h)`. */
  predicate BusinessHours(hour: int)
  {
    hour > 6 || 19 > hour
  }

  /** The row test of `during_work`. */
  predicate InWorkHours(t: Tweet)
  {
    IsWeekday(t) && BusinessHours(t.hour)
  }

  /** The business-hours test accepts every hour, so `during_work` keeps
      exactly the rows of weekdays 1 to 5. */
  lemma {:induction false} WorkHoursAreWeekdays(t: Tweet)
    ensures InWorkHours(t) <==> 0 < t.weekday < 6
  {
    assert BusinessHours(t.hour) by {
      if t.hour <= 6 { assert 19 > t.hour; }
    }
  }

  /** `during_home`: the rows inside the window, in order. */
  function DuringHome(rows: seq<Tweet>, w: HomeWindow): (r: seq<Tweet>)
    ensures |r| <= |rows|
    ensures forall t :: t in r <==> t in rows && InHomeHours(t, w)
    decreases |rows|
  {
    if |rows| == 0 then []
    else
      var front := DuringHome(rows[..|rows| - 1], w);
      assert rows == rows[..|rows| - 1] + [rows[|rows| - 1]];
      if InHomeHours(rows[|rows| - 1], w) then front + [rows[|rows| - 1]] else front
  }

  /** `during_work`: the rows of weekdays 1 to 5, in order. */
  function DuringWork(rows: seq<Tweet>): (r: seq<Tweet>)
    ensures |r| <= |rows|
    ensures forall t :: t in r <==> t in rows && InWorkHours(t)
    decreases |rows|
  {
    if |rows| == 0 then []
    else
      var front := DuringWork(rows[..|rows| - 1]);
      assert rows == rows[..|rows| - 1] + [rows[|rows| - 1]];
      if InWorkHours(rows[|rows| - 1]) then front + [rows[|rows| - 1]] else front
  }

  // Ranking regions by row count

  /** A region with the number of rows counted for it. */
  datatype Tally = Tally(region: int, count: nat)

  /** Index of the first tally with the largest count. */
  function ArgMaxFirst(ts: seq<Tally>): (m: nat)
    requires |ts| > 0
    ensures m < |ts|
    ensures forall i :: 0 <= i < |ts| ==> ts[i].count <= ts[m].count
    ensures forall i :: 0 <= i < m ==> ts[i].count < ts[m].count
    decreases |ts|
  {
    if |ts| == 1 then 0
    else
      var m := ArgMaxFirst(ts[..|ts| - 1]);
      assert forall i :: 0 <= i < |ts| - 1 ==> ts[..|ts| - 1][i] == ts[i];
      if ts[|ts| - 1].count > ts[m].count then |ts| - 1 else m
  }

  /** The tallies without position m. */
  function Without(ts: seq<Tally>, m: nat): (r: seq<Tally>)
    requires m < |ts|
    ensures |r| == |ts| - 1
    ensures forall t :: t in r ==> t in ts
  {
    ts[..m] + ts[m + 1..]
  }

  lemma {:induction false} InWithout(ts: seq<Tally>, m: nat, u: Tally)
    requires m < |ts| && u in ts && u != ts[m]
    ensures u in Without(ts, m)
  {
    var j :| 0 <= j < |ts| && ts[j] == u;
    if j < m {
      assert Without(ts, m)[j] == u;
    } else {
      assert Without(ts, m)[j - 1] == u;
    }
  }

  /** `nlargest(k)` over tallies listed in ascending region order: the k
      largest counts, ties going to the earlier tally. */
  function Top(ts: seq<Tally>, k: nat): (r: seq<Tally>)
    ensures |r| == Min(k, |ts|)
    ensures forall t :: t in r ==> t in ts
    decreases k
  {
    if k == 0 || |ts| == 0 then []
    else
      var m := ArgMaxFirst(ts);
      [ts[m]] + Top(Without(ts, m), k - 1)
  }

  function Min(a: nat, b: nat): nat
  {
    if a <= b then a else b
  }

  /** The first of the top tallies has the largest count. */
  lemma {:induction false} TopHeadIsMax(ts: seq<Tally>, k: nat)
    requires k > 0 && |ts| > 0
    ensures Top(ts, k)[0] == ts[ArgMaxFirst(ts)]
    ensures forall t :: t in ts ==> t.count <= Top(ts, k)[0].count
  {
  }

  /** Every tally left out of `Top` counts no more than every one kept. */
  lemma {:induction false} TopDominates(ts: seq<Tally>, k: nat, t: Tally, u: Tally)
    requires t in Top(ts, k) && u in ts && u !in Top(ts, k)
    ensures u.count <= t.count
    decreases k
  {
    var m := ArgMaxFirst(ts);
    var rest := Without(ts, m);
    var tail := Top(rest, k - 1);
    assert Top(ts, k) == [ts[m]] + tail;
    if t == ts[m] {
      var j :| 0 <= j < |ts| && ts[j] == u;
    } else {
      assert t in tail && u != ts[m] && u !in tail;
      InWithout(ts, m, u);
      TopDominates(rest, k - 1, t, u);
    }
  }

  /** Asking for at least as many tallies as there are keeps them all. */
  lemma {:induction false} TopKeepsAll(ts: seq<Tally>, k: nat, u: Tally)
    requires k >= |ts| && u in ts
    ensures u in Top(ts, k)
    decreases k
  {
    var m := ArgMaxFirst(ts);
    assert Top(ts, k) == [ts[m]] + Top(Without(ts, m), k - 1);
    if u != ts[m] {
      InWithout(ts, m, u);
      TopKeepsAll(Without(ts, m), k - 1, u);
    }
  }

  predicate DistinctRegions(ts: seq<Tally>)
  {
    forall i, j :: 0 <= i < j < |ts| ==> ts[i].region != ts[j].region
  }

  lemma {:induction false} WithoutKeepsDistinct(ts: seq<Tally>, m: nat)
    requires m < |ts| && DistinctRegions(ts)
    ensures DistinctRegions(Without(ts, m))
    ensures forall t :: t in Without(ts, m) ==> t.region != ts[m].region
  {
    var r := Without(ts, m);
    assert forall i :: 0 <= i < |r| ==> r[i] == if i < m then ts[i] else ts[i + 1];
  }

  /** Counts never increase along the tallies. */
  predicate CountsDescending(ts: seq<Tally>)
  {
    forall i, j :: 0 <= i < j < |ts| ==> ts[j].count <= ts[i].count
  }

  /** `Top` lists distinct regions from the largest count down. */
  lemma {:induction false} TopSortedDistinct(ts: seq<Tally>, k: nat)
    requires DistinctRegions(ts)
    ensures DistinctRegions(Top(ts, k))
    ensures CountsDescending(Top(ts, k))
    decreases k
  {
    if k > 0 && |ts| > 0 {
      var m := ArgMaxFirst(ts);
      var rest := Without(ts, m);
      var tail := Top(rest, k - 1);
      WithoutKeepsDistinct(ts, m);
      TopSortedDistinct(rest, k - 1);
      assert Top(ts, k) == [ts[m]] + tail;
      forall t | t in tail
        ensures t.region != ts[m].region && t.count <= ts[m].count
      {
        assert t in rest;
        assert t in ts;
        var i :| 0 <= i < |ts| && ts[i] == t;
      }
      ConsOrdered(ts[m], tail);
    }
  }

  /** A head of another region counting at least as much as every tally
      of a distinct, descending tail keeps the list distinct and
      descending. */
  lemma {:induction false} ConsOrdered(h: Tally, tail: seq<Tally>)
    requires DistinctRegions(tail) && CountsDescending(tail)
    requires forall t :: t in tail ==> t.region != h.region && t.count <= h.count
    ensures DistinctRegions([h] + tail) && CountsDescending([h] + tail)
  {
    var r := [h] + tail;
    forall i, j | 0 <= i < j < |r|
      ensures r[i].region != r[j].region && r[j].count <= r[i].count
    {
      assert r[j] == tail[j - 1];
      assert r[j] in tail;
      if i > 0 {
        assert r[i] == tail[i - 1];
      }
    }
  }

  // Counting rows per region

  /** Which rows a per-region count takes in: `during_home` rows of a
      window, or `during_work` rows. */
  datatype RowTest = HomeHours(w: HomeWindow) | WorkHours

  predicate Passes(x: Tweet, test: RowTest)
  {
    match test
    case HomeHours(w) => InHomeHours(x, w)
    case WorkHours => InWorkHours(x)
  }

  /** Rows of user u in region r that pass the test: one entry of
      `groupby(['userid', 'region']).size()`. */
  function RegionCount(rows: seq<Tweet>, u: int, r: int, test: RowTest): nat
    decreases |rows|
  {
    if |rows| == 0 then 0
    else
      var x := rows[|rows| - 1];
      RegionCount(rows[..|rows| - 1], u, r, test)
        + (if x.user == u && x.region == r && Passes(x, test) then 1 else 0)
  }

  /** Regions of user u's rows that pass the test, one entry per row. */
  function RegionList(rows: seq<Tweet>, u: int, test: RowTest): (rs: seq<int>)
    ensures forall r :: r in rs <==> RegionCount(rows, u, r, test) > 0
    decreases |rows|
  {
    if |rows| == 0 then []
    else
      var x := rows[|rows| - 1];
      var front := RegionList(rows[..|rows| - 1], u, test);
      if x.user == u && Passes(x, test) then front + [x.region] else front
  }

  /** The regions with a positive count, ascending, as the groupby lists
      them. */
  function CountedRegions(rows: seq<Tweet>, u: int, test: RowTest): (rs: seq<int>)
    ensures StrictlyIncreasing(rs)
    ensures forall r :: r in rs <==> RegionCount(rows, u, r, test) > 0
  {
    SortedDistinct(RegionList(rows, u, test))
  }

  /** The tallies of the regions rs of user u. */
  function Tallies(rows: seq<Tweet>, u: int, test: RowTest, rs: seq<int>): (ts: seq<Tally>)
    ensures |ts| == |rs|
    ensures forall i :: 0 <= i < |rs| ==> ts[i] == Tally(rs[i], RegionCount(rows, u, rs[i], test))
  {
    seq(|rs|, i requires 0 <= i < |rs| => Tally(rs[i], RegionCount(rows, u, rs[i], test)))
  }

  /** The tallies of user u as `groupby(...).size()` gives them. */
  function UserTallies(rows: seq<Tweet>, u: int, test: RowTest): seq<Tally>
  {
    Tallies(rows, u, test, CountedRegions(rows, u, test))
  }

  /** `nlargest(1)` of a user's tallies: the most counted region, the
      lowest among equals, or none when no row of the user passes. */
  function TopRegion(rows: seq<Tweet>, u: int, test: RowTest): Option<int>
  {
    var ts := UserTallies(rows, u, test);
    if |ts| == 0 then None else Some(ts[ArgMaxFirst(ts)].region)
  }

  /** The top region is the most counted one, and no lower region is
      counted as often. */
  lemma {:induction false} TopRegionIsMostCounted(rows: seq<Tweet>, u: int, test: RowTest)
    ensures TopRegion(rows, u, test).None? <==> forall r :: RegionCount(rows, u, r, test) == 0
    ensures TopRegion(rows, u, test).Some? ==>
              var h := TopRegion(rows, u, test).value;
              RegionCount(rows, u, h, test) > 0
              && (forall r :: RegionCount(rows, u, r, test) <= RegionCount(rows, u, h, test))
              && (forall r :: r < h ==> RegionCount(rows, u, r, test) < RegionCount(rows, u, h, test))
  {
    var ts := UserTallies(rows, u, test);
    if |ts| > 0 {
      var m := ArgMaxFirst(ts);
      TallyAtMostTop(rows, u, test, m);
      LowerTallyBelowTop(rows, u, test, m);
    } else {
      forall r ensures RegionCount(rows, u, r, test) == 0 {
        assert r !in CountedRegions(rows, u, test);
      }
    }
  }

  /** No region counts more than the first most counted tally. */
  lemma {:induction false} TallyAtMostTop(rows: seq<Tweet>, u: int, test: RowTest, m: nat)
    requires |UserTallies(rows, u, test)| > 0 && m == ArgMaxFirst(UserTallies(rows, u, test))
    ensures var rs := CountedRegions(rows, u, test);
      RegionCount(rows, u, rs[m], test) > 0
      && forall r :: RegionCount(rows, u, r, test) <= RegionCount(rows, u, rs[m], test)
  {
    var rs := CountedRegions(rows, u, test);
    var ts := Tallies(rows, u, test, rs);
    assert rs[m] in rs;
    forall r ensures RegionCount(rows, u, r, test) <= RegionCount(rows, u, rs[m], test) {
      if r in rs {
        var i :| 0 <= i < |rs| && rs[i] == r;
        assert ts[i].count <= ts[m].count;
      }
    }
  }

  /** Every lower region counts strictly less than the first most counted
      tally: the tallies ascend by region. */
  lemma {:induction false} LowerTallyBelowTop(rows: seq<Tweet>, u: int, test: RowTest, m: nat)
    requires |UserTallies(rows, u, test)| > 0 && m == ArgMaxFirst(UserTallies(rows, u, test))
    ensures var rs := CountedRegions(rows, u, test);
      forall r :: r < rs[m] ==> RegionCount(rows, u, r, test) < RegionCount(rows, u, rs[m], test)
  {
    var rs := CountedRegions(rows, u, test);
    var ts := Tallies(rows, u, test, rs);
    forall r | r < rs[m] ensures RegionCount(rows, u, r, test) < RegionCount(rows, u, rs[m], test) {
      if r in rs {
        var i :| 0 <= i < |rs| && rs[i] == r;
        assert i < m;
        assert ts[i].count < ts[m].count;
      }
    }
  }

  // Home labelling

  /** The home region of user u under `during_home` with window w. */
  function HomeRegion(rows: seq<Tweet>, u: int, w: HomeWindow): Option<int>
  {
    TopRegion(rows, u, HomeHours(w))
  }

  /** `label_home` of lib/helpers.py and src/py/mscthesis.py: every row of
      a user's home region becomes `Home`, every other row `Other`. */
  function LabelHome(rows: seq<Tweet>, w: HomeWindow): (r: seq<Tweet>)
    ensures |r| == |rows|
    ensures forall i :: 0 <= i < |rows| ==> r[i] == rows[i].(tag := r[i].tag)
    ensures forall i :: 0 <= i < |rows| ==>
              (r[i].tag == Home <==> HomeRegion(rows, rows[i].user, w) == Some(rows[i].region))
    ensures forall i :: 0 <= i < |rows| ==> r[i].tag in {Home, Other}
  {
    seq(|rows|, i requires 0 <= i < |rows| =>
      rows[i].(tag := if HomeRegion(rows, rows[i].user, w) == Some(rows[i].region) then Home else Other))
  }

  /** `label_home` of src/py/activitiesdf.py: the same home rows, but the
      other rows keep the label they came with. */
  function LabelHomeKeeping(rows: seq<Tweet>): (r: seq<Tweet>)
    ensures |r| == |rows|
    ensures forall i :: 0 <= i < |rows| ==>
              if HomeRegion(rows, rows[i].user, ActivitiesWindow) == Some(rows[i].region)
              then r[i] == rows[i].(tag := Home) else r[i] == rows[i]
  {
    seq(|rows|, i requires 0 <= i < |rows| =>
      if HomeRegion(rows, rows[i].user, ActivitiesWindow) == Some(rows[i].region) then rows[i].(tag := Home) else rows[i])
  }

  /** After `LabelHome` a user's home rows all lie in one region, and a
      user without home-hour rows has no home. */
  lemma {:induction false} OneHomePerUser(rows: seq<Tweet>, w: HomeWindow, i: nat, j: nat)
    requires i < |rows| && j < |rows|
    ensures (LabelHome(rows, w)[i].tag == Home && LabelHome(rows, w)[j].tag == Home
             && rows[i].user == rows[j].user) ==> rows[i].region == rows[j].region
    ensures (forall r :: RegionCount(rows, rows[i].user, r, HomeHours(w)) == 0) ==> LabelHome(rows, w)[i].tag == Other
  {
    TopRegionIsMostCounted(rows, rows[i].user, HomeHours(w));
  }

  // Home period

  /** Creation times of user u's rows labelled `Home`. */
  function HomeTimes(rows: seq<Tweet>, u: int): (ts: seq<int>)
    ensures forall x :: x in ts <==> exists i :: 0 <= i < |rows| && rows[i].user == u && rows[i].tag == Home && rows[i].createdAt == x
    decreases |rows|
  {
    if |rows| == 0 then []
    else
      var x := rows[|rows| - 1];
      var front := HomeTimes(rows[..|rows| - 1], u);
      assert forall i :: 0 <= i < |rows| - 1 ==> rows[..|rows| - 1][i] == rows[i];
      if x.user == u && x.tag == Home then front + [x.createdAt] else front
  }

  function MinOf(s: seq<int>): (m: int)
    requires |s| > 0
    ensures m in s
    ensures forall i :: 0 <= i < |s| ==> m <= s[i]
    decreases |s|
  {
    if |s| == 1 then s[0]
    else
      var front := s[..|s| - 1];
      var m := MinOf(front);
      assert forall i :: 0 <= i < |front| ==> front[i] == s[i];
      assert m in s;
      if s[|s| - 1] < m then s[|s| - 1] else m
  }

  function MaxOf(s: seq<int>): (m: int)
    requires |s| > 0
    ensures m in s
    ensures forall i :: 0 <= i < |s| ==> s[i] <= m
    decreases |s|
  {
    if |s| == 1 then s[0]
    else
      var front := s[..|s| - 1];
      var m := MaxOf(front);
      assert forall i :: 0 <= i < |front| ==> front[i] == s[i];
      assert m in s;
      if s[|s| - 1] > m then s[|s| - 1] else m
  }

  /** The row test of `remove_tweets_outside_home_period`: between the
      user's earliest and latest home row, inclusive. A user without home
      rows compares against NaT and keeps nothing. */
  predicate InHomePeriod(rows: seq<Tweet>, x: Tweet)
  {
    var hs := HomeTimes(rows, x.user);
    |hs| > 0 && MinOf(hs) <= x.createdAt <= MaxOf(hs)
  }

  /** A row lies in its user's home period exactly when some home row of
      the user is no later and some home row is no earlier. */
  lemma {:induction false} InHomePeriodIffBracketed(rows: seq<Tweet>, x: Tweet)
    ensures InHomePeriod(rows, x) <==>
              (exists i :: 0 <= i < |rows| && rows[i].user == x.user && rows[i].tag == Home && rows[i].createdAt <= x.createdAt)
              && (exists j :: 0 <= j < |rows| && rows[j].user == x.user && rows[j].tag == Home && x.createdAt <= rows[j].createdAt)
  {
    var hs := HomeTimes(rows, x.user);
    if (exists i :: 0 <= i < |rows| && rows[i].user == x.user && rows[i].tag == Home && rows[i].createdAt <= x.createdAt)
       && (exists j :: 0 <= j < |rows| && rows[j].user == x.user && rows[j].tag == Home && x.createdAt <= rows[j].createdAt) {
      var i :| 0 <= i < |rows| && rows[i].user == x.user && rows[i].tag == Home && rows[i].createdAt <= x.createdAt;
      var j :| 0 <= j < |rows| && rows[j].user == x.user && rows[j].tag == Home && x.createdAt <= rows[j].createdAt;
      assert rows[i].createdAt in hs && rows[j].createdAt in hs;
    }
    if InHomePeriod(rows, x) {
      var lo, hi := MinOf(hs), MaxOf(hs);
      assert lo in hs && hi in hs;
    }
  }

  /** `remove_tweets_outside_home_period` over the rows of `within`, with
      the home periods taken from all of `rows`. */
  function KeepHomePeriod(rows: seq<Tweet>, within: seq<Tweet>): (r: seq<Tweet>)
    ensures |r| <= |within|
    ensures forall x :: x in r <==> x in within && InHomePeriod(rows, x)
    decreases |within|
  {
    if |within| == 0 then []
    else
      var x := within[|within| - 1];
      var front := KeepHomePeriod(rows, within[..|within| - 1]);
      assert within == within[..|within| - 1] + [x];
      if InHomePeriod(rows, x) then front + [x] else front
  }

  function RemoveTweetsOutsideHomePeriod(rows: seq<Tweet>): (r: seq<Tweet>)
    ensures |r| <= |rows|
    ensures forall x :: x in r <==> x in rows && InHomePeriod(rows, x)
  {
    KeepHomePeriod(rows, rows)
  }

  // Work labelling

  /** The region of user u's first row labelled `Home`. */
  function FirstHomeRegion(rows: seq<Tweet>, u: int): (h: Option<int>)
    ensures h.None? <==> forall i :: 0 <= i < |rows| ==> !(rows[i].user == u && rows[i].tag == Home)
    ensures h.Some? ==> exists i :: 0 <= i < |rows| && rows[i].user == u && rows[i].tag == Home && rows[i].region == h.value
    decreases |rows|
  {
    if |rows| == 0 then None
    else if rows[0].user == u && rows[0].tag == Home then Some(rows[0].region)
    else
      var h := FirstHomeRegion(rows[1..], u);
      assert forall i :: 1 <= i < |rows| ==> rows[1..][i - 1] == rows[i];
      h
  }

  /** The count a tally list gives region r, 0 when r is not listed. */
  function CountOf(ts: seq<Tally>, r: int): nat
    decreases |ts|
  {
    if |ts| == 0 then 0
    else if ts[0].region == r then ts[0].count
    else CountOf(ts[1..], r)
  }

  /** Tallies listing distinct regions with positive counts. */
  predicate WellFormedTallies(ts: seq<Tally>)
  {
    DistinctRegions(ts) && forall i :: 0 <= i < |ts| ==> ts[i].count > 0
  }

  /** In well-formed tallies a listed tally holds its region's count, and
      a region with a positive count is listed. */
  lemma {:induction false} CountOfMember(ts: seq<Tally>, r: int)
    requires WellFormedTallies(ts)
    ensures forall t :: t in ts && t.region == r ==> CountOf(ts, r) == t.count
    ensures CountOf(ts, r) > 0 <==> Tally(r, CountOf(ts, r)) in ts
    decreases |ts|
  {
    if |ts| > 0 {
      var rest := ts[1..];
      assert forall i :: 0 <= i < |rest| ==> rest[i] == ts[i + 1];
      assert WellFormedTallies(rest);
      CountOfMember(rest, r);
      assert ts == [ts[0]] + rest;
    }
  }

  /** The tallies of a user count exactly what `RegionCount` counts. */
  lemma {:induction false} UserTalliesCount(rows: seq<Tweet>, u: int, test: RowTest, r: int)
    ensures WellFormedTallies(UserTallies(rows, u, test))
    ensures CountOf(UserTallies(rows, u, test), r) == RegionCount(rows, u, r, test)
  {
    var rs := CountedRegions(rows, u, test);
    var ts := UserTallies(rows, u, test);
    assert DistinctRegions(ts) by {
      forall i, j | 0 <= i < j < |ts| ensures ts[i].region != ts[j].region {
        assert rs[i] < rs[j];
      }
    }
    CountOfMember(ts, r);
    if RegionCount(rows, u, r, test) > 0 {
      var i :| 0 <= i < |rs| && rs[i] == r;
      assert ts[i] in ts;
    }
  }

  /** The choice among a user's weekday tallies, h being the home region:
      the first of the two largest that is not h, nothing when h is the
      only one, an index error when there are none. */
  function WorkPick(ts: seq<Tally>, h: int): Result<Option<int>>
  {
    var top := Top(ts, 2);
    if |top| == 1 && top[0].region == h then Ok(None)
    else if |top| == 0 then Err("list index out of range")
    else if top[0].region != h then Ok(Some(top[0].region))
    else Ok(Some(top[1].region))
  }

  /** `WorkPick` fails only on empty tallies, skips exactly when h is the
      only region, and otherwise picks the most counted region other
      than h. */
  lemma {:induction false} WorkPickIsBestOther(ts: seq<Tally>, h: int)
    requires WellFormedTallies(ts)
    ensures WorkPick(ts, h).Err? <==> |ts| == 0
    ensures WorkPick(ts, h) == Ok(None) <==> CountOf(ts, h) > 0 && forall r :: r != h ==> CountOf(ts, r) == 0
    ensures WorkPick(ts, h).Ok? && WorkPick(ts, h).value.Some? ==>
              var w := WorkPick(ts, h).value.value;
              w != h && CountOf(ts, w) > 0 && forall r :: r != h ==> CountOf(ts, r) <= CountOf(ts, w)
  {
    var top := Top(ts, 2);
    TopSortedDistinct(ts, 2);
    if |ts| > 0 {
      TopHeadIsMax(ts, 2);
      assert top[0] in ts;
      CountOfMember(ts, top[0].region);
      if |ts| == 1 {
        assert ts[0] == top[0];
        forall r | r != top[0].region ensures CountOf(ts, r) == 0 {
          CountOfMember(ts, r);
        }
      } else {
        assert top[1] in ts;
        CountOfMember(ts, top[1].region);
        assert CountOf(ts, top[1].region) > 0 && top[1].region != top[0].region;
        if top[0].region != h {
          forall r | r != h ensures CountOf(ts, r) <= CountOf(ts, top[0].region) {
            CountOfMember(ts, r);
          }
        } else {
          forall r | r != h ensures CountOf(ts, r) <= CountOf(ts, top[1].region) {
            CountOfMember(ts, r);
            var x := Tally(r, CountOf(ts, r));
            if CountOf(ts, r) > 0 && x != top[1] {
              assert x !in top;
              TopDominates(ts, 2, top[1], x);
            }
          }
        }
      }
    }
  }

  /** The work region `label_work` of src/py/activitiesdf.py picks for
      user u. A user without a home row makes `iloc[0]` fail. */
  function WorkChoice(rows: seq<Tweet>, u: int): Result<Option<int>>
  {
    var home := FirstHomeRegion(rows, u);
    if home.None? then Err("single positional indexer is out-of-bounds")
    else WorkPick(UserTallies(rows, u, WorkHours), home.value)
  }

  /** A chosen work region is never the home region and no other
      non-home weekday region has more rows. */
  lemma {:induction false} WorkChoiceIsBestNonHome(rows: seq<Tweet>, u: int, r: int)
    requires WorkChoice(rows, u).Ok? && WorkChoice(rows, u).value.Some?
    ensures FirstHomeRegion(rows, u).Some?
    ensures var w := WorkChoice(rows, u).value.value;
            w != FirstHomeRegion(rows, u).value
            && RegionCount(rows, u, w, WorkHours) > 0
            && (r != FirstHomeRegion(rows, u).value ==>
                 RegionCount(rows, u, r, WorkHours) <= RegionCount(rows, u, w, WorkHours))
  {
    var ts := UserTallies(rows, u, WorkHours);
    var h := FirstHomeRegion(rows, u).value;
    UserTalliesCount(rows, u, WorkHours, r);
    UserTalliesCount(rows, u, WorkHours, WorkChoice(rows, u).value.value);
    WorkPickIsBestOther(ts, h);
  }

  /** The choice fails exactly when the user has no home row or no
      weekday row. */
  lemma {:induction false} WorkChoiceFails(rows: seq<Tweet>, u: int)
    ensures WorkChoice(rows, u).Err? <==>
              FirstHomeRegion(rows, u).None? || forall r :: RegionCount(rows, u, r, WorkHours) == 0
  {
    var ts := UserTallies(rows, u, WorkHours);
    UserTalliesCount(rows, u, WorkHours, 0);
    if FirstHomeRegion(rows, u).Some? {
      WorkPickIsBestOther(ts, FirstHomeRegion(rows, u).value);
      if |ts| > 0 {
        UserTalliesCount(rows, u, WorkHours, ts[0].region);
        assert CountOf(ts, ts[0].region) > 0 by { CountOfMember(ts, ts[0].region); }
      } else {
        forall r ensures RegionCount(rows, u, r, WorkHours) == 0 {
          UserTalliesCount(rows, u, WorkHours, r);
        }
      }
    }
  }

  /** The user is skipped exactly when the home region is the only
      weekday region. */
  lemma {:induction false} WorkChoiceSkips(rows: seq<Tweet>, u: int)
    ensures WorkChoice(rows, u) == Ok(None) <==>
              FirstHomeRegion(rows, u).Some?
              && RegionCount(rows, u, FirstHomeRegion(rows, u).value, WorkHours) > 0
              && forall r :: r != FirstHomeRegion(rows, u).value ==> RegionCount(rows, u, r, WorkHours) == 0
  {
    var home := FirstHomeRegion(rows, u);
    if home.Some? {
      var h := home.value;
      var ts := UserTallies(rows, u, WorkHours);
      UserTalliesCount(rows, u, WorkHours, h);
      WorkPickIsBestOther(ts, h);
      if WorkChoice(rows, u) == Ok(None) {
        forall r | r != h ensures RegionCount(rows, u, r, WorkHours) == 0 {
          UserTalliesCount(rows, u, WorkHours, r);
        }
      } else if RegionCount(rows, u, h, WorkHours) > 0 {
        var r :| r != h && CountOf(ts, r) != 0;
        UserTalliesCount(rows, u, WorkHours, r);
      }
    }
  }

  /** `label_work` of src/py/activitiesdf.py: every row of a user's work
      region becomes `Work`; any user whose choice fails fails the whole
      call. */
  function LabelWork(rows: seq<Tweet>): (r: Result<seq<Tweet>>)
    ensures r.Err? <==> exists i :: 0 <= i < |rows| && WorkChoice(rows, rows[i].user).Err?
    ensures r.Ok? ==> |r.value| == |rows|
    ensures r.Ok? ==> forall i :: 0 <= i < |rows| ==>
              r.value[i] == if WorkChoice(rows, rows[i].user) == Ok(Some(rows[i].region))
                            then rows[i].(tag := Work) else rows[i]
  {
    if exists i :: 0 <= i < |rows| && WorkChoice(rows, rows[i].user).Err? then
      Err("label_work failed")
    else
      Ok(seq(|rows|, i requires 0 <= i < |rows| =>
        if WorkChoice(rows, rows[i].user) == Ok(Some(rows[i].region)) then rows[i].(tag := Work) else rows[i]))
  }
}

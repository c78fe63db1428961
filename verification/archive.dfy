/** The multiple-home rules of src/py/archive.py: up to three home
    candidates per user, each with a home period, kept or dropped by
    overlap and duration; the current home among them; and the archive
    variant of `label_work`.

    The rows of a user's region are put in tweet-id order before a
    tenth is cut from each end, as the `(userid, region, tweetid)` index
    sort of `label_multiple_homes` does. */
module Archive {
  import opened Common
  import opened Activity

  /** Thirty days in seconds. */
  const ThirtyDays: int := 30 * 24 * 3600

  /** A home candidate: its region, its home-hour row count and its home
      period. */
  datatype Candidate = Candidate(region: int, size: nat, start: int, end: int)

  /** `home_overlaps`: the two periods overlap strictly. */
  predicate Overlaps(h1: Candidate, h2: Candidate)
  {
    h1.start < h2.end && h2.start < h1.end
  }

  lemma {:induction false} OverlapsSymmetric(h1: Candidate, h2: Candidate)
    ensures Overlaps(h1, h2) <==> Overlaps(h2, h1)
  {
  }

  /** `less_than_30_days`. */
  predicate Short(h: Candidate)
  {
    h.end - h.start < ThirtyDays
  }

  /** `latest_home`: the first candidate only when it starts strictly
      later. */
  function Latest(h1: Candidate, h2: Candidate): (h: Candidate)
    ensures h == h1 || h == h2
    ensures h.start >= h1.start && h.start >= h2.start
    ensures h == h1 <==> h1.start > h2.start || h1 == h2
  {
    if h1.start > h2.start then h1 else h2
  }

  // Candidate periods

  /** User u's rows in region r, in row order. */
  function PairRows(rows: seq<Tweet>, u: int, r: int): (p: seq<Tweet>)
    ensures forall x :: x in p ==> x in rows && x.user == u && x.region == r
    decreases |rows|
  {
    if |rows| == 0 then []
    else
      var x := rows[|rows| - 1];
      var front := PairRows(rows[..|rows| - 1], u, r);
      if x.user == u && x.region == r then front + [x] else front
  }

  /** Every row of user u in region r is one of the pair's rows. */
  lemma {:induction false} PairRowsComplete(rows: seq<Tweet>, u: int, r: int, x: Tweet)
    requires x in rows && x.user == u && x.region == r
    ensures x in PairRows(rows, u, r)
    decreases |rows|
  {
    if x != rows[|rows| - 1] {
      var i :| 0 <= i < |rows| && rows[i] == x;
      assert rows[..|rows| - 1][i] == x;
      PairRowsComplete(rows[..|rows| - 1], u, r, x);
    }
  }

  /** Tweet ids never decrease along the rows. */
  predicate ByTweetId(s: seq<Tweet>)
  {
    forall i, j :: 0 <= i < j < |s| ==> s[i].tweetId <= s[j].tweetId
  }

  /** x placed before the first row with a larger tweet id. */
  function InsertById(x: Tweet, s: seq<Tweet>): (r: seq<Tweet>)
    requires ByTweetId(s)
    ensures ByTweetId(r) && multiset(r) == multiset(s) + multiset{x}
    decreases |s|
  {
    if |s| == 0 then [x]
    else if x.tweetId <= s[0].tweetId then [x] + s
    else
      var rest := InsertById(x, s[1..]);
      assert s == [s[0]] + s[1..];
      HeadById(s[0], x, s[1..], rest);
      [s[0]] + rest
  }

  /** A head no later than x and than every row of a sorted tail stays
      sorted in front of the tail with x inserted. */
  lemma {:induction false} HeadById(h: Tweet, x: Tweet, tail: seq<Tweet>, rest: seq<Tweet>)
    requires ByTweetId([h] + tail) && h.tweetId < x.tweetId
    requires ByTweetId(rest) && multiset(rest) == multiset(tail) + multiset{x}
    ensures ByTweetId([h] + rest)
  {
    forall j | 0 <= j < |rest|
      ensures h.tweetId <= rest[j].tweetId
    {
      assert rest[j] in multiset(rest);
      if rest[j] != x {
        assert rest[j] in multiset(tail);
        var k :| 0 <= k < |tail| && tail[k] == rest[j];
        assert ([h] + tail)[0] == h && ([h] + tail)[k + 1] == tail[k];
      }
    }
    var s := [h] + rest;
    forall i, j | 0 <= i < j < |s|
      ensures s[i].tweetId <= s[j].tweetId
    {
      assert s[j] == rest[j - 1];
      if i > 0 {
        assert s[i] == rest[i - 1];
      }
    }
  }

  /** The rows in tweet-id order. */
  function SortById(s: seq<Tweet>): (r: seq<Tweet>)
    ensures ByTweetId(r) && multiset(r) == multiset(s)
    decreases |s|
  {
    if |s| == 0 then []
    else
      assert s == s[..|s| - 1] + [s[|s| - 1]];
      InsertById(s[|s| - 1], SortById(s[..|s| - 1]))
  }

  /** The creation times of the rows, in their order. */
  function Times(s: seq<Tweet>): (ts: seq<int>)
    ensures |ts| == |s| && forall i :: 0 <= i < |s| ==> ts[i] == s[i].createdAt
  {
    seq(|s|, i requires 0 <= i < |s| => s[i].createdAt)
  }

  /** Creation times of user u's rows in region r, in tweet-id order. */
  function PairTimes(rows: seq<Tweet>, u: int, r: int): (ts: seq<int>)
  {
    Times(SortById(PairRows(rows, u, r)))
  }

  /** The pair's times are those of user u's rows in region r, taken once
      each and ordered by tweet id. */
  lemma {:induction false} PairTimesByTweetId(rows: seq<Tweet>, u: int, r: int)
    ensures exists s :: ByTweetId(s) && multiset(s) == multiset(PairRows(rows, u, r)) && PairTimes(rows, u, r) == Times(s)
    ensures forall x :: x in rows && x.user == u && x.region == r <==> x in multiset(SortById(PairRows(rows, u, r)))
  {
    var s := SortById(PairRows(rows, u, r));
    forall x | x in rows && x.user == u && x.region == r
      ensures x in multiset(s)
    {
      PairRowsComplete(rows, u, r, x);
    }
  }

  /** A region has at least as many rows as home-hour rows. */
  lemma {:induction false} PairTimesCoverCount(rows: seq<Tweet>, u: int, r: int)
    ensures |PairTimes(rows, u, r)| >= RegionCount(rows, u, r, HomeHours(ArchiveWindow))
  {
    PairRowsCoverCount(rows, u, r);
    assert |SortById(PairRows(rows, u, r))| == |multiset(PairRows(rows, u, r))|;
  }

  lemma {:induction false} PairRowsCoverCount(rows: seq<Tweet>, u: int, r: int)
    ensures |PairRows(rows, u, r)| >= RegionCount(rows, u, r, HomeHours(ArchiveWindow))
    decreases |rows|
  {
    if |rows| > 0 {
      PairRowsCoverCount(rows[..|rows| - 1], u, r);
    }
  }

  /** The rows a candidate's period is taken from: with ten or more
      home-hour rows, a tenth of that count is cut from each end of the
      region's rows; otherwise all of them. */
  function Trimmed(ts: seq<int>, size: nat): (r: seq<int>)
    requires size <= |ts|
    ensures size < 10 ==> r == ts
    ensures size >= 10 ==> |r| == |ts| - 2 * (size / 10) > 0
    ensures size >= 10 ==> forall i :: 0 <= i < |r| ==> r[i] == ts[i + size / 10]
  {
    if size < 10 then ts else ts[size / 10 .. |ts| - size / 10]
  }

  /** The candidate of tally t: the home period is the earliest and latest
      creation time among the trimmed rows. */
  function CandidateOf(rows: seq<Tweet>, u: int, t: Tally): (c: Candidate)
    requires t.count > 0
    requires t.count == RegionCount(rows, u, t.region, HomeHours(ArchiveWindow))
    ensures c.region == t.region && c.size == t.count
    ensures c.start <= c.end
  {
    PairTimesCoverCount(rows, u, t.region);
    var ts := Trimmed(PairTimes(rows, u, t.region), t.count);
    Candidate(t.region, t.count, MinOf(ts), MaxOf(ts))
  }

  /** The trimmed period lies within the region's full time span. */
  lemma {:induction false} CandidateWithinRows(rows: seq<Tweet>, u: int, t: Tally)
    requires t.count > 0
    requires t.count == RegionCount(rows, u, t.region, HomeHours(ArchiveWindow))
    ensures PairTimes(rows, u, t.region) != []
    ensures MinOf(PairTimes(rows, u, t.region)) <= CandidateOf(rows, u, t).start
    ensures CandidateOf(rows, u, t).end <= MaxOf(PairTimes(rows, u, t.region))
  {
    PairTimesCoverCount(rows, u, t.region);
    TrimmedWithin(PairTimes(rows, u, t.region), t.count);
  }

  /** Trimming keeps the earliest and latest times within the untrimmed
      ones. */
  lemma {:induction false} TrimmedWithin(all: seq<int>, size: nat)
    requires 0 < size <= |all|
    ensures MinOf(all) <= MinOf(Trimmed(all, size)) && MaxOf(Trimmed(all, size)) <= MaxOf(all)
  {
    var ts := Trimmed(all, size);
    var lo := MinOf(ts);
    var hi := MaxOf(ts);
    var i :| 0 <= i < |ts| && ts[i] == lo;
    var j :| 0 <= j < |ts| && ts[j] == hi;
    if size >= 10 {
      assert all[i + size / 10] == lo && all[j + size / 10] == hi;
    } else {
      assert all[i] == lo && all[j] == hi;
    }
  }

  /** The home-hour tallies of user u as the archive's `during_home`
      counts them. */
  function HomeTallies(rows: seq<Tweet>, u: int): seq<Tally>
  {
    UserTallies(rows, u, HomeHours(ArchiveWindow))
  }

  /** The candidate of one of user u's home-hour tallies. */
  function TallyCandidate(rows: seq<Tweet>, u: int, t: Tally): (c: Candidate)
    requires t in HomeTallies(rows, u)
    ensures c.region == t.region && c.size > 0
  {
    UserTalliesCount(rows, u, HomeHours(ArchiveWindow), t.region);
    CountOfMember(HomeTallies(rows, u), t.region);
    CandidateOf(rows, u, t)
  }

  /** `nlargest(3)` of the home-hour tallies turned into candidates, by
      decreasing size. */
  function Candidates(rows: seq<Tweet>, u: int): (hs: seq<Candidate>)
    ensures |hs| <= 3
    ensures |hs| == 0 <==> |HomeTallies(rows, u)| == 0
    ensures forall i :: 0 <= i < |hs| ==> hs[i].size > 0
  {
    var top := Top(HomeTallies(rows, u), 3);
    seq(|top|, i requires 0 <= i < |top| => TallyCandidate(rows, u, top[i]))
  }

  // Keeping candidates

  /** Whether `label_multiple_homes` keeps the second candidate. */
  predicate KeepSecond(hs: seq<Candidate>)
  {
    |hs| >= 2 && !(Overlaps(hs[0], hs[1]) || Short(hs[1]))
  }

  /** Whether it keeps the third: checked against the first and the
      second, whether or not the second was kept. */
  predicate KeepThird(hs: seq<Candidate>)
  {
    |hs| >= 3 && !(Overlaps(hs[0], hs[2]) || Overlaps(hs[1], hs[2]) || Short(hs[2]))
  }

  /** The candidates `label_multiple_homes` keeps, largest first. */
  function KeptHomes(hs: seq<Candidate>): (k: seq<Candidate>)
    requires |hs| > 0
    ensures |k| > 0 && k[0] == hs[0]
    ensures forall h :: h in k ==> h in hs
  {
    [hs[0]] + (if KeepSecond(hs) then [hs[1]] else []) + (if KeepThird(hs) then [hs[2]] else [])
  }

  /** The kept homes never overlap one another, and every kept home but
      the largest lasts at least thirty days. */
  lemma {:induction false} KeptHomesDisjoint(hs: seq<Candidate>)
    requires |hs| > 0
    ensures forall i, j :: 0 <= i < j < |KeptHomes(hs)| ==> !Overlaps(KeptHomes(hs)[i], KeptHomes(hs)[j])
    ensures forall i :: 1 <= i < |KeptHomes(hs)| ==> !Short(KeptHomes(hs)[i])
  {
    var k := KeptHomes(hs);
    forall i, j | 0 <= i < j < |k| ensures !Overlaps(k[i], k[j]) && !Short(k[j]) {
      if KeepSecond(hs) && KeepThird(hs) {
        assert k == [hs[0], hs[1], hs[2]];
      } else if KeepSecond(hs) {
        assert k == [hs[0], hs[1]];
      } else if KeepThird(hs) {
        assert k == [hs[0], hs[2]];
      }
    }
  }

  /** A third candidate is dropped for overlapping a second that was
      itself dropped as too short: only the largest home survives though
      the third overlaps no kept home. */
  lemma {:induction false} ThirdDroppedByDroppedSecond()
    ensures var hs := [Candidate(1, 30, 0, 10), Candidate(2, 20, 20, 25), Candidate(3, 10, 21, 21 + ThirtyDays)];
            !KeepSecond(hs) && !KeepThird(hs) && KeptHomes(hs) == [hs[0]]
            && !Overlaps(hs[0], hs[2]) && !Short(hs[2])
  {
  }

  /** The home `label_current_home` picks: the largest candidate, replaced
      by a later-starting second or third that passes the same tests. */
  function CurrentHome(hs: seq<Candidate>): Candidate
    requires |hs| > 0
  {
    var first := hs[0];
    var second := if KeepSecond(hs) then Latest(first, hs[1]) else first;
    if KeepThird(hs) then Latest(second, hs[2]) else second
  }

  /** The current home is the kept home that starts latest. */
  lemma {:induction false} CurrentHomeIsLatestKept(hs: seq<Candidate>)
    requires |hs| > 0
    ensures CurrentHome(hs) in KeptHomes(hs)
    ensures forall h :: h in KeptHomes(hs) ==> h.start <= CurrentHome(hs).start
  {
  }

  // Labelling

  /** The regions of user u that `label_multiple_homes` labels home. */
  function MultipleHomeRegions(rows: seq<Tweet>, u: int): seq<int>
  {
    var hs := Candidates(rows, u);
    if |hs| == 0 then [] else
      var k := KeptHomes(hs);
      seq(|k|, i requires 0 <= i < |k| => k[i].region)
  }

  /** `label_multiple_homes`: every row of a kept home region becomes
      `Home`; other rows keep their label. */
  function LabelMultipleHomes(rows: seq<Tweet>): (r: seq<Tweet>)
    ensures |r| == |rows|
    ensures forall i :: 0 <= i < |rows| ==>
              r[i] == if rows[i].region in MultipleHomeRegions(rows, rows[i].user) then rows[i].(tag := Home) else rows[i]
  {
    seq(|rows|, i requires 0 <= i < |rows| =>
      if rows[i].region in MultipleHomeRegions(rows, rows[i].user) then rows[i].(tag := Home) else rows[i])
  }

  /** The region `label_current_home` labels home for user u, none when
      the user has no home-hour row. */
  function CurrentHomeRegion(rows: seq<Tweet>, u: int): Option<int>
  {
    var hs := Candidates(rows, u);
    if |hs| == 0 then None else Some(CurrentHome(hs).region)
  }

  /** `label_current_home`: the rows of the current home region become
      `Home`; other rows keep their label. */
  function LabelCurrentHome(rows: seq<Tweet>): (r: seq<Tweet>)
    ensures |r| == |rows|
    ensures forall i :: 0 <= i < |rows| ==>
              r[i] == if CurrentHomeRegion(rows, rows[i].user) == Some(rows[i].region) then rows[i].(tag := Home) else rows[i]
  {
    seq(|rows|, i requires 0 <= i < |rows| =>
      if CurrentHomeRegion(rows, rows[i].user) == Some(rows[i].region) then rows[i].(tag := Home) else rows[i])
  }

  /** A user gets a current home exactly when the user has a home-hour
      row, and it is one of the regions `label_multiple_homes` keeps. */
  lemma {:induction false} CurrentHomeAmongMultiple(rows: seq<Tweet>, u: int)
    ensures CurrentHomeRegion(rows, u).None? <==> forall r :: RegionCount(rows, u, r, HomeHours(ArchiveWindow)) == 0
    ensures CurrentHomeRegion(rows, u).Some? ==> CurrentHomeRegion(rows, u).value in MultipleHomeRegions(rows, u)
  {
    var ts := HomeTallies(rows, u);
    UserTalliesCount(rows, u, HomeHours(ArchiveWindow), 0);
    if |ts| == 0 {
      forall r ensures RegionCount(rows, u, r, HomeHours(ArchiveWindow)) == 0 {
        UserTalliesCount(rows, u, HomeHours(ArchiveWindow), r);
      }
    } else {
      assert ts[0] in ts;
      UserTalliesCount(rows, u, HomeHours(ArchiveWindow), ts[0].region);
      CountOfMember(ts, ts[0].region);
      var hs := Candidates(rows, u);
      CurrentHomeIsLatestKept(hs);
      var k := KeptHomes(hs);
      var i :| 0 <= i < |k| && k[i] == CurrentHome(hs);
      var m := MultipleHomeRegions(rows, u);
      assert |m| == |k| && m[i] == CurrentHome(hs).region;
      assert CurrentHomeRegion(rows, u) == Some(m[i]);
    }
  }

  // Work labelling

  /** Regions of user u's rows labelled `Home`. */
  function HomeRegionSet(rows: seq<Tweet>, u: int): set<int>
  {
    set i | 0 <= i < |rows| && rows[i].user == u && rows[i].tag == Home :: rows[i].region
  }

  /** Position of the first tally whose region is not a home region,
      |top| when there is none. */
  function NonHomeIndex(top: seq<Tally>, homes: set<int>): (k: nat)
    ensures k <= |top|
    ensures forall i :: 0 <= i < k ==> top[i].region in homes
    ensures k < |top| ==> top[k].region !in homes
    decreases |top|
  {
    if |top| == 0 || top[0].region !in homes then 0
    else 1 + NonHomeIndex(top[1..], homes)
  }

  /** The first tally whose region is not a home region. */
  function FirstNonHome(top: seq<Tally>, homes: set<int>): (w: Option<int>)
    ensures w.None? <==> forall i :: 0 <= i < |top| ==> top[i].region in homes
  {
    var k := NonHomeIndex(top, homes);
    if k < |top| then Some(top[k].region) else None
  }

  /** `label_work` of src/py/archive.py for user u: the four most counted
      weekday regions, home regions removed, first remaining; nothing
      when all four are homes. */
  function ArchiveWorkChoice(rows: seq<Tweet>, u: int): Option<int>
  {
    FirstNonHome(Top(UserTallies(rows, u, WorkHours), 4), HomeRegionSet(rows, u))
  }

  /** One instance of the ordering of `Top`. */
  lemma {:induction false} TopOrdered(ts: seq<Tally>, k: nat, i: int, j: int)
    requires WellFormedTallies(ts)
    requires 0 <= i <= j < |Top(ts, k)|
    ensures Top(ts, k)[j].count <= Top(ts, k)[i].count
  {
    TopSortedDistinct(ts, k);
  }

  /** Among the k largest of well-formed tallies, the first non-home
      region is counted, and no non-home region outcounts it. */
  lemma {:induction false} FirstNonHomeIsBest(ts: seq<Tally>, k: nat, homes: set<int>, r: int)
    requires WellFormedTallies(ts)
    requires FirstNonHome(Top(ts, k), homes).Some?
    ensures FirstNonHome(Top(ts, k), homes).value !in homes
    ensures CountOf(ts, FirstNonHome(Top(ts, k), homes).value) > 0
    ensures r !in homes ==> CountOf(ts, r) <= CountOf(ts, FirstNonHome(Top(ts, k), homes).value)
  {
    var top := Top(ts, k);
    var i := NonHomeIndex(top, homes);
    var w := top[i].region;
    assert top[i] in ts;
    CountOfMember(ts, w);
    CountOfMember(ts, r);
    if r !in homes && CountOf(ts, r) > 0 {
      var x := Tally(r, CountOf(ts, r));
      if x in top {
        var j :| 0 <= j < |top| && top[j] == x;
        TopOrdered(ts, k, i, j);
      } else {
        TopDominates(ts, k, top[i], x);
      }
    }
  }

  /** The archive's work region is no home region, and every non-home
      weekday region has at most its row count. */
  lemma {:induction false} ArchiveWorkIsBestNonHome(rows: seq<Tweet>, u: int, r: int)
    requires ArchiveWorkChoice(rows, u).Some?
    ensures ArchiveWorkChoice(rows, u).value !in HomeRegionSet(rows, u)
    ensures RegionCount(rows, u, ArchiveWorkChoice(rows, u).value, WorkHours) > 0
    ensures r !in HomeRegionSet(rows, u) ==>
              RegionCount(rows, u, r, WorkHours) <= RegionCount(rows, u, ArchiveWorkChoice(rows, u).value, WorkHours)
  {
    var ts := UserTallies(rows, u, WorkHours);
    var homes := HomeRegionSet(rows, u);
    var w := ArchiveWorkChoice(rows, u).value;
    UserTalliesCount(rows, u, WorkHours, w);
    UserTalliesCount(rows, u, WorkHours, r);
    FirstNonHomeIsBest(ts, 4, homes, r);
  }

  /** `label_work` of src/py/archive.py: every row of a user's work region
      becomes `Work`; a user without one is skipped. */
  function LabelWorkArchive(rows: seq<Tweet>): (r: seq<Tweet>)
    ensures |r| == |rows|
    ensures forall i :: 0 <= i < |rows| ==>
              r[i] == if ArchiveWorkChoice(rows, rows[i].user) == Some(rows[i].region) then rows[i].(tag := Work) else rows[i]
  {
    seq(|rows|, i requires 0 <= i < |rows| =>
      if ArchiveWorkChoice(rows, rows[i].user) == Some(rows[i].region) then rows[i].(tag := Work) else rows[i])
  }
}

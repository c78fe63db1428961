/** The tweet ingestion of src/go/internal/ingest/ingest.go: the decoded
    tweets of one user file become a user with a timeline of geotagged
    tweets, a list of profile changes and a summary of what was counted;
    the files themselves are grouped by the user id in their names.
    Reading, JSON decoding, time parsing and the time-zone lookup are not
    part of this model: tweets arrive decoded, with their creation time as
    an integer, and the lookup is a parameter that may fail. */
module Ingest {
  import opened Common

  datatype TweetUser = TweetUser(id: int, language: string, utcOffset: int, timezone: string)

  /** A decoded tweet; `coords` is the GeoJSON [longitude, latitude] pair
      when the tweet is geotagged. */
  datatype JsonTweet = JsonTweet(createdAt: int, id: int, language: string, coords: seq<real>, user: TweetUser)

  datatype Profile = Profile(id: int, userId: int, createdAt: int, language: string, utcOffset: int, timezone: string)

  /** What the time-zone lookup adds to a geotagged tweet. */
  datatype LocalTime = LocalTime(month: int, weekday: int, hourOfDay: int, timeZone: string)

  datatype GeoTweet = GeoTweet(tweetId: int, userId: int, createdAt: int, lat: real, lng: real, local: LocalTime)

  datatype User = User(id: int, profiles: seq<Profile>, timeline: seq<GeoTweet>)

  datatype Summary = Summary(duplicates: int, tweets: int, geoTweets: int)

  // Summaries

  /** `Summary.Add`. */
  function Add(s: Summary, o: Summary): (r: Summary)
    ensures r.duplicates == s.duplicates + o.duplicates
    ensures r.tweets == s.tweets + o.tweets && r.geoTweets == s.geoTweets + o.geoTweets
  {
    Summary(s.duplicates + o.duplicates, s.tweets + o.tweets, s.geoTweets + o.geoTweets)
  }

  /** The summaries of several users added up, one after the other. */
  function Total(ss: seq<Summary>): Summary
  {
    if |ss| == 0 then Summary(0, 0, 0) else Add(Total(ss[..|ss| - 1]), ss[|ss| - 1])
  }

  /** Adding up two batches separately and then adding the results gives
      the total of all of them: the order of accumulation does not
      matter. */
  lemma {:induction false} TotalConcat(a: seq<Summary>, b: seq<Summary>)
    ensures Total(a + b) == Add(Total(a), Total(b))
    decreases |b|
  {
    if |b| == 0 {
      assert a + b == a;
    } else {
      assert (a + b)[..|a + b| - 1] == a + b[..|b| - 1];
      TotalConcat(a, b[..|b| - 1]);
    }
  }

  // Ordering by creation time

  predicate SortedByTime(s: seq<JsonTweet>)
  {
    forall i, j :: 0 <= i < j < |s| ==> s[i].createdAt <= s[j].createdAt
  }

  predicate NoLaterThan(s: seq<JsonTweet>, t: int)
  {
    forall i :: 0 <= i < |s| ==> s[i].createdAt <= t
  }

  /** A tweet no earlier than every tweet of a sorted sequence can follow
      them. */
  lemma {:induction false} SortedSnoc(s: seq<JsonTweet>, x: JsonTweet)
    requires SortedByTime(s) && NoLaterThan(s, x.createdAt)
    ensures SortedByTime(s + [x])
  {
    var r := s + [x];
    assert forall i :: 0 <= i < |s| ==> r[i] == s[i];
  }

  /** x placed after every tweet not later than it. */
  function Insert(s: seq<JsonTweet>, x: JsonTweet): (r: seq<JsonTweet>)
    requires SortedByTime(s)
    ensures |r| == |s| + 1
    ensures SortedByTime(r) && multiset(r) == multiset(s) + multiset{x}
    ensures forall t :: NoLaterThan(s, t) && x.createdAt <= t ==> NoLaterThan(r, t)
    decreases |s|
  {
    if |s| == 0 then [x]
    else
      var last := s[|s| - 1];
      var init := s[..|s| - 1];
      assert s == init + [last];
      if last.createdAt <= x.createdAt then s + [x]
      else
        var r := Insert(init, x);
        assert NoLaterThan(init, last.createdAt);
        assert NoLaterThan(r, last.createdAt);
        r + [last]
  }

  /** The `sort.Slice` by creation time, ties in input order (Go leaves
      their order unspecified). */
  function SortByTime(s: seq<JsonTweet>): (r: seq<JsonTweet>)
    ensures |r| == |s|
    ensures SortedByTime(r) && multiset(r) == multiset(s)
    decreases |s|
  {
    if |s| == 0 then []
    else
      assert s == s[..|s| - 1] + [s[|s| - 1]];
      Insert(SortByTime(s[..|s| - 1]), s[|s| - 1])
  }

  // One user's tweets

  predicate Geotagged(t: JsonTweet)
  {
    |t.coords| == 2
  }

  /** Tweet k repeats the id of an earlier geotagged tweet. Only
      geotagged ids are remembered. */
  predicate Repeated(s: seq<JsonTweet>, k: nat)
    requires k < |s|
  {
    exists j :: 0 <= j < k && Geotagged(s[j]) && s[j].id == s[k].id
  }

  /** Tweet k carries another user's id than the non-zero id of the tweet
      before it. */
  predicate Conflict(s: seq<JsonTweet>, k: nat)
    requires k < |s|
  {
    0 < k && s[k - 1].user.id != 0 && s[k].user.id != s[k - 1].user.id
  }

  /** Number of repeated tweets among the first n. */
  function Repeats(s: seq<JsonTweet>, n: nat): nat
    requires n <= |s|
  {
    if n == 0 then 0 else Repeats(s, n - 1) + (if Repeated(s, n - 1) then 1 else 0)
  }

  /** The geotagged tweets among the first n that repeat no earlier one. */
  function Kept(s: seq<JsonTweet>, n: nat): (k: seq<JsonTweet>)
    requires n <= |s|
    ensures |k| <= n
    ensures forall m :: 0 <= m < |k| ==> Geotagged(k[m]) && exists j :: 0 <= j < n && s[j] == k[m] && !Repeated(s, j)
  {
    if n == 0 then []
    else
      var init := Kept(s, n - 1);
      if Geotagged(s[n - 1]) && !Repeated(s, n - 1) then
        var k := init + [s[n - 1]];
        assert forall m :: 0 <= m < |init| ==> k[m] == init[m];
        k
      else init
  }

  function Locate(loc: (real, real, int) -> Result<LocalTime>, t: JsonTweet): Result<LocalTime>
    requires Geotagged(t)
  {
    loc(t.coords[1], t.coords[0], t.createdAt)
  }

  /** The timeline entry of a geotagged tweet: latitude second, longitude
      first. */
  function Located(t: JsonTweet, local: LocalTime): (g: GeoTweet)
    requires Geotagged(t)
    ensures g.tweetId == t.id && g.userId == t.user.id && g.createdAt == t.createdAt
    ensures g.lat == t.coords[1] && g.lng == t.coords[0] && g.local == local
  {
    GeoTweet(t.id, t.user.id, t.createdAt, t.coords[1], t.coords[0], local)
  }

  function ToProfile(t: JsonTweet): Profile
  {
    Profile(t.id, t.user.id, t.createdAt, t.user.language, t.user.utcOffset, t.user.timezone)
  }

  /** `equalProfile`: the same time zone, offset and language. */
  predicate EqualProfile(a: Profile, b: Profile)
  {
    a.timezone == b.timezone && a.utcOffset == b.utcOffset && a.language == b.language
  }

  /** Consecutive profiles differ. */
  predicate Changes(ps: seq<Profile>)
  {
    forall i :: 0 < i < |ps| ==> !EqualProfile(ps[i - 1], ps[i])
  }

  /** The loop state of `jsonAsUser`. */
  datatype State = State(uid: int, seen: set<int>, summary: Summary, timeline: seq<GeoTweet>, profiles: seq<Profile>)

  /** One round of the loop. */
  function Step(st: State, tw: JsonTweet, loc: (real, real, int) -> Result<LocalTime>): Result<State>
  {
    if st.uid != 0 && tw.user.id != st.uid then Err("found tweets with different user id")
    else
      var st := st.(uid := tw.user.id);
      if tw.id in st.seen then Ok(st.(summary := st.summary.(duplicates := st.summary.duplicates + 1)))
      else
        var st := st.(summary := st.summary.(tweets := st.summary.tweets + 1));
        if !Geotagged(tw) then Ok(st)
        else
          var st := st.(summary := st.summary.(geoTweets := st.summary.geoTweets + 1), seen := st.seen + {tw.id});
          var local := Locate(loc, tw);
          if local.Err? then Err("to geotweet: " + local.msg)
          else
            Ok(st.(timeline := st.timeline + [Located(tw, local.value)], profiles := NextProfiles(st.profiles, tw)))
  }

  /** The ids of the geotagged tweets among the first n. */
  function SeenIds(s: seq<JsonTweet>, n: nat): set<int>
    requires n <= |s|
  {
    set j | 0 <= j < n && Geotagged(s[j]) :: s[j].id
  }

  /** The user id, the remembered ids and the counts after the first n
      tweets. */
  predicate CountsOk(s: seq<JsonTweet>, n: nat, st: State)
    requires n <= |s|
  {
    st.uid == (if n == 0 then 0 else s[n - 1].user.id) && st.seen == SeenIds(s, n)
    && st.summary.duplicates == Repeats(s, n) && st.summary.tweets == n - Repeats(s, n)
  }

  /** The timeline after the first n tweets: the kept tweets, located. */
  predicate TimelineOk(s: seq<JsonTweet>, n: nat, loc: (real, real, int) -> Result<LocalTime>, st: State)
    requires n <= |s|
  {
    var kept := Kept(s, n);
    st.summary.geoTweets == |st.timeline| == |kept|
    && forall m :: 0 <= m < |kept| ==> Locate(loc, kept[m]).Ok? && st.timeline[m] == Located(kept[m], Locate(loc, kept[m]).value)
  }

  /** The profiles change at every entry, each one is a kept tweet's, and
      the last matches the last kept tweet. */
  predicate Profiled(ps: seq<Profile>, kept: seq<JsonTweet>)
  {
    Changes(ps)
    && (forall i :: 0 <= i < |ps| ==> exists m :: 0 <= m < |kept| && ps[i] == ToProfile(kept[m]))
    && (|kept| > 0 <==> |ps| > 0)
    && (|kept| > 0 ==> EqualProfile(ps[|ps| - 1], ToProfile(kept[|kept| - 1])))
  }

  /** A tweet is a repeat exactly when its id has been remembered. */
  lemma {:induction false} RepeatedIffSeen(s: seq<JsonTweet>, k: nat)
    requires k < |s|
    ensures Repeated(s, k) <==> s[k].id in SeenIds(s, k)
  {
    if s[k].id in SeenIds(s, k) {
      var j :| 0 <= j < k && Geotagged(s[j]) && s[j].id == s[k].id;
    }
  }

  lemma {:induction false} StepCounts(s: seq<JsonTweet>, n: nat, loc: (real, real, int) -> Result<LocalTime>, st: State)
    requires 0 < n <= |s| && CountsOk(s, n - 1, st)
    ensures Step(st, s[n - 1], loc).Ok? ==> CountsOk(s, n, Step(st, s[n - 1], loc).value)
    ensures Conflict(s, n - 1) ==> Step(st, s[n - 1], loc).Err?
    ensures Step(st, s[n - 1], loc).Err? ==> Conflict(s, n - 1) || (Geotagged(s[n - 1]) && Locate(loc, s[n - 1]).Err?)
  {
    var tw := s[n - 1];
    assert SeenIds(s, n) == SeenIds(s, n - 1) + (if Geotagged(tw) then {tw.id} else {});
    RepeatedIffSeen(s, n - 1);
  }

  lemma {:induction false} StepTimeline(s: seq<JsonTweet>, n: nat, loc: (real, real, int) -> Result<LocalTime>, st: State)
    requires 0 < n <= |s| && CountsOk(s, n - 1, st) && TimelineOk(s, n - 1, loc, st)
    ensures Step(st, s[n - 1], loc).Ok? ==> TimelineOk(s, n, loc, Step(st, s[n - 1], loc).value)
  {
    RepeatedIffSeen(s, n - 1);
  }

  /** The profile step: a kept tweet adds its profile unless it equals
      the last one. */
  function NextProfiles(ps: seq<Profile>, t: JsonTweet): seq<Profile>
  {
    var p := ToProfile(t);
    if |ps| == 0 || !EqualProfile(ps[|ps| - 1], p) then ps + [p] else ps
  }

  lemma {:induction false} ProfiledExtend(ps: seq<Profile>, kept: seq<JsonTweet>, t: JsonTweet)
    requires Profiled(ps, kept)
    ensures Profiled(NextProfiles(ps, t), kept + [t])
  {
    if |ps| == 0 || !EqualProfile(ps[|ps| - 1], ToProfile(t)) {
      ProfiledAppend(ps, kept, t);
    } else {
      ProfiledSame(ps, kept, t);
    }
  }

  /** A profile that differs from the last one is appended. */
  lemma {:induction false} ProfiledAppend(ps: seq<Profile>, kept: seq<JsonTweet>, t: JsonTweet)
    requires Profiled(ps, kept)
    requires |ps| == 0 || !EqualProfile(ps[|ps| - 1], ToProfile(t))
    ensures Profiled(ps + [ToProfile(t)], kept + [t])
  {
    var ps2 := ps + [ToProfile(t)];
    var k2 := kept + [t];
    assert ps2[|ps2| - 1] == ToProfile(k2[|k2| - 1]);
    forall i | 0 <= i < |ps2| ensures exists m :: 0 <= m < |k2| && ps2[i] == ToProfile(k2[m]) {
      if i < |ps| {
        var m :| 0 <= m < |kept| && ps[i] == ToProfile(kept[m]);
        assert k2[m] == kept[m] && ps2[i] == ps[i];
      } else {
        assert ps2[i] == ToProfile(k2[|kept|]);
      }
    }
    forall i | 0 < i < |ps2| ensures !EqualProfile(ps2[i - 1], ps2[i]) {
      if i < |ps| {
        assert ps2[i - 1] == ps[i - 1] && ps2[i] == ps[i];
      } else {
        assert ps2[i - 1] == ps[|ps| - 1];
      }
    }
  }

  /** A profile equal to the last one leaves the profiles as they are. */
  lemma {:induction false} ProfiledSame(ps: seq<Profile>, kept: seq<JsonTweet>, t: JsonTweet)
    requires Profiled(ps, kept)
    requires |ps| > 0 && EqualProfile(ps[|ps| - 1], ToProfile(t))
    ensures Profiled(ps, kept + [t])
  {
    var k2 := kept + [t];
    forall i | 0 <= i < |ps| ensures exists m :: 0 <= m < |k2| && ps[i] == ToProfile(k2[m]) {
      var m :| 0 <= m < |kept| && ps[i] == ToProfile(kept[m]);
      assert k2[m] == kept[m];
    }
    assert k2[|k2| - 1] == t;
  }

  /** The profiles after one round of the loop. */
  lemma {:induction false} StepProfilesValue(st: State, tw: JsonTweet, loc: (real, real, int) -> Result<LocalTime>)
    ensures Step(st, tw, loc).Ok? ==>
      Step(st, tw, loc).value.profiles == if Geotagged(tw) && tw.id !in st.seen then NextProfiles(st.profiles, tw) else st.profiles
  {
  }

  /** The kept tweets after one more tweet. */
  lemma {:induction false} KeptStep(s: seq<JsonTweet>, n: nat)
    requires 0 < n <= |s|
    ensures Kept(s, n) == if Geotagged(s[n - 1]) && !Repeated(s, n - 1) then Kept(s, n - 1) + [s[n - 1]] else Kept(s, n - 1)
  {
  }

  lemma {:induction false} StepProfiles(s: seq<JsonTweet>, n: nat, loc: (real, real, int) -> Result<LocalTime>, st: State)
    requires 0 < n <= |s| && CountsOk(s, n - 1, st) && Profiled(st.profiles, Kept(s, n - 1))
    ensures Step(st, s[n - 1], loc).Ok? ==> Profiled(Step(st, s[n - 1], loc).value.profiles, Kept(s, n))
  {
    var tw := s[n - 1];
    RepeatedIffSeen(s, n - 1);
    StepProfilesValue(st, tw, loc);
    KeptStep(s, n);
    if Geotagged(tw) && !Repeated(s, n - 1) {
      ProfiledExtend(st.profiles, Kept(s, n - 1), tw);
    }
  }

  /** Some tweet among the first n conflicts with the one before it. */
  predicate AnyConflict(s: seq<JsonTweet>, n: nat)
    requires n <= |s|
  {
    exists k :: 0 <= k < n && Conflict(s, k)
  }

  /** The lookup fails for some geotagged tweet among the first n. */
  predicate AnyFailure(s: seq<JsonTweet>, n: nat, loc: (real, real, int) -> Result<LocalTime>)
    requires n <= |s|
  {
    exists k :: 0 <= k < n && Geotagged(s[k]) && Locate(loc, s[k]).Err?
  }

  lemma {:induction false} AnyStep(s: seq<JsonTweet>, n: nat, loc: (real, real, int) -> Result<LocalTime>)
    requires 0 < n <= |s|
    ensures AnyConflict(s, n) <==> AnyConflict(s, n - 1) || Conflict(s, n - 1)
    ensures AnyFailure(s, n, loc) <==> AnyFailure(s, n - 1, loc) || (Geotagged(s[n - 1]) && Locate(loc, s[n - 1]).Err?)
  {
  }

  /** The loop over the first n tweets, with what it keeps true. */
  function Run(s: seq<JsonTweet>, n: nat, loc: (real, real, int) -> Result<LocalTime>): (r: Result<State>)
    requires n <= |s|
    ensures r.Ok? ==> CountsOk(s, n, r.value) && TimelineOk(s, n, loc, r.value) && Profiled(r.value.profiles, Kept(s, n))
    ensures AnyConflict(s, n) ==> r.Err?
    ensures r.Err? ==> AnyConflict(s, n) || AnyFailure(s, n, loc)
  {
    if n == 0 then Ok(State(0, {}, Summary(0, 0, 0), [], []))
    else
      var prev := Run(s, n - 1, loc);
      AnyStep(s, n, loc);
      if prev.Err? then prev
      else
        StepCounts(s, n, loc, prev.value);
        StepTimeline(s, n, loc, prev.value);
        StepProfiles(s, n, loc, prev.value);
        Step(prev.value, s[n - 1], loc)
  }

  /** The sorted tweets are the input tweets. */
  lemma {:induction false} SortedFromInput(tweets: seq<JsonTweet>)
    ensures forall k :: 0 <= k < |tweets| ==> SortByTime(tweets)[k] in tweets
  {
    var s := SortByTime(tweets);
    forall k | 0 <= k < |s| ensures s[k] in tweets {
      assert s[k] in multiset(s);
    }
  }

  lemma {:induction false} FailureFromInput(tweets: seq<JsonTweet>, loc: (real, real, int) -> Result<LocalTime>)
    ensures AnyFailure(SortByTime(tweets), |tweets|, loc) ==> exists t :: t in tweets && Geotagged(t) && Locate(loc, t).Err?
  {
    var s := SortByTime(tweets);
    if AnyFailure(s, |s|, loc) {
      SortedFromInput(tweets);
      var k :| 0 <= k < |s| && Geotagged(s[k]) && Locate(loc, s[k]).Err?;
      assert s[k] in tweets;
    }
  }

  /** No two timeline entries share a tweet id. */
  predicate DistinctIds(tl: seq<GeoTweet>)
  {
    forall a, b :: 0 <= a < b < |tl| ==> tl[a].tweetId != tl[b].tweetId
  }

  /** The timeline is in non-decreasing order of creation. */
  predicate TimeOrdered(tl: seq<GeoTweet>)
  {
    forall a, b :: 0 <= a < b < |tl| ==> tl[a].createdAt <= tl[b].createdAt
  }

  /** The kept tweets have distinct ids, and keep the order of a sorted
      input. */
  lemma {:induction false} KeptDistinctOrdered(s: seq<JsonTweet>, n: nat)
    requires n <= |s|
    ensures forall a, b :: 0 <= a < b < |Kept(s, n)| ==> Kept(s, n)[a].id != Kept(s, n)[b].id
    ensures SortedByTime(s) ==> SortedByTime(Kept(s, n))
    decreases n
  {
    if n > 0 {
      KeptDistinctOrdered(s, n - 1);
      var init := Kept(s, n - 1);
      var t := s[n - 1];
      if Geotagged(t) && !Repeated(s, n - 1) {
        var k := Kept(s, n);
        assert k == init + [t];
        forall a | 0 <= a < |init| ensures init[a].id != t.id && (SortedByTime(s) ==> init[a].createdAt <= t.createdAt) {
          var j :| 0 <= j < n - 1 && s[j] == init[a] && !Repeated(s, j);
        }
      }
    }
  }

  /** The entry is some geotagged input tweet, located. */
  ghost predicate LocatedFrom(tweets: seq<JsonTweet>, loc: (real, real, int) -> Result<LocalTime>, g: GeoTweet)
  {
    exists t :: t in tweets && Geotagged(t) && Locate(loc, t).Ok? && g == Located(t, Locate(loc, t).value)
  }

  /** What the timeline of a finished run satisfies. */
  lemma {:induction false} TimelineFacts(tweets: seq<JsonTweet>, loc: (real, real, int) -> Result<LocalTime>, st: State)
    requires TimelineOk(SortByTime(tweets), |tweets|, loc, st)
    ensures DistinctIds(st.timeline) && TimeOrdered(st.timeline)
    ensures forall m :: 0 <= m < |st.timeline| ==>
              LocatedFrom(tweets, loc, st.timeline[m])
  {
    var s := SortByTime(tweets);
    KeptDistinctOrdered(s, |s|);
    TimelineMirrorsKept(Kept(s, |s|), loc, st);
    forall m | 0 <= m < |st.timeline|
      ensures LocatedFrom(tweets, loc, st.timeline[m])
    {
      EntryFromInput(tweets, loc, st, m);
    }
  }

  /** A timeline that locates the kept tweets one by one inherits their
      distinct ids and their order. */
  lemma {:induction false} TimelineMirrorsKept(kept: seq<JsonTweet>, loc: (real, real, int) -> Result<LocalTime>, st: State)
    requires |st.timeline| == |kept|
    requires forall m :: 0 <= m < |kept| ==> Geotagged(kept[m]) && Locate(loc, kept[m]).Ok? && st.timeline[m] == Located(kept[m], Locate(loc, kept[m]).value)
    requires forall a, b :: 0 <= a < b < |kept| ==> kept[a].id != kept[b].id
    requires SortedByTime(kept)
    ensures DistinctIds(st.timeline) && TimeOrdered(st.timeline)
  {
    forall a, b | 0 <= a < b < |st.timeline|
      ensures st.timeline[a].tweetId != st.timeline[b].tweetId && st.timeline[a].createdAt <= st.timeline[b].createdAt
    {
      assert st.timeline[a].tweetId == kept[a].id && st.timeline[b].tweetId == kept[b].id;
      assert st.timeline[a].createdAt == kept[a].createdAt && st.timeline[b].createdAt == kept[b].createdAt;
    }
  }

  /** One timeline entry comes from a geotagged input tweet. */
  lemma {:induction false} EntryFromInput(tweets: seq<JsonTweet>, loc: (real, real, int) -> Result<LocalTime>, st: State, m: nat)
    requires TimelineOk(SortByTime(tweets), |tweets|, loc, st)
    requires m < |st.timeline|
    ensures LocatedFrom(tweets, loc, st.timeline[m])
  {
    var s := SortByTime(tweets);
    var kept := Kept(s, |s|);
    var t := kept[m];
    var j :| 0 <= j < |s| && s[j] == t && !Repeated(s, j);
    assert t in multiset(s);
    assert t in tweets;
    assert Geotagged(t) && Locate(loc, t).Ok? && st.timeline[m] == Located(t, Locate(loc, t).value);
    assert LocatedFrom(tweets, loc, st.timeline[m]);
  }

  /** `jsonAsUser`: sort by creation time, then run the loop over all
      tweets. It fails at a tweet of another user, and when the lookup
      fails. */
  function JsonAsUser(tweets: seq<JsonTweet>, loc: (real, real, int) -> Result<LocalTime>): (r: Result<(User, Summary)>)
    ensures AnyConflict(SortByTime(tweets), |tweets|) ==> r.Err?
    ensures r.Err? ==> AnyConflict(SortByTime(tweets), |tweets|) || exists t :: t in tweets && Geotagged(t) && Locate(loc, t).Err?
    ensures r.Ok? ==> r.value.1.duplicates + r.value.1.tweets == |tweets|
    ensures r.Ok? ==> r.value.1.geoTweets == |r.value.0.timeline|
    ensures r.Ok? && |tweets| > 0 ==> r.value.0.id == SortByTime(tweets)[|tweets| - 1].user.id
    ensures r.Ok? ==> DistinctIds(r.value.0.timeline) && TimeOrdered(r.value.0.timeline)
    ensures r.Ok? ==> forall m :: 0 <= m < |r.value.0.timeline| ==>
              LocatedFrom(tweets, loc, r.value.0.timeline[m])
    ensures r.Ok? ==> Changes(r.value.0.profiles)
  {
    var s := SortByTime(tweets);
    var run := Run(s, |s|, loc);
    if run.Err? then
      FailureFromInput(tweets, loc);
      Err(run.msg)
    else
      TimelineFacts(tweets, loc, run.value);
      Ok((User(run.value.uid, run.value.profiles, run.value.timeline), run.value.summary))
  }

  /** The first tweet is never a repeat, so a non-empty input counts at
      least one tweet. */
  lemma {:induction false} RepeatsBelow(s: seq<JsonTweet>, n: nat)
    requires 0 < n <= |s|
    ensures Repeats(s, n) < n
    decreases n
  {
    if n > 1 {
      RepeatsBelow(s, n - 1);
    }
  }

  /** `parseJSON` once the lines are decoded: an empty file is an error. */
  function ParseJSON(tweets: seq<JsonTweet>, loc: (real, real, int) -> Result<LocalTime>): (r: Result<(User, Summary)>)
    ensures |tweets| == 0 ==> r == Err("no tweets found for user")
    ensures |tweets| > 0 && AnyConflict(SortByTime(tweets), |tweets|) ==> r.Err?
    ensures r.Ok? ==> r.value.1.tweets >= 1 && r.value.1.duplicates + r.value.1.tweets == |tweets|
    ensures r.Ok? ==> r.value.1.geoTweets == |r.value.0.timeline| <= r.value.1.tweets
  {
    if |tweets| == 0 then Err("no tweets found for user")
    else
      var s := SortByTime(tweets);
      var run := Run(s, |s|, loc);
      if run.Ok? then
        RepeatsBelow(s, |s|);
        KeptUnique(s, |s|);
        JsonAsUser(tweets, loc)
      else
        JsonAsUser(tweets, loc)
  }

  /** No more tweets are kept than are counted as new. */
  lemma {:induction false} KeptUnique(s: seq<JsonTweet>, n: nat)
    requires n <= |s|
    ensures |Kept(s, n)| <= n - Repeats(s, n)
    decreases n
  {
    if n > 0 {
      KeptUnique(s, n - 1);
      RepeatsBelow(s, n);
    }
  }

  /** The same tweet twice without coordinates is counted twice: only
      geotagged ids are remembered. */
  lemma {:induction false} UngeotaggedCountedTwice(t: JsonTweet, loc: (real, real, int) -> Result<LocalTime>)
    requires !Geotagged(t)
    ensures JsonAsUser([t, t], loc).Ok?
    ensures JsonAsUser([t, t], loc).value.1 == Summary(0, 2, 0)
  {
    var s := SortByTime([t, t]);
    assert [t, t][..1] == [t];
    assert s == [t, t];
    assert !Repeated(s, 1);
    assert !AnyConflict(s, 2);
    assert !AnyFailure(s, 2, loc);
    assert !Repeated(s, 0);
    assert Repeats(s, 1) == 0;
    assert Repeats(s, 2) == 0;
    assert Kept(s, 1) == [];
    assert Kept(s, 2) == [];
  }
}

/** The older tweet ingestion of src/go/internal/ingest/parse.go. Unlike
    the newer version it keeps every distinct tweet, with or without
    coordinates, remembers every id, builds profiles from every kept
    tweet and has no time-zone lookup that can fail. */
module LegacyIngest {
  import opened Common
  import Ingest

  /** A timeline entry. A tweet without exactly two coordinates sits at
      0, 0. */
  datatype Tweet = Tweet(id: int, userId: int, createdAt: int, language: string, lat: real, lng: real)

  datatype User = User(id: int, profiles: seq<Ingest.Profile>, timeline: seq<Tweet>)

  function ToTweet(t: Ingest.JsonTweet): (r: Tweet)
    ensures r.id == t.id && r.userId == t.user.id && r.createdAt == t.createdAt && r.language == t.language
    ensures Ingest.Geotagged(t) ==> r.lat == t.coords[1] && r.lng == t.coords[0]
    ensures !Ingest.Geotagged(t) ==> r.lat == 0.0 && r.lng == 0.0
  {
    if |t.coords| == 2 then Tweet(t.id, t.user.id, t.createdAt, t.language, t.coords[1], t.coords[0])
    else Tweet(t.id, t.user.id, t.createdAt, t.language, 0.0, 0.0)
  }

  /** Tweet k repeats the id of an earlier tweet. */
  predicate Duplicate(s: seq<Ingest.JsonTweet>, k: nat)
    requires k < |s|
  {
    exists j :: 0 <= j < k && s[j].id == s[k].id
  }

  function Duplicates(s: seq<Ingest.JsonTweet>, n: nat): nat
    requires n <= |s|
  {
    if n == 0 then 0 else Duplicates(s, n - 1) + (if Duplicate(s, n - 1) then 1 else 0)
  }

  /** The first tweet of every id among the first n. */
  function Uniques(s: seq<Ingest.JsonTweet>, n: nat): (u: seq<Ingest.JsonTweet>)
    requires n <= |s|
    ensures |u| == n - Duplicates(s, n)
    ensures forall m :: 0 <= m < |u| ==> exists j :: 0 <= j < n && s[j] == u[m] && !Duplicate(s, j)
  {
    if n == 0 then []
    else
      var init := Uniques(s, n - 1);
      if !Duplicate(s, n - 1) then
        var u := init + [s[n - 1]];
        assert forall m :: 0 <= m < |init| ==> u[m] == init[m];
        u
      else init
  }

  function Ids(s: seq<Ingest.JsonTweet>, n: nat): set<int>
    requires n <= |s|
  {
    set j | 0 <= j < n :: s[j].id
  }

  /** The loop state of the older `jsonAsUser`. */
  datatype State = State(uid: int, seen: set<int>, uniques: nat, duplicates: nat, timeline: seq<Tweet>, profiles: seq<Ingest.Profile>)

  /** One round of the loop. */
  function Step(st: State, tw: Ingest.JsonTweet): Result<State>
  {
    if st.uid != 0 && tw.user.id != st.uid then Err("found tweets with different user id")
    else
      var st := st.(uid := tw.user.id);
      if tw.id in st.seen then Ok(st.(duplicates := st.duplicates + 1))
      else
        Ok(st.(uniques := st.uniques + 1, seen := st.seen + {tw.id},
               timeline := st.timeline + [ToTweet(tw)], profiles := Ingest.NextProfiles(st.profiles, tw)))
  }

  /** What holds after the first n tweets. */
  predicate Invariant(s: seq<Ingest.JsonTweet>, n: nat, st: State)
    requires n <= |s|
  {
    Mirrors(st, if n == 0 then 0 else s[n - 1].user.id, Ids(s, n), Duplicates(s, n), Uniques(s, n))
  }

  /** The state holds the user id, the remembered ids, the duplicate count,
      and the timeline and profiles of the kept tweets u. */
  predicate Mirrors(st: State, uid: int, ids: set<int>, duplicates: nat, u: seq<Ingest.JsonTweet>)
  {
    st.uid == uid && st.seen == ids && st.duplicates == duplicates && st.uniques == |u|
    && |st.timeline| == |u| && (forall m :: 0 <= m < |u| ==> st.timeline[m] == ToTweet(u[m]))
    && Ingest.Profiled(st.profiles, u)
  }

  lemma {:induction false} DuplicateIffSeen(s: seq<Ingest.JsonTweet>, k: nat)
    requires k < |s|
    ensures Duplicate(s, k) <==> s[k].id in Ids(s, k)
  {
    if s[k].id in Ids(s, k) {
      var j :| 0 <= j < k && s[j].id == s[k].id;
    }
  }

  lemma {:induction false} StepKeeps(s: seq<Ingest.JsonTweet>, n: nat, st: State)
    requires 0 < n <= |s| && Invariant(s, n - 1, st)
    ensures Step(st, s[n - 1]).Ok? ==> Invariant(s, n, Step(st, s[n - 1]).value)
    ensures Step(st, s[n - 1]).Err? <==> Ingest.Conflict(s, n - 1)
  {
    if Step(st, s[n - 1]).Ok? {
      DuplicateIffSeen(s, n - 1);
      if Duplicate(s, n - 1) {
        StepRepeat(s, n, st);
      } else {
        StepNew(s, n, st);
      }
    }
  }

  /** A repeated id only counts a duplicate. */
  lemma {:induction false} StepRepeat(s: seq<Ingest.JsonTweet>, n: nat, st: State)
    requires 0 < n <= |s| && Invariant(s, n - 1, st) && Duplicate(s, n - 1) && s[n - 1].id in st.seen
    requires Step(st, s[n - 1]).Ok?
    ensures Invariant(s, n, Step(st, s[n - 1]).value)
  {
    assert Ids(s, n) == Ids(s, n - 1) + {s[n - 1].id};
  }

  /** A new id is remembered, and its tweet joins the timeline and the
      profiles. */
  lemma {:induction false} StepNew(s: seq<Ingest.JsonTweet>, n: nat, st: State)
    requires 0 < n <= |s| && Invariant(s, n - 1, st) && !Duplicate(s, n - 1) && s[n - 1].id !in st.seen
    requires Step(st, s[n - 1]).Ok?
    ensures Invariant(s, n, Step(st, s[n - 1]).value)
  {
    MirrorsNew(st, Uniques(s, n - 1), s[n - 1]);
    UniquesNew(s, n);
  }

  /** A tweet with a new id is kept, and counts no duplicate. */
  lemma {:induction false} UniquesNew(s: seq<Ingest.JsonTweet>, n: nat)
    requires 0 < n <= |s| && !Duplicate(s, n - 1)
    ensures Uniques(s, n) == Uniques(s, n - 1) + [s[n - 1]]
    ensures Duplicates(s, n) == Duplicates(s, n - 1)
    ensures Ids(s, n) == Ids(s, n - 1) + {s[n - 1].id}
  {
  }

  /** A tweet with a new id is remembered and joins the timeline and the
      profiles. */
  lemma {:induction false} MirrorsNew(st: State, u: seq<Ingest.JsonTweet>, tw: Ingest.JsonTweet)
    requires Mirrors(st, st.uid, st.seen, st.duplicates, u) && Step(st, tw).Ok? && tw.id !in st.seen
    ensures Mirrors(Step(st, tw).value, tw.user.id, st.seen + {tw.id}, st.duplicates, u + [tw])
  {
    var st2 := Step(st, tw).value;
    assert st2.timeline == st.timeline + [ToTweet(tw)];
    assert st2.profiles == Ingest.NextProfiles(st.profiles, tw);
    Ingest.ProfiledExtend(st.profiles, u, tw);
    forall m | 0 <= m < |u| + 1 ensures st2.timeline[m] == ToTweet((u + [tw])[m]) {
      if m < |u| {
        assert st2.timeline[m] == st.timeline[m];
      }
    }
  }

  /** The loop over the first n tweets. Counting every tweet as new or a
      duplicate accounts for all of them. */
  function Run(s: seq<Ingest.JsonTweet>, n: nat): (r: Result<State>)
    requires n <= |s|
    ensures r.Ok? ==> Invariant(s, n, r.value)
    ensures r.Ok? ==> r.value.uniques + r.value.duplicates == n
    ensures r.Err? <==> Ingest.AnyConflict(s, n)
  {
    if n == 0 then Ok(State(0, {}, 0, 0, [], []))
    else
      var prev := Run(s, n - 1);
      Ingest.AnyStep(s, n, (a, b, c) => Err(""));
      if prev.Err? then prev
      else
        StepKeeps(s, n, prev.value);
        Step(prev.value, s[n - 1])
  }

  /** No two of the tweets share an id. */
  predicate DistinctTweetIds(u: seq<Ingest.JsonTweet>)
  {
    forall a, b :: 0 <= a < b < |u| ==> u[a].id != u[b].id
  }

  /** The ids of the tweets of u. */
  function IdsOf(u: seq<Ingest.JsonTweet>): set<int>
  {
    set m | 0 <= m < |u| :: u[m].id
  }

  /** The first tweets of the ids carry distinct ids. */
  lemma {:induction false} UniquesDistinct(s: seq<Ingest.JsonTweet>, n: nat)
    requires n <= |s|
    ensures DistinctTweetIds(Uniques(s, n))
    decreases n
  {
    if n > 0 {
      UniquesDistinct(s, n - 1);
      var init := Uniques(s, n - 1);
      var t := s[n - 1];
      if !Duplicate(s, n - 1) {
        assert Uniques(s, n) == init + [t];
        forall a | 0 <= a < |init| ensures init[a].id != t.id {
          var j :| 0 <= j < n - 1 && s[j] == init[a] && !Duplicate(s, j);
        }
      }
    }
  }

  /** Every id among the first n tweets has its first tweet kept. */
  lemma {:induction false} UniquesCoverIds(s: seq<Ingest.JsonTweet>, n: nat)
    requires n <= |s|
    ensures IdsOf(Uniques(s, n)) == Ids(s, n)
    decreases n
  {
    if n > 0 {
      UniquesCoverIds(s, n - 1);
      var init := Uniques(s, n - 1);
      var t := s[n - 1];
      assert Ids(s, n) == Ids(s, n - 1) + {t.id};
      DuplicateIffSeen(s, n - 1);
      if !Duplicate(s, n - 1) {
        assert Uniques(s, n) == init + [t];
        IdsOfSnoc(init, t);
      }
    }
  }

  lemma {:induction false} IdsOfSnoc(u: seq<Ingest.JsonTweet>, t: Ingest.JsonTweet)
    ensures IdsOf(u + [t]) == IdsOf(u) + {t.id}
  {
    var v := u + [t];
    assert forall m :: 0 <= m < |u| ==> v[m] == u[m];
    assert v[|u|] == t;
  }

  /** The first tweets of the ids keep the order of a sorted input. */
  lemma {:induction false} UniquesSorted(s: seq<Ingest.JsonTweet>, n: nat)
    requires n <= |s| && Ingest.SortedByTime(s)
    ensures Ingest.SortedByTime(Uniques(s, n))
    decreases n
  {
    if n > 0 {
      UniquesSorted(s, n - 1);
      var init := Uniques(s, n - 1);
      var t := s[n - 1];
      if !Duplicate(s, n - 1) {
        assert Uniques(s, n) == init + [t];
        assert Ingest.NoLaterThan(init, t.createdAt) by {
          forall a | 0 <= a < |init| ensures init[a].createdAt <= t.createdAt {
            var j :| 0 <= j < n - 1 && s[j] == init[a] && !Duplicate(s, j);
            assert s[j].createdAt <= s[n - 1].createdAt;
          }
        }
        Ingest.SortedSnoc(init, t);
      }
    }
  }

  /** The older `jsonAsUser`: sort by creation time and keep the first
      tweet of every id. It fails exactly at a tweet of another user. */
  function JsonAsUser(tweets: seq<Ingest.JsonTweet>): (r: Result<User>)
    ensures r.Err? <==> Ingest.AnyConflict(Ingest.SortByTime(tweets), |tweets|)
  {
    var s := Ingest.SortByTime(tweets);
    var run := Run(s, |s|);
    if run.Err? then Err(run.msg)
    else Ok(User(run.value.uid, run.value.profiles, run.value.timeline))
  }

  /** A user built by `JsonAsUser` holds every input id exactly once. */
  lemma {:induction false} JsonAsUserIds(tweets: seq<Ingest.JsonTweet>, u: User)
    requires JsonAsUser(tweets) == Ok(u)
    ensures forall a, b :: 0 <= a < b < |u.timeline| ==> u.timeline[a].id != u.timeline[b].id
    ensures TimelineIds(u.timeline) == InputIds(tweets)
  {
    var st := RunState(tweets, u);
    TimelineDistinct(tweets, st);
    TimelineCovers(tweets, st);
  }

  /** A user built by `JsonAsUser` lists input tweets in time order, with
      profiles that change at every entry. */
  lemma {:induction false} JsonAsUserTimeline(tweets: seq<Ingest.JsonTweet>, u: User)
    requires JsonAsUser(tweets) == Ok(u)
    ensures forall m :: 0 <= m < |u.timeline| ==> exists t :: t in tweets && u.timeline[m] == ToTweet(t)
    ensures forall a, b :: 0 <= a < b < |u.timeline| ==> u.timeline[a].createdAt <= u.timeline[b].createdAt
    ensures Ingest.Changes(u.profiles)
  {
    var st := RunState(tweets, u);
    TimelineOrdered(tweets, st);
    TimelineFromInput(tweets, st);
  }

  /** The final loop state behind a built user. */
  lemma {:induction false} RunState(tweets: seq<Ingest.JsonTweet>, u: User) returns (st: State)
    requires JsonAsUser(tweets) == Ok(u)
    ensures Invariant(Ingest.SortByTime(tweets), |tweets|, st)
    ensures u.timeline == st.timeline && u.profiles == st.profiles
  {
    var s := Ingest.SortByTime(tweets);
    st := Run(s, |s|).value;
  }

  lemma {:induction false} TimelineDistinct(tweets: seq<Ingest.JsonTweet>, st: State)
    requires Invariant(Ingest.SortByTime(tweets), |tweets|, st)
    ensures forall a, b :: 0 <= a < b < |st.timeline| ==> st.timeline[a].id != st.timeline[b].id
  {
    var s := Ingest.SortByTime(tweets);
    var u := Uniques(s, |s|);
    UniquesDistinct(s, |s|);
    assert forall m :: 0 <= m < |u| ==> st.timeline[m].id == u[m].id;
  }

  lemma {:induction false} TimelineOrdered(tweets: seq<Ingest.JsonTweet>, st: State)
    requires Invariant(Ingest.SortByTime(tweets), |tweets|, st)
    ensures forall a, b :: 0 <= a < b < |st.timeline| ==> st.timeline[a].createdAt <= st.timeline[b].createdAt
  {
    var s := Ingest.SortByTime(tweets);
    var u := Uniques(s, |s|);
    UniquesSorted(s, |s|);
    assert forall m :: 0 <= m < |u| ==> st.timeline[m].createdAt == u[m].createdAt;
  }

  /** The ids on a timeline. */
  function TimelineIds(tl: seq<Tweet>): set<int>
  {
    set m | 0 <= m < |tl| :: tl[m].id
  }

  /** The ids of the input tweets. */
  function InputIds(tweets: seq<Ingest.JsonTweet>): set<int>
  {
    set t | t in tweets :: t.id
  }

  /** The timeline carries exactly the ids of the input. */
  lemma {:induction false} TimelineCovers(tweets: seq<Ingest.JsonTweet>, st: State)
    requires Invariant(Ingest.SortByTime(tweets), |tweets|, st)
    ensures TimelineIds(st.timeline) == InputIds(tweets)
  {
    var s := Ingest.SortByTime(tweets);
    UniquesCoverIds(s, |s|);
    TimelineIdsMirror(st.timeline, Uniques(s, |s|));
    SortedIds(tweets);
  }

  /** A timeline of the tweets u, one entry each, carries their ids. */
  lemma {:induction false} TimelineIdsMirror(tl: seq<Tweet>, u: seq<Ingest.JsonTweet>)
    requires |tl| == |u| && forall m :: 0 <= m < |u| ==> tl[m] == ToTweet(u[m])
    ensures TimelineIds(tl) == IdsOf(u)
  {
    forall x ensures x in TimelineIds(tl) <==> x in IdsOf(u) {
      if x in TimelineIds(tl) {
        var m :| 0 <= m < |tl| && tl[m].id == x;
        assert u[m].id == x;
      }
      if x in IdsOf(u) {
        var m :| 0 <= m < |u| && u[m].id == x;
        assert tl[m].id == x;
      }
    }
  }

  /** Sorting keeps the ids. */
  lemma {:induction false} SortedIds(tweets: seq<Ingest.JsonTweet>)
    ensures Ids(Ingest.SortByTime(tweets), |tweets|) == InputIds(tweets)
  {
    var s := Ingest.SortByTime(tweets);
    forall x ensures x in Ids(s, |s|) <==> x in InputIds(tweets) {
      if x in Ids(s, |s|) {
        var j :| 0 <= j < |s| && s[j].id == x;
        assert s[j] in multiset(s);
        assert s[j] in tweets;
      }
      if x in InputIds(tweets) {
        var t :| t in tweets && t.id == x;
        assert t in multiset(s);
        var j :| 0 <= j < |s| && s[j] == t;
      }
    }
  }

  lemma {:induction false} TimelineFromInput(tweets: seq<Ingest.JsonTweet>, st: State)
    requires Invariant(Ingest.SortByTime(tweets), |tweets|, st)
    ensures forall m :: 0 <= m < |st.timeline| ==> exists t :: t in tweets && st.timeline[m] == ToTweet(t)
  {
    var s := Ingest.SortByTime(tweets);
    var u := Uniques(s, |s|);
    Ingest.SortedFromInput(tweets);
    forall m | 0 <= m < |st.timeline| ensures exists t :: t in tweets && st.timeline[m] == ToTweet(t) {
      var j :| 0 <= j < |s| && s[j] == u[m] && !Duplicate(s, j);
      assert s[j] in tweets;
    }
  }

  /** The older `parseJSON` once the lines are decoded. */
  function ParseJSON(tweets: seq<Ingest.JsonTweet>): (r: Result<User>)
    ensures |tweets| == 0 ==> r == Err("no tweets found for user")
    ensures r.Err? <==> |tweets| == 0 || Ingest.AnyConflict(Ingest.SortByTime(tweets), |tweets|)
    ensures r.Ok? ==> |r.value.timeline| >= 1
  {
    if |tweets| == 0 then Err("no tweets found for user")
    else
      var r := JsonAsUser(tweets);
      if r.Ok? then
        JsonAsUserIds(tweets, r.value);
        NonEmptyTimeline(r.value.timeline, tweets);
        r
      else r
  }

  /** A timeline with the ids of a non-empty input is not empty. */
  lemma {:induction false} NonEmptyTimeline(tl: seq<Tweet>, tweets: seq<Ingest.JsonTweet>)
    requires |tweets| > 0 && TimelineIds(tl) == InputIds(tweets)
    ensures |tl| >= 1
  {
    assert tweets[0] in tweets;
    assert tweets[0].id in TimelineIds(tl);
  }

  /** A tweet seen twice is kept once, coordinates or not. */
  lemma {:induction false} RepeatKeptOnce(t: Ingest.JsonTweet)
    ensures JsonAsUser([t, t]).Ok?
    ensures JsonAsUser([t, t]).value.timeline == [ToTweet(t)]
  {
    SortTwice(t);
    var s := [t, t];
    var st0 := State(0, {}, 0, 0, [], []);
    var st1 := State(t.user.id, {t.id}, 1, 0, [ToTweet(t)], Ingest.NextProfiles([], t));
    var st2 := st1.(duplicates := 1);
    assert [] + [ToTweet(t)] == [ToTweet(t)];
    assert {} + {t.id} == {t.id};
    assert Step(st0, t) == Ok(st1);
    assert Step(st1, t) == Ok(st2);
    assert Run(s, 1) == Ok(st1);
    assert Run(s, 2) == Ok(st2);
  }

  /** Two equal tweets sort to themselves. */
  lemma {:induction false} SortTwice(t: Ingest.JsonTweet)
    ensures Ingest.SortByTime([t, t]) == [t, t]
  {
    assert [t, t][..1] == [t];
    assert [t][..0] == [];
    assert Ingest.SortByTime([t]) == [t];
  }
}

/** Consecutive-tweet pairs and trips: `gaps`, `visit_gaps`,
    `trips_from_geotweets` and `trips_from_geotweets_morning_infer` of
    lib/helpers.py and src/py/mscthesis.py, and `from_dfs` of
    src/py/trips.py.

    Rows are processed in the order the caller passes them. Timestamps are
    wall-clock seconds and a row's `hour` is the hour of its `createdAt`. */
module Trips {
  import opened Common
  import opened Activity

  const TwelveHours: int := 12 * 3600
  const FortyEightHours: int := 48 * 3600

  // Gaps

  /** A pair of rows and the time between them. */
  datatype Gap = Gap(origin: Tweet, destination: Tweet, duration: int)

  function GapOf(o: Tweet, d: Tweet): Gap
  {
    Gap(o, d, d.createdAt - o.createdAt)
  }

  /** `gaps`: every row paired with the row after it. */
  function Gaps(rows: seq<Tweet>): (g: seq<Gap>)
    ensures |g| == if |rows| == 0 then 0 else |rows| - 1
    ensures forall k :: 0 <= k < |g| ==> g[k] == GapOf(rows[k], rows[k + 1])
    decreases |rows|
  {
    if |rows| < 2 then [] else [GapOf(rows[0], rows[1])] + Gaps(rows[1..])
  }

  function Durations(g: seq<Gap>): (d: seq<int>)
    ensures |d| == |g|
    ensures forall k :: 0 <= k < |g| ==> d[k] == g[k].duration
  {
    seq(|g|, k requires 0 <= k < |g| => g[k].duration)
  }

  /** The gap durations add up to the time from the first row to the
      last. */
  lemma {:induction false} GapsSpanRows(rows: seq<Tweet>)
    requires |rows| > 0
    ensures SumInts(Durations(Gaps(rows))) == rows[|rows| - 1].createdAt - rows[0].createdAt
    decreases |rows|
  {
    if |rows| >= 2 {
      var rest := rows[1..];
      GapsSpanRows(rest);
      var g := Gaps(rows);
      assert g == [GapOf(rows[0], rows[1])] + Gaps(rest);
      assert Durations(g) == [g[0].duration] + Durations(Gaps(rest));
      SumIntsConcat([g[0].duration], Durations(Gaps(rest)));
    }
  }

  /** The rows of user u, in row order. */
  function OfUser(rows: seq<Tweet>, u: int): (s: seq<Tweet>)
    ensures forall t :: t in s <==> t in rows && t.user == u
    decreases |rows|
  {
    if |rows| == 0 then []
    else
      var front := OfUser(rows[..|rows| - 1], u);
      assert forall t :: t in rows <==> t in rows[..|rows| - 1] || t == rows[|rows| - 1];
      if rows[|rows| - 1].user == u then front + [rows[|rows| - 1]] else front
  }

  /** The users of the rows, ascending: the groups of a `groupby`. */
  function UserIds(rows: seq<Tweet>): (us: seq<int>)
    ensures StrictlyIncreasing(us)
    ensures forall u :: u in us <==> exists i :: 0 <= i < |rows| && rows[i].user == u
  {
    var users := seq(|rows|, i requires 0 <= i < |rows| => rows[i].user);
    assert forall i :: 0 <= i < |rows| ==> users[i] == rows[i].user;
    SortedDistinct(users)
  }

  function GapsOver(us: seq<int>, rows: seq<Tweet>): seq<Gap>
    decreases |us|
  {
    if |us| == 0 then [] else Gaps(OfUser(rows, us[0])) + GapsOver(us[1..], rows)
  }

  /** `visit_gaps`: the gaps of each user's rows, user by user. */
  function VisitGaps(rows: seq<Tweet>): seq<Gap>
  {
    GapsOver(UserIds(rows), rows)
  }

  lemma {:induction false} GapsOverMembers(us: seq<int>, rows: seq<Tweet>, g: Gap)
    ensures g in GapsOver(us, rows) <==> exists i :: 0 <= i < |us| && g in Gaps(OfUser(rows, us[i]))
    decreases |us|
  {
    if |us| > 0 {
      GapsOverMembers(us[1..], rows, g);
      if g in GapsOver(us[1..], rows) {
        var i :| 0 <= i < |us[1..]| && g in Gaps(OfUser(rows, us[1..][i]));
        assert us[i + 1] == us[1..][i];
      }
      forall i | 1 <= i < |us| && g in Gaps(OfUser(rows, us[i]))
        ensures g in GapsOver(us[1..], rows)
      {
        assert us[1..][i - 1] == us[i];
      }
    }
  }

  /** No visit gap joins two users: each joins a user's consecutive
      rows. */
  lemma {:induction false} VisitGapsWithinUser(rows: seq<Tweet>, g: Gap)
    requires g in VisitGaps(rows)
    ensures g.origin.user == g.destination.user
    ensures exists k :: 0 <= k < |OfUser(rows, g.origin.user)| - 1
              && g == GapOf(OfUser(rows, g.origin.user)[k], OfUser(rows, g.origin.user)[k + 1])
  {
    var us := UserIds(rows);
    GapsOverMembers(us, rows, g);
    var i :| 0 <= i < |us| && g in Gaps(OfUser(rows, us[i]));
    var s := OfUser(rows, us[i]);
    var k :| 0 <= k < |Gaps(s)| && Gaps(s)[k] == g;
    assert s[k] in s && s[k + 1] in s;
  }

  /** Total row count over the users in us. */
  function RowsOver(us: seq<int>, rows: seq<Tweet>): nat
    decreases |us|
  {
    if |us| == 0 then 0 else |OfUser(rows, us[0])| + RowsOver(us[1..], rows)
  }

  lemma {:induction false} RowsOverSnoc(us: seq<int>, rows: seq<Tweet>, x: Tweet)
    ensures RowsOver(us, rows + [x]) == RowsOver(us, rows) + Count(us, x.user)
    decreases |us|
  {
    assert (rows + [x])[..|rows|] == rows;
    if |us| > 0 {
      RowsOverSnoc(us[1..], rows, x);
      assert us == [us[0]] + us[1..];
      CountConcat([us[0]], us[1..], x.user);
      assert Count([us[0]], x.user) == if us[0] == x.user then 1 else 0 by {
        assert [us[0]][..0] == [];
      }
    }
  }

  /** The users' row counts add up to all rows. */
  lemma {:induction false} RowsOverCoversRows(us: seq<int>, rows: seq<Tweet>)
    requires StrictlyIncreasing(us)
    requires forall i :: 0 <= i < |rows| ==> rows[i].user in us
    ensures RowsOver(us, rows) == |rows|
    decreases |rows|
  {
    if |rows| == 0 {
      RowsOverEmpty(us);
    } else {
      var init := rows[..|rows| - 1];
      var x := rows[|rows| - 1];
      RowsOverCoversRows(us, init);
      assert init + [x] == rows;
      RowsOverSnoc(us, init, x);
      assert Distinct(us);
      CountDistinctMember(us, x.user);
    }
  }

  lemma {:induction false} RowsOverEmpty(us: seq<int>)
    ensures RowsOver(us, []) == 0
    decreases |us|
  {
    if |us| > 0 {
      RowsOverEmpty(us[1..]);
    }
  }

  lemma {:induction false} GapsOverLength(us: seq<int>, rows: seq<Tweet>)
    requires forall i :: 0 <= i < |us| ==> OfUser(rows, us[i]) != []
    ensures |GapsOver(us, rows)| == RowsOver(us, rows) - |us|
    decreases |us|
  {
    if |us| > 0 {
      assert forall i :: 1 <= i < |us| ==> us[1..][i - 1] == us[i];
      GapsOverLength(us[1..], rows);
    }
  }

  /** Each user with k rows contributes k - 1 gaps, so there are as many
      gaps as rows less the number of users. */
  lemma {:induction false} VisitGapsCount(rows: seq<Tweet>)
    ensures |VisitGaps(rows)| == |rows| - |UserIds(rows)|
  {
    var us := UserIds(rows);
    forall i | 0 <= i < |us| ensures OfUser(rows, us[i]) != [] {
      assert us[i] in us;
      var k :| 0 <= k < |rows| && rows[k].user == us[i];
      assert rows[k] in rows;
      assert rows[k] in OfUser(rows, us[i]);
    }
    forall i | 0 <= i < |rows| ensures rows[i].user in us {
    }
    GapsOverLength(us, rows);
    RowsOverCoversRows(us, rows);
  }

  // Trips between a user's consecutive tweets

  /** Position of the last of the first n rows that belongs to user u. */
  function LastBefore(rows: seq<Tweet>, n: nat, u: int): (j: Option<nat>)
    requires n <= |rows|
    ensures j.None? <==> forall k :: 0 <= k < n ==> rows[k].user != u
    ensures j.Some? ==> j.value < n && rows[j.value].user == u
                        && forall k :: j.value < k < n ==> rows[k].user != u
    decreases n
  {
    if n == 0 then None
    else if rows[n - 1].user == u then Some(n - 1)
    else LastBefore(rows, n - 1, u)
  }

  /** The row before row i of the same user, if there is one. */
  function PreviousRow(rows: seq<Tweet>, i: nat): Option<nat>
    requires i < |rows|
  {
    LastBefore(rows, i, rows[i].user)
  }

  /** Rows j < i of one user with no row of that user between them. */
  predicate Consecutive(rows: seq<Tweet>, j: int, i: int)
  {
    0 <= j < i < |rows| && rows[j].user == rows[i].user
    && forall k :: j < k < i ==> rows[k].user != rows[i].user
  }

  lemma {:induction false} PreviousRowIsConsecutive(rows: seq<Tweet>, j: int, i: nat)
    requires i < |rows|
    ensures PreviousRow(rows, i) == Some(j) <==> Consecutive(rows, j, i)
  {
    var p := PreviousRow(rows, i);
    if Consecutive(rows, j, i) {
      assert p.Some?;
    }
  }

  /** The users among the first n rows. */
  function UsersIn(rows: seq<Tweet>, n: nat): set<int>
    requires n <= |rows|
  {
    set k | 0 <= k < n :: rows[k].user
  }

  lemma {:induction false} UsersInStep(rows: seq<Tweet>, n: nat)
    requires n < |rows|
    ensures UsersIn(rows, n + 1) == UsersIn(rows, n) + {rows[n].user}
    ensures rows[n].user in UsersIn(rows, n) <==> PreviousRow(rows, n).Some?
  {
    var u := rows[n].user;
    if PreviousRow(rows, n).Some? {
      assert rows[PreviousRow(rows, n).value].user == u;
    }
  }

  /** A strictly increasing sequence has as many elements as its set. */
  lemma {:induction false} IncreasingSetSize(us: seq<int>)
    requires StrictlyIncreasing(us)
    ensures |set x | x in us| == |us|
    decreases |us|
  {
    if |us| > 0 {
      var init := us[..|us| - 1];
      var last := us[|us| - 1];
      IncreasingSetSize(init);
      assert (set x | x in us) == (set x | x in init) + {last};
      forall i | 0 <= i < |init| ensures init[i] != last {
        assert us[i] < us[|us| - 1];
      }
    }
  }

  /** The groupby users are exactly the users of the rows. */
  lemma {:induction false} UserIdsSize(rows: seq<Tweet>)
    ensures |UserIds(rows)| == |UsersIn(rows, |rows|)|
  {
    var us := UserIds(rows);
    IncreasingSetSize(us);
    forall u | u in UsersIn(rows, |rows|) ensures u in us {
      var k :| 0 <= k < |rows| && rows[k].user == u;
    }
    assert (set x | x in us) == UsersIn(rows, |rows|);
  }

  /** The loop's map from each user seen in the first i rows to that
      user's latest row. */
  ghost predicate Tracks(prev: map<int, Tweet>, rows: seq<Tweet>, i: nat)
    requires i <= |rows|
  {
    && (forall u :: u in prev <==> LastBefore(rows, i, u).Some?)
    && (forall u :: u in prev ==> LastBefore(rows, i, u).Some? && prev[u] == rows[LastBefore(rows, i, u).value])
  }

  lemma {:induction false} TracksStep(prev: map<int, Tweet>, rows: seq<Tweet>, i: nat)
    requires i < |rows| && Tracks(prev, rows, i)
    ensures Tracks(prev[rows[i].user := rows[i]], rows, i + 1)
    ensures rows[i].user in prev <==> PreviousRow(rows, i).Some?
    ensures rows[i].user in prev ==> prev[rows[i].user] == rows[PreviousRow(rows, i).value]
  {
  }

  /** Whether a gap passes the threshold: always when there is none. */
  predicate Below(diff: int, threshold: Option<int>)
  {
    threshold.None? || diff < threshold.value
  }

  /** A trip from origin row to destination row. */
  datatype Trip = Trip(user: int, origin: Tweet, destination: Tweet, traveltime: int)

  function TripOf(o: Tweet, d: Tweet): Trip
  {
    Trip(d.user, o, d, d.createdAt - o.createdAt)
  }

  /** The trips of the first n rows: a row makes a trip from its user's
      previous row when their gap passes the threshold. */
  function TripsUpTo(rows: seq<Tweet>, threshold: Option<int>, n: nat): seq<Trip>
    requires n <= |rows|
    decreases n
  {
    if n == 0 then []
    else
      var p := PreviousRow(rows, n - 1);
      var made := p.Some? && Below(rows[n - 1].createdAt - rows[p.value].createdAt, threshold);
      TripsUpTo(rows, threshold, n - 1) + (if made then [TripOf(rows[p.value], rows[n - 1])] else [])
  }

  /** `trips_from_geotweets`: one pass keeping each user's latest row.
      lib/helpers.py takes an optional threshold in hours (here seconds);
      src/py/mscthesis.py always uses twelve hours. */
  method TripsFromGeotweets(rows: seq<Tweet>, threshold: Option<int>) returns (trips: seq<Trip>)
    ensures trips == TripsUpTo(rows, threshold, |rows|)
  {
    var prev: map<int, Tweet> := map[];
    trips := [];
    var i := 0;
    while i < |rows|
      invariant 0 <= i <= |rows|
      invariant Tracks(prev, rows, i)
      invariant trips == TripsUpTo(rows, threshold, i)
    {
      var row := rows[i];
      if row.user in prev {
        var diff := row.createdAt - prev[row.user].createdAt;
        if threshold.None? || diff < threshold.value {
          trips := trips + [TripOf(prev[row.user], row)];
        }
      }
      TracksStep(prev, rows, i);
      prev := prev[row.user := row];
      i := i + 1;
    }
  }

  /** Trips join exactly the consecutive rows of one user whose gap passes
      the threshold. */
  lemma {:induction false} TripsJoinConsecutive(rows: seq<Tweet>, threshold: Option<int>, n: nat, t: Trip)
    requires n <= |rows|
    ensures t in TripsUpTo(rows, threshold, n) <==> exists j, i :: i < n && Joins(rows, threshold, j, i, t)
  {
    if t in TripsUpTo(rows, threshold, n) {
      TripJoins(rows, threshold, n, t);
    }
    if exists j, i :: i < n && Joins(rows, threshold, j, i, t) {
      var j, i :| i < n && Joins(rows, threshold, j, i, t);
      JoinIsTrip(rows, threshold, n, j, i, t);
    }
  }

  /** Every trip made joins two consecutive rows of a user. */
  lemma {:induction false} TripJoins(rows: seq<Tweet>, threshold: Option<int>, n: nat, t: Trip)
    requires n <= |rows| && t in TripsUpTo(rows, threshold, n)
    ensures exists j, i :: i < n && Joins(rows, threshold, j, i, t)
    decreases n
  {
    var i := n - 1;
    var p := PreviousRow(rows, i);
    var made := p.Some? && Below(rows[i].createdAt - rows[p.value].createdAt, threshold);
    var last := if made then [TripOf(rows[p.value], rows[i])] else [];
    var before := TripsUpTo(rows, threshold, i);
    assert TripsUpTo(rows, threshold, n) == before + last;
    if t in before {
      TripJoins(rows, threshold, i, t);
      var j, k :| k < i && Joins(rows, threshold, j, k, t);
      assert k < n;
    } else {
      assert t in last;
      PreviousRowIsConsecutive(rows, p.value, i);
      assert Joins(rows, threshold, p.value, i, t);
    }
  }

  /** Every pair of consecutive rows within the threshold makes a trip. */
  lemma {:induction false} JoinIsTrip(rows: seq<Tweet>, threshold: Option<int>, n: nat, j: int, k: int, t: Trip)
    requires n <= |rows| && k < n && Joins(rows, threshold, j, k, t)
    ensures t in TripsUpTo(rows, threshold, n)
    decreases n
  {
    var i := n - 1;
    var p := PreviousRow(rows, i);
    var made := p.Some? && Below(rows[i].createdAt - rows[p.value].createdAt, threshold);
    var last := if made then [TripOf(rows[p.value], rows[i])] else [];
    var before := TripsUpTo(rows, threshold, i);
    assert TripsUpTo(rows, threshold, n) == before + last;
    if k < i {
      JoinIsTrip(rows, threshold, i, j, k, t);
    } else {
      PreviousRowIsConsecutive(rows, j, i);
      assert t in last;
    }
  }

  /** Trip t joins row j to the next row i of the same user, within the
      threshold. */
  predicate Joins(rows: seq<Tweet>, threshold: Option<int>, j: int, i: int, t: Trip)
  {
    Consecutive(rows, j, i) && Below(rows[i].createdAt - rows[j].createdAt, threshold) && t == TripOf(rows[j], rows[i])
  }

  /** Every row but each user's first can make a trip, so there are at
      most as many trips as rows less users, and exactly that many
      without a threshold. */
  lemma {:induction false} TripsCount(rows: seq<Tweet>, threshold: Option<int>, n: nat)
    requires n <= |rows|
    ensures |TripsUpTo(rows, threshold, n)| + |UsersIn(rows, n)| <= n
    ensures threshold.None? ==> |TripsUpTo(rows, threshold, n)| + |UsersIn(rows, n)| == n
    decreases n
  {
    if n > 0 {
      var i := n - 1;
      TripsCount(rows, threshold, i);
      UsersInStep(rows, i);
      var p := PreviousRow(rows, i);
      var made := p.Some? && Below(rows[i].createdAt - rows[p.value].createdAt, threshold);
      assert |TripsUpTo(rows, threshold, n)| == |TripsUpTo(rows, threshold, i)| + (if made then 1 else 0);
      if rows[i].user in UsersIn(rows, i) {
        assert UsersIn(rows, n) == UsersIn(rows, i);
      } else {
        assert |UsersIn(rows, n)| == |UsersIn(rows, i)| + 1;
      }
    }
  }

  /** With no threshold, trips number rows less users. */
  lemma {:induction false} UnlimitedTripsCount(rows: seq<Tweet>)
    ensures |TripsUpTo(rows, None, |rows|)| == |rows| - |UserIds(rows)|
  {
    TripsCount(rows, None, |rows|);
    UserIdsSize(rows);
  }

  // The morning-infer classifier

  /** How `trips_from_geotweets_morning_infer` classifies a pair. */
  datatype Kind = Hop | Inferred | Missed

  /** A row of its output; `None` where the output holds None. */
  datatype MorningTrip = MorningTrip(
    user: int,
    originId: Option<int>,
    destinationId: Option<int>,
    originTime: int,
    destinationTime: Option<int>,
    originLat: real,
    originLng: real,
    destinationLat: Option<real>,
    destinationLng: Option<real>,
    traveltime: int,
    kind: Kind)

  /** Six o'clock on the day of x, keeping its minutes and seconds. */
  function Morning(x: Tweet): int
  {
    x.createdAt - (x.hour - 6) * 3600
  }

  /** A row is later than its own six o'clock exactly when its hour is
      past six. */
  lemma {:induction false} AfterMorningIffPastSix(x: Tweet)
    ensures x.createdAt > Morning(x) <==> x.hour > 6
  {
  }

  predicate IsHop(p: Tweet, x: Tweet)
  {
    x.createdAt - p.createdAt < TwelveHours
  }

  predicate IsInferred(p: Tweet, x: Tweet)
  {
    !IsHop(p, x) && x.createdAt - p.createdAt < FortyEightHours && x.createdAt > Morning(x)
  }

  /** The output row for the pair (p, x): a '12h' trip from p; an
      'infered' trip from p's place at six in the morning; a 'missed' trip
      leaving p with no destination. */
  function MorningRecord(p: Tweet, x: Tweet, kind: Kind): (m: MorningTrip)
    ensures m.kind == kind && m.traveltime == x.createdAt - p.createdAt
    ensures m.originLat == p.lat && m.originLng == p.lng
  {
    var diff := x.createdAt - p.createdAt;
    match kind
    case Hop =>
      MorningTrip(x.user, Some(p.tweetId), Some(x.tweetId), p.createdAt, Some(x.createdAt),
                  p.lat, p.lng, Some(x.lat), Some(x.lng), diff, Hop)
    case Inferred =>
      MorningTrip(p.user, None, Some(x.tweetId), Morning(x), Some(x.createdAt),
                  p.lat, p.lng, Some(x.lat), Some(x.lng), diff, Inferred)
    case Missed =>
      MorningTrip(p.user, Some(p.tweetId), None, p.createdAt, None,
                  p.lat, p.lng, None, None, diff, Missed)
  }

  /** Whether row i ends a '12h' or 'infered' trip from its user's
      previous row. */
  predicate ClosesTrip(rows: seq<Tweet>, i: nat)
    requires i < |rows|
  {
    var p := PreviousRow(rows, i);
    p.Some? && (IsHop(rows[p.value], rows[i]) || IsInferred(rows[p.value], rows[i]))
  }

  /** What row i emits: a '12h' or 'infered' trip when it closes one,
      else a 'missed' trip when its user's previous row closed one. */
  function KindAt(rows: seq<Tweet>, i: nat): Option<Kind>
    requires i < |rows|
  {
    var p := PreviousRow(rows, i);
    if p.None? then None
    else if IsHop(rows[p.value], rows[i]) then Some(Hop)
    else if IsInferred(rows[p.value], rows[i]) then Some(Inferred)
    else if ClosesTrip(rows, p.value) then Some(Missed)
    else None
  }

  /** The output for the first n rows. */
  function MorningUpTo(rows: seq<Tweet>, n: nat): seq<MorningTrip>
    requires n <= |rows|
    decreases n
  {
    if n == 0 then []
    else
      var k := KindAt(rows, n - 1);
      MorningUpTo(rows, n - 1)
        + (if k.Some? then [MorningRecord(rows[PreviousRow(rows, n - 1).value], rows[n - 1], k.value)] else [])
  }

  /** Whether user u's latest row so far ended a trip: the flag the loop
      keeps per user, unset counting as false. */
  predicate MadeTrip(made: map<int, bool>, u: int)
  {
    u in made && made[u]
  }

  /** The loop's flags: set for exactly the users whose latest row among
      the first i ended a trip. */
  ghost predicate Flags(made: map<int, bool>, rows: seq<Tweet>, i: nat)
    requires i <= |rows|
  {
    forall u :: MadeTrip(made, u) <==> LastBefore(rows, i, u).Some? && ClosesTrip(rows, LastBefore(rows, i, u).value)
  }

  /** Row i sets its user's flag to whether it ended a trip. */
  lemma {:induction false} FlagsSet(made: map<int, bool>, rows: seq<Tweet>, i: nat, b: bool)
    requires i < |rows| && Flags(made, rows, i)
    requires b == ClosesTrip(rows, i)
    ensures Flags(made[rows[i].user := b], rows, i + 1)
  {
    var x := rows[i].user;
    var next := made[x := b];
    forall u ensures MadeTrip(next, u) <==> LastBefore(rows, i + 1, u).Some? && ClosesTrip(rows, LastBefore(rows, i + 1, u).value) {
      if u != x {
        assert LastBefore(rows, i + 1, u) == LastBefore(rows, i, u);
        assert MadeTrip(next, u) == MadeTrip(made, u);
      }
    }
  }

  /** A row that ends no trip leaves an unset flag as it is. */
  lemma {:induction false} FlagsKeep(made: map<int, bool>, rows: seq<Tweet>, i: nat)
    requires i < |rows| && Flags(made, rows, i)
    requires !ClosesTrip(rows, i) && !MadeTrip(made, rows[i].user)
    ensures Flags(made, rows, i + 1)
  {
    var x := rows[i].user;
    forall u ensures MadeTrip(made, u) <==> LastBefore(rows, i + 1, u).Some? && ClosesTrip(rows, LastBefore(rows, i + 1, u).value) {
      if u != x {
        assert LastBefore(rows, i + 1, u) == LastBefore(rows, i, u);
      }
    }
  }

  /** The flag of row i's user tells whether that user's previous row
      ended a trip. */
  lemma {:induction false} FlagOfPrevious(made: map<int, bool>, rows: seq<Tweet>, i: nat)
    requires i < |rows| && Flags(made, rows, i)
    ensures MadeTrip(made, rows[i].user) <==> PreviousRow(rows, i).Some? && ClosesTrip(rows, PreviousRow(rows, i).value)
  {
  }

  /** What the first i + 1 rows emit, given what row i emits. */
  lemma {:induction false} MorningEmits(rows: seq<Tweet>, i: nat, k: Option<Kind>)
    requires i < |rows| && KindAt(rows, i) == k
    ensures k.Some? ==> PreviousRow(rows, i).Some?
    ensures MorningUpTo(rows, i + 1) == MorningUpTo(rows, i)
              + (if k.Some? then [MorningRecord(rows[PreviousRow(rows, i).value], rows[i], k.value)] else [])
  {
  }

  /** One iteration of the loop of `trips_from_geotweets_morning_infer`:
      row i classified against its user's latest row and flag. */
  method MorningRow(rows: seq<Tweet>, i: nat, prev: map<int, Tweet>, made: map<int, bool>, trips: seq<MorningTrip>)
    returns (prev': map<int, Tweet>, made': map<int, bool>, trips': seq<MorningTrip>)
    requires i < |rows|
    requires Tracks(prev, rows, i) && Flags(made, rows, i) && trips == MorningUpTo(rows, i)
    ensures Tracks(prev', rows, i + 1) && Flags(made', rows, i + 1) && trips' == MorningUpTo(rows, i + 1)
  {
    var row := rows[i];
    TracksStep(prev, rows, i);
    FlagOfPrevious(made, rows, i);
    made', trips' := made, trips;
    if row.user in prev {
      var p := prev[row.user];
      var diff := row.createdAt - p.createdAt;
      if diff < TwelveHours {
        MorningEmits(rows, i, Some(Hop));
        trips' := trips + [MorningRecord(p, row, Hop)];
        FlagsSet(made, rows, i, true);
        made' := made[row.user := true];
      } else if diff < FortyEightHours && row.createdAt > Morning(row) {
        MorningEmits(rows, i, Some(Inferred));
        trips' := trips + [MorningRecord(p, row, Inferred)];
        FlagsSet(made, rows, i, true);
        made' := made[row.user := true];
      } else if row.user in made && made[row.user] {
        MorningEmits(rows, i, Some(Missed));
        trips' := trips + [MorningRecord(p, row, Missed)];
        FlagsSet(made, rows, i, false);
        made' := made[row.user := false];
      } else {
        MorningEmits(rows, i, None);
        FlagsKeep(made, rows, i);
      }
    } else {
      MorningEmits(rows, i, None);
      FlagsKeep(made, rows, i);
    }
    prev' := prev[row.user := row];
  }

  /** `trips_from_geotweets_morning_infer`: one pass keeping each user's
      latest row and whether that row ended a trip. */
  method MorningInfer(rows: seq<Tweet>) returns (trips: seq<MorningTrip>)
    ensures trips == MorningUpTo(rows, |rows|)
  {
    var prev: map<int, Tweet> := map[];
    var made: map<int, bool> := map[];
    trips := [];
    var i := 0;
    while i < |rows|
      invariant 0 <= i <= |rows|
      invariant Tracks(prev, rows, i) && Flags(made, rows, i) && trips == MorningUpTo(rows, i)
    {
      prev, made, trips := MorningRow(rows, i, prev, made, trips);
      i := i + 1;
    }
  }

  /** A 'missed' row follows a '12h' or 'infered' row of the same user,
      so 'missed' never repeats between two trips. */
  lemma {:induction false} MissedFollowsTrip(rows: seq<Tweet>, i: nat)
    requires i < |rows| && KindAt(rows, i) == Some(Missed)
    ensures PreviousRow(rows, i).Some?
    ensures KindAt(rows, PreviousRow(rows, i).value) in {Some(Hop), Some(Inferred)}
  {
  }

  /** Each kind keeps its own gap range: '12h' under twelve hours,
      'infered' under two days starting at six that morning, 'missed' at
      least twelve hours with no destination. */
  lemma {:induction false} MorningRecordsShape(rows: seq<Tweet>, n: nat, k: int)
    requires n <= |rows| && 0 <= k < |MorningUpTo(rows, n)|
    ensures var m := MorningUpTo(rows, n)[k];
            (m.kind == Hop ==> (m.traveltime < TwelveHours && m.originId.Some? && m.destinationTime.Some?))
            && (m.kind == Inferred ==> (TwelveHours <= m.traveltime < FortyEightHours
                  && m.originId.None? && m.destinationTime.Some? && m.originTime < m.destinationTime.value))
            && (m.kind == Missed ==> (TwelveHours <= m.traveltime && m.destinationId.None? && m.destinationTime.None?))
    decreases n
  {
    if k < |MorningUpTo(rows, n - 1)| {
      MorningRecordsShape(rows, n - 1, k);
    }
  }

  /** A user's first row emits nothing and every other row at most one
      output row. */
  lemma {:induction false} MorningCount(rows: seq<Tweet>, n: nat)
    requires n <= |rows|
    ensures |MorningUpTo(rows, n)| + |UsersIn(rows, n)| <= n
    decreases n
  {
    if n > 0 {
      MorningCount(rows, n - 1);
      UsersInStep(rows, n - 1);
    }
  }

  // src/py/trips.py

  /** A trip of `from_dfs`: the user is taken from the origin row. */
  function DfsTrip(p: Tweet, x: Tweet): Trip
  {
    Trip(p.user, p, x, x.createdAt - p.createdAt)
  }

  /** `from_dfs`: each row with the row right before it, whoever their
      users, when they are under twelve hours apart. */
  function FromDfs(rows: seq<Tweet>): (trips: seq<Trip>)
    ensures |trips| <= if |rows| == 0 then 0 else |rows| - 1
    decreases |rows|
  {
    if |rows| < 2 then []
    else
      var front := FromDfs(rows[..|rows| - 1]);
      var p := rows[|rows| - 2];
      var x := rows[|rows| - 1];
      if x.createdAt - p.createdAt < TwelveHours then front + [DfsTrip(p, x)] else front
  }

  /** `from_dfs` trips are exactly the adjacent row pairs under twelve
      hours apart. */
  lemma {:induction false} FromDfsMembers(rows: seq<Tweet>, t: Trip)
    ensures t in FromDfs(rows) <==>
              exists i :: 1 <= i < |rows| && rows[i].createdAt - rows[i - 1].createdAt < TwelveHours
                && t == DfsTrip(rows[i - 1], rows[i])
    decreases |rows|
  {
    if |rows| >= 2 {
      var init := rows[..|rows| - 1];
      FromDfsMembers(init, t);
      assert forall i :: 0 <= i < |init| ==> init[i] == rows[i];
    }
  }

  /** Two users' tweets an hour apart make one `from_dfs` trip, carrying
      the first user and ending at the second user's tweet. */
  lemma {:induction false} FromDfsCrossesUsers()
    ensures var a := Tweet(1, 100, 7, 2, 8, 0, 0.0, 0.0, Other);
            var b := Tweet(2, 200, 9, 2, 9, 3600, 1.0, 1.0, Other);
            FromDfs([a, b]) == [Trip(1, a, b, 3600)] && a.user != b.user
  {
  }
}

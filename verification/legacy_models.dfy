/** The older trajectory generator of src/py/models.py. It shares the
    constructor and the fitting of lib/models.py (`Models.NewModel`,
    `Models.Fit`), but never updates the exploration probability, marks
    explorations with the id -1, draws returns independently of the
    previous visit, and writes time slot 0 on every row. */
module LegacyModels {
  import opened Common
  import opened Models

  /** The fitted model and the jump sizes, in kilometres, of the
      consecutive pairs of the fitting rows. */
  datatype Legacy = Legacy(model: Model, jumpsKm: seq<real>)

  /** `JumpSizeTrueProb.fit`: the length of every consecutive pair, pairs
      within one region included. */
  function JumpSizes(rows: seq<GeoRow>, km: (GeoRow, GeoRow) -> real): (j: seq<real>)
    ensures |j| == (if |rows| == 0 then 0 else |rows| - 1)
    ensures forall i :: 0 <= i < |j| ==> j[i] == km(rows[i], rows[i + 1])
  {
    var g := Gaps(rows);
    seq(|g|, i requires 0 <= i < |g| => km(g[i].origin, g[i].destination))
  }

  /** `JumpSizeTrueProb.sample` for the drawn index, in metres; choosing
      from no jumps fails. */
  function SampleJump(jumpsKm: seq<real>, idx: nat): (r: Result<real>)
    ensures r.Err? <==> |jumpsKm| == 0
    ensures r.Ok? ==> exists i :: 0 <= i < |jumpsKm| && r.value == jumpsKm[i] * 1000.0
  {
    if |jumpsKm| == 0 then Err("a cannot be empty unless no samples are taken")
    else Ok(jumpsKm[idx % |jumpsKm|] * 1000.0)
  }

  /** `fit`: the shared fit plus the jump sizes. */
  function FitLegacy(c: Config, rows: seq<GeoRow>, pow: (real, real) -> real, km: (GeoRow, GeoRow) -> real): (r: Result<Legacy>)
    ensures r.Err? <==> Fit(c, rows, pow).Err?
    ensures r.Ok? ==> r.value.model == Fit(c, rows, pow).value && r.value.jumpsKm == JumpSizes(rows, km)
  {
    var m := Fit(c, rows, pow);
    if m.Err? then Err(m.msg) else Ok(Legacy(m.value, JumpSizes(rows, km)))
  }

  /** The random inputs of one step: the uniform draw, the direction in
      [0, pi), the index of the jump and the sampler's draw. */
  datatype LegacyDraw = LegacyDraw(r: real, direction: real, jumpIdx: nat, pick: real)

  /** `next`. Exploring shifts the previous point by a fitted jump and
      returns id -1; returning asks the sampler for a region without
      looking at the previous visit. Neither branch changes the model. */
  function LegacyNext(l: Legacy, prev: Visit, d: LegacyDraw, env: Env): (r: Result<Visit>)
    ensures d.r < l.model.explorationProb ==> (r.Err? <==> |l.jumpsKm| == 0)
    ensures r.Ok? && d.r < l.model.explorationProb ==>
              r.value.kind == Point && r.value.region == -1
              && (r.value.lat, r.value.lng) == env.shift(prev.lat, prev.lng, SampleJump(l.jumpsKm, d.jumpIdx).value, d.direction)
    ensures r.Ok? && d.r >= l.model.explorationProb ==>
              r.value.kind == Region && r.value.region == env.pick(None, d.pick)
              && FindRegion(l.model.regions, r.value.region).Some?
              && r.value.lat == FindRegion(l.model.regions, r.value.region).value.lat
              && r.value.lng == FindRegion(l.model.regions, r.value.region).value.lng
    ensures d.r >= l.model.explorationProb ==> (r.Ok? <==> FindRegion(l.model.regions, env.pick(None, d.pick)).Some?)
  {
    if d.r < l.model.explorationProb then
      var jump := SampleJump(l.jumpsKm, d.jumpIdx);
      if jump.Err? then Err(jump.msg)
      else
        var p := env.shift(prev.lat, prev.lng, jump.value, d.direction);
        Ok(Visit(Point, p.0, p.1, -1))
    else
      var id := env.pick(None, d.pick);
      var row := FindRegion(l.model.regions, id);
      if row.None? then Err("KeyError") else Ok(Visit(Region, row.value.lat, row.value.lng, id))
  }

  /** A return does not depend on where the user came from, and every
      exploration carries the same id. */
  lemma {:induction false} NextIgnoresPrev(l: Legacy, p1: Visit, p2: Visit, d: LegacyDraw, env: Env)
    ensures d.r >= l.model.explorationProb ==> LegacyNext(l, p1, d, env) == LegacyNext(l, p2, d, env)
    ensures (LegacyNext(l, p1, d, env).Ok? && LegacyNext(l, p2, d, env).Ok? && LegacyNext(l, p1, d, env).value.kind == Point)
            ==> LegacyNext(l, p2, d, env).value.region == -1
  {
  }

  /** With p = 0 the fitted model never explores. */
  lemma {:induction false} LegacyZeroPNeverExplores(c: Config, rows: seq<GeoRow>, pow: (real, real) -> real,
                                                    km: (GeoRow, GeoRow) -> real, prev: Visit, d: LegacyDraw, env: Env)
    requires c.p == 0.0 && FitLegacy(c, rows, pow, km).Ok? && d.r >= 0.0
    ensures LegacyNext(FitLegacy(c, rows, pow, km).value, prev, d, env).Ok? ==>
              LegacyNext(FitLegacy(c, rows, pow, km).value, prev, d, env).value.kind == Region
  {
    var l := FitLegacy(c, rows, pow, km).value;
    var x := pow(l.model.s as real, -c.gamma);
    assert l.model.explorationProb == 0.0 * x;
    assert d.r >= l.model.explorationProb;
  }

  /** The rows are user uid's, on the days of `slots`, all at time slot 0. */
  predicate FlatLaid(rows: seq<SampleRow>, uid: int, slots: seq<(nat, nat)>)
  {
    |rows| == |slots| && forall i :: 0 <= i < |rows| ==> rows[i].user == uid && rows[i].day == slots[i].0 && rows[i].timeslot == 0
  }

  lemma {:induction false} FlatLaidConcat(a: seq<SampleRow>, b: seq<SampleRow>, uid: int, sa: seq<(nat, nat)>, sb: seq<(nat, nat)>)
    requires FlatLaid(a, uid, sa) && FlatLaid(b, uid, sb)
    ensures FlatLaid(a + b, uid, sa + sb)
  {
    forall i | 0 <= i < |a + b|
      ensures (a + b)[i].user == uid && (a + b)[i].day == (sa + sb)[i].0 && (a + b)[i].timeslot == 0
    {
      if i < |a| {
        assert (a + b)[i] == a[i] && (sa + sb)[i] == sa[i];
      } else {
        assert (a + b)[i] == b[i - |a|] && (sa + sb)[i] == sb[i - |a|];
      }
    }
  }

  /** One day's steps, every one written at slot 0; each is `next` from
      the previous step's visit (the day's start for the first), the
      model staying as fitted. */
  function LegacyDay(l: Legacy, prev: Visit, ds: seq<LegacyDraw>, env: Env, uid: int, day: nat): (r: Result<seq<SampleRow>>)
    ensures r.Ok? ==> FlatLaid(r.value, uid, DaySlots(day, |ds|))
    ensures r.Ok? ==> forall i :: 0 <= i < |ds| ==> LegacyNext(l, StepStart(prev, r.value, i), ds[i], env) == Ok(r.value[i].visit)
    ensures |ds| > 0 && LegacyNext(l, prev, ds[0], env).Err? ==> r.Err?
    decreases |ds|
  {
    if |ds| == 0 then Ok([])
    else
      var v := LegacyNext(l, prev, ds[0], env);
      if v.Err? then Err(v.msg)
      else
        var rest := LegacyDay(l, v.value, ds[1..], env, uid, day);
        if rest.Err? then rest
        else
          assert FlatLaid([SampleRow(uid, day, 0, v.value)], uid, [(day, 1)]);
          assert FlatLaid(rest.value, uid, DaySlots(day, |ds| - 1));
          var rows := [SampleRow(uid, day, 0, v.value)] + rest.value;
          LegacyChainCons(l, prev, ds, env, rows);
          Ok(rows)
  }

  /** A first step from prev, followed by a chain from where it lands, is
      a chain from prev. */
  lemma {:induction false} LegacyChainCons(l: Legacy, prev: Visit, ds: seq<LegacyDraw>, env: Env, rows: seq<SampleRow>)
    requires |ds| > 0 && |rows| == |ds|
    requires LegacyNext(l, prev, ds[0], env) == Ok(rows[0].visit)
    requires forall i :: 0 <= i < |ds| - 1 ==>
               LegacyNext(l, StepStart(rows[0].visit, rows[1..], i), ds[1..][i], env) == Ok(rows[1..][i].visit)
    ensures forall i :: 0 <= i < |ds| ==> LegacyNext(l, StepStart(prev, rows, i), ds[i], env) == Ok(rows[i].visit)
  {
    forall i | 1 <= i < |ds|
      ensures LegacyNext(l, StepStart(prev, rows, i), ds[i], env) == Ok(rows[i].visit)
    {
      assert ds[1..][i - 1] == ds[i] && rows[1..][i - 1] == rows[i];
      assert StepStart(rows[0].visit, rows[1..], i - 1) == StepStart(prev, rows, i);
    }
  }

  /** The rows are the days from day d on as the legacy sampler chains
      them: each day is the home row followed by the day's steps from
      home, all under the one fitted model. */
  ghost predicate LegacyChained(l: Legacy, home: Visit, days: seq<seq<LegacyDraw>>, env: Env, uid: int, d: nat, rows: seq<SampleRow>)
    decreases |days|
  {
    if |days| == 0 then rows == []
    else
      var today := LegacyDay(l, home, days[0], env, uid, d);
      today.Ok? && 1 + |days[0]| <= |rows| && rows[0] == SampleRow(uid, d, 0, home)
      && rows[1..1 + |days[0]|] == today.value
      && LegacyChained(l, home, days[1..], env, uid, d + 1, rows[1 + |days[0]|..])
  }

  /** Whatever rows chain the days are exactly what the legacy sampler
      returns. */
  lemma {:induction false} LegacyChainedIsDays(l: Legacy, home: Visit, days: seq<seq<LegacyDraw>>, env: Env, uid: int, d: nat, rows: seq<SampleRow>)
    requires LegacyChained(l, home, days, env, uid, d, rows)
    ensures LegacyDays(l, home, days, env, uid, d) == Ok(rows)
    decreases |days|
  {
    if |days| > 0 {
      var today := LegacyDay(l, home, days[0], env, uid, d);
      var rest := rows[1 + |days[0]|..];
      LegacyChainedIsDays(l, home, days[1..], env, uid, d + 1, rest);
      HeadMiddleRest(rows, |days[0]|);
    }
  }

  /** The days from day d on: the home row, then the day's steps. The
      days follow the layout of `Models.Slots`, with every time slot 0. */
  function LegacyDays(l: Legacy, home: Visit, days: seq<seq<LegacyDraw>>, env: Env, uid: int, d: nat): (r: Result<seq<SampleRow>>)
    ensures r.Ok? ==> FlatLaid(r.value, uid, Slots(StepCounts(days), d))
    ensures r.Ok? ==> HomesAt(r.value, Slots(StepCounts(days), d), home)
    ensures r.Ok? && |days| > 0 ==> r.value[0] == SampleRow(uid, d, 0, home)
    ensures |days| > 0 && LegacyDay(l, home, days[0], env, uid, d).Err? ==> r.Err?
    ensures r.Ok? ==> LegacyChained(l, home, days, env, uid, d, r.value)
    decreases |days|
  {
    if |days| == 0 then Ok([])
    else
      var today := LegacyDay(l, home, days[0], env, uid, d);
      if today.Err? then Err(today.msg)
      else
        var rest := LegacyDays(l, home, days[1..], env, uid, d + 1);
        if rest.Err? then rest
        else
          var first := [SampleRow(uid, d, 0, home)];
          StepCountsTail(days);
          assert FlatLaid(first, uid, [(d, 0)]);
          FlatLaidConcat(first, today.value, uid, [(d, 0)], DaySlots(d, |days[0]|));
          FlatLaidConcat(first + today.value, rest.value, uid, [(d, 0)] + DaySlots(d, |days[0]|), Slots(StepCounts(days[1..]), d + 1));
          HomesAtSteps(today.value, d, home);
          HomesAtConcat(first, today.value, [(d, 0)], DaySlots(d, |days[0]|), home);
          HomesAtConcat(first + today.value, rest.value, [(d, 0)] + DaySlots(d, |days[0]|), Slots(StepCounts(days[1..]), d + 1), home);
          var out := first + today.value + rest.value;
          assert out[1..1 + |days[0]|] == today.value && out[1 + |days[0]|..] == rest.value;
          Ok(out)
  }

  /** The legacy `Sampler.__init__`: the model and the path of the tweets
      are required, the model checked first. */
  function NewLegacySampler(model: Option<Config>, daily: Option<DailyCount>, nDays: nat, geotweetsPath: Option<string>): (r: Result<SamplerConfig>)
    ensures r.Err? <==> model.None? || geotweetsPath.None?
    ensures model.None? ==> r == Err("model must be set")
    ensures r.Ok? ==> r == NewSampler(model, daily, nDays)
  {
    if model.None? then Err("model must be set")
    else if geotweetsPath.None? then Err("geotweets_path must be set")
    else NewSampler(model, daily, nDays)
  }

  /** `Sampler.sample` for one user: fit, find the home row, then the
      days. */
  function LegacySampleUser(c: Config, rows: seq<GeoRow>, pow: (real, real) -> real, km: (GeoRow, GeoRow) -> real,
                            uid: int, days: seq<seq<LegacyDraw>>, env: Env): (r: Result<seq<SampleRow>>)
    ensures r.Ok? ==> |r.value| == |days| + TotalSteps(StepCounts(days))
    ensures r.Ok? ==> FlatLaid(r.value, uid, Slots(StepCounts(days), 0))
    ensures HomeRow(rows).None? ==> r.Err?
    ensures r.Ok? ==> HomeRow(rows).Some? && HomesAt(r.value, Slots(StepCounts(days), 0), HomeVisit(HomeRow(rows).value))
    ensures r.Ok? <==> FitLegacy(c, rows, pow, km).Ok? && HomeRow(rows).Some?
                       && LegacyDays(FitLegacy(c, rows, pow, km).value, HomeVisit(HomeRow(rows).value), days, env, uid, 0).Ok?
    ensures r.Ok? ==> r == LegacyDays(FitLegacy(c, rows, pow, km).value, HomeVisit(HomeRow(rows).value), days, env, uid, 0)
    ensures r.Ok? ==> LegacyChained(FitLegacy(c, rows, pow, km).value, HomeVisit(HomeRow(rows).value), days, env, uid, 0, r.value)
  {
    var l := FitLegacy(c, rows, pow, km);
    if l.Err? then Err(l.msg)
    else
      var h := HomeRow(rows);
      if h.None? then Err("no home row")
      else LegacyDays(l.value, HomeVisit(h.value), days, env, uid, 0)
  }

  /** Sampling user u alone with the legacy sampler, drawing `days(u)`. */
  function LegacyUserSampler(c: Config, tweets: seq<UserTweet>, pow: (real, real) -> real, km: (GeoRow, GeoRow) -> real,
                             days: int -> seq<seq<LegacyDraw>>, env: Env): int -> Result<seq<SampleRow>>
  {
    u => LegacySampleUser(c, UserRows(tweets, u), pow, km, u, days(u), env)
  }

  /** `Sampler.sample` of the older generator: the tweets are required;
      then the model is refit on every user of the tweets in order of
      first appearance, user u drawing `days(u)`, and all rows are
      collected into one frame. Tweets without rows give an empty frame. */
  function LegacySample(c: Config, tweets: Option<seq<UserTweet>>, pow: (real, real) -> real, km: (GeoRow, GeoRow) -> real,
                        days: int -> seq<seq<LegacyDraw>>, env: Env): (r: Result<seq<SampleRow>>)
    ensures tweets.None? ==> r.Err?
    ensures tweets == Some([]) ==> r == Ok([])
    ensures tweets.Some? ==>
              (r.Ok? <==> forall u :: u in Users(tweets.value) ==> LegacySampleUser(c, UserRows(tweets.value, u), pow, km, u, days(u), env).Ok?)
  {
    if tweets.None? then Err("must set tweets when sampling")
    else
      var us := Users(tweets.value);
      var one := LegacyUserSampler(c, tweets.value, pow, km, days, env);
      UsersOfNone(tweets.value);
      JoinUsersOk(us, one);
      JoinUsers(us, one)
  }

  /** Every row sampled for a user by the legacy sampler carries that
      user's id. */
  lemma {:induction false} LegacySampleUserOwnRows(c: Config, rows: seq<GeoRow>, pow: (real, real) -> real, km: (GeoRow, GeoRow) -> real,
                                                   uid: int, days: seq<seq<LegacyDraw>>, env: Env)
    requires LegacySampleUser(c, rows, pow, km, uid, days, env).Ok?
    ensures forall x :: x in LegacySampleUser(c, rows, pow, km, uid, days, env).value ==> x.user == uid
  {
    var out := LegacySampleUser(c, rows, pow, km, uid, days, env).value;
    forall x | x in out ensures x.user == uid {
      var i :| 0 <= i < |out| && out[i] == x;
    }
  }

  /** Each user's rows in the legacy sample are exactly what sampling that
      user alone gives, in the same order, and no other user appears. */
  lemma {:induction false} LegacySampleKeepsEachUser(c: Config, tweets: seq<UserTweet>, pow: (real, real) -> real, km: (GeoRow, GeoRow) -> real,
                                                     days: int -> seq<seq<LegacyDraw>>, env: Env, u: int)
    requires LegacySample(c, Some(tweets), pow, km, days, env).Ok?
    ensures u in Users(tweets) ==>
              Filter(LegacySample(c, Some(tweets), pow, km, days, env).value, OfUser(u))
              == LegacySampleUser(c, UserRows(tweets, u), pow, km, u, days(u), env).value
    ensures u !in Users(tweets) ==> Filter(LegacySample(c, Some(tweets), pow, km, days, env).value, OfUser(u)) == []
  {
    var us, one := Users(tweets), LegacyUserSampler(c, tweets, pow, km, days, env);
    forall i, x | 0 <= i < |us| && one(us[i]).Ok? && x in one(us[i]).value ensures x.user == us[i] {
      LegacySampleUserOwnRows(c, UserRows(tweets, us[i]), pow, km, us[i], days(us[i]), env);
    }
    JoinUsersOfUser(us, one, u);
  }

  /** The legacy rows carry exactly the days of the newer sampler's rows
      for the same numbers of steps, and time slot 0 where the newer one
      counts 0, 1, 2, ... */
  lemma {:induction false} LegacyFlattensSlots(rows: seq<SampleRow>, newer: seq<SampleRow>, uid: int, days: seq<seq<LegacyDraw>>)
    requires FlatLaid(rows, uid, Slots(StepCounts(days), 0))
    requires Laid(newer, uid, Slots(StepCounts(days), 0))
    ensures |rows| == |newer|
    ensures forall i :: 0 <= i < |rows| ==> rows[i].day == newer[i].day && rows[i].timeslot == 0
    ensures |days| > 0 && |days[0]| > 0 ==> newer[1].timeslot == 1 != rows[1].timeslot
  {
    if |days| > 0 && |days[0]| > 0 {
      StepCountsTail(days);
      assert Slots(StepCounts(days), 0) == [(0, 0)] + DaySlots(0, |days[0]|) + Slots(StepCounts(days[1..]), 1);
      assert Slots(StepCounts(days), 0)[1] == DaySlots(0, |days[0]|)[0];
    }
  }
}

/** The trajectory generator of lib/models.py: the preferential-return
    model (exploration with probability p * s^(-gamma), otherwise a
    return to a visited region), its region samplers, the daily trip
    count distributions and the per-user sampler.

    Every random draw is an input: the uniform `r` of a step, the
    sampled bearing and jump size, the sampler's choice of region, the
    normal draw of a daily count. The power function, the geodesic shift
    and the exponential are parameters. */
module Models {
  import opened Common
  import opened Gravity
  import Activity

  /** A fitting row: a tweet's region, coordinates and whether it is
      labelled 'home'. */
  datatype GeoRow = GeoRow(region: int, lat: real, lng: real, home: bool)

  datatype Kind = Point | Region

  /** One generated visit: the list ["point" | "region", lat, lng, id]. */
  datatype Visit = Visit(kind: Kind, lat: real, lng: real, region: int)

  /** Which region sampler the model was built with. */
  datatype Sampling = TrueProb | ZipfProb | TransitionZipf

  /** The constructor arguments: p and gamma are required. */
  datatype Config = Config(p: real, gamma: real, sampling: Sampling)

  /** `PreferentialReturn.__init__`: p is checked first, then gamma. */
  function NewModel(p: Option<real>, gamma: Option<real>, sampling: Sampling): (r: Result<Config>)
    ensures r.Err? <==> p.None? || gamma.None?
    ensures p.None? ==> r == Err("p must be set")
    ensures r.Ok? ==> r.value == Config(p.value, gamma.value, sampling)
  {
    if p.None? then Err("p must be set")
    else if gamma.None? then Err("gamma must be set")
    else Ok(Config(p.value, gamma.value, sampling))
  }

  // Fitting

  /** Whether some row of s belongs to region id. */
  predicate HasRegion(s: seq<GeoRow>, id: int)
  {
    exists i :: 0 <= i < |s| && s[i].region == id
  }

  /** The first row of each region, in order of first appearance: what
      `groupby('region').head(1)` keeps. */
  function FirstRows(rows: seq<GeoRow>): (f: seq<GeoRow>)
    ensures forall i, j :: 0 <= i < j < |f| ==> f[i].region != f[j].region
    ensures forall k :: 0 <= k < |rows| ==> HasRegion(f, rows[k].region)
    decreases |rows|
  {
    if |rows| == 0 then []
    else
      var init := rows[..|rows| - 1];
      var prior := FirstRows(init);
      var x := rows[|rows| - 1];
      assert forall k :: 0 <= k < |init| ==> init[k] == rows[k];
      if HasRegion(prior, x.region) then prior
      else
        assert forall k :: 0 <= k < |rows| - 1 ==> HasRegion(prior + [x], rows[k].region) by {
          forall k | 0 <= k < |rows| - 1 ensures HasRegion(prior + [x], rows[k].region) {
            assert HasRegion(prior, init[k].region);
            var i :| 0 <= i < |prior| && prior[i].region == init[k].region;
            assert (prior + [x])[i] == prior[i];
          }
        }
        assert (prior + [x])[|prior|] == x;
        prior + [x]
  }

  /** The kept rows cover exactly the regions of the input. */
  lemma {:induction false} FirstRowsRegions(rows: seq<GeoRow>, id: int)
    ensures HasRegion(FirstRows(rows), id) <==> HasRegion(rows, id)
  {
    var f := FirstRows(rows);
    if HasRegion(f, id) {
      var i :| 0 <= i < |f| && f[i].region == id;
      FirstRowsAreFirst(rows, i);
      var k :| 0 <= k < |rows| && rows[k] == f[i];
    }
  }

  /** Each kept row is the first row of its region. */
  lemma {:induction false} FirstRowsAreFirst(rows: seq<GeoRow>, i: nat)
    requires i < |FirstRows(rows)|
    ensures exists k :: 0 <= k < |rows| && rows[k] == FirstRows(rows)[i]
                        && forall k' :: 0 <= k' < k ==> rows[k'].region != rows[k].region
    decreases |rows|
  {
    var init := rows[..|rows| - 1];
    var prior := FirstRows(init);
    assert forall k :: 0 <= k < |init| ==> init[k] == rows[k];
    if i < |prior| {
      FirstRowsAreFirst(init, i);
      var k :| 0 <= k < |init| && init[k] == prior[i] && forall k' :: 0 <= k' < k ==> init[k'].region != init[k].region;
      assert rows[k] == FirstRows(rows)[i];
    } else {
      var x := rows[|rows| - 1];
      assert !HasRegion(prior, x.region);
      forall k' | 0 <= k' < |rows| - 1 ensures rows[k'].region != x.region {
        assert HasRegion(prior, init[k'].region);
      }
    }
  }

  /** The fitted model: the first row per region, the moves the jump
      sampler draws from, the distinct-region counter s and the
      exploration probability p * s^(-gamma). */
  datatype Model = Model(config: Config, regions: seq<GeoRow>, moves: seq<Gap>, s: nat, explorationProb: real)

  function ExplorationProb(c: Config, s: nat, pow: (real, real) -> real): real
  {
    c.p * pow(s as real, -c.gamma)
  }

  /** `fit`: the jump sampler keeps the moves of the rows, and s is the
      number of distinct regions. Python cannot raise 0 to a negative
      power, so fitting no rows with gamma > 0 fails. */
  function Fit(c: Config, rows: seq<GeoRow>, pow: (real, real) -> real): (r: Result<Model>)
    ensures r.Err? <==> |rows| == 0 && c.gamma > 0.0
    ensures r.Ok? ==> r.value.s == |r.value.regions| && r.value.regions == FirstRows(rows)
    ensures r.Ok? ==> r.value.moves == Moves(Gaps(rows))
    ensures r.Ok? ==> r.value.explorationProb == c.p * pow(r.value.s as real, -c.gamma)
  {
    var f := FirstRows(rows);
    FirstRowsEmpty(rows);
    if |f| == 0 && c.gamma > 0.0 then Err("0.0 cannot be raised to a negative power")
    else Ok(Model(c, f, Moves(Gaps(rows)), |f|, ExplorationProb(c, |f|, pow)))
  }

  /** Some row keeps some first row. */
  lemma {:induction false} FirstRowsEmpty(rows: seq<GeoRow>)
    ensures |FirstRows(rows)| == 0 <==> |rows| == 0
  {
    if |rows| > 0 {
      assert HasRegion(FirstRows(rows), rows[0].region);
    }
  }

  /** `update_s`: one more distinct place. */
  function UpdateS(m: Model, pow: (real, real) -> real): (r: Model)
    ensures r.s == m.s + 1 && r.regions == m.regions && r.config == m.config
    ensures r.explorationProb == m.config.p * pow((m.s + 1) as real, -m.config.gamma)
  {
    m.(s := m.s + 1, explorationProb := ExplorationProb(m.config, m.s + 1, pow))
  }

  // One step

  /** The random inputs of one step: the uniform draw, the index
      `randint` draws among the moves, and the draw the region sampler
      uses. */
  datatype Draw = Draw(r: real, jumpIdx: nat, pick: real)

  /** The functions a step calls: the power, the geodesic shift of
      (lat, lng) by a jump along a bearing, the region sampler, which
      chooses an id from the previous region id (if any) and its draw,
      and the bearing and the haversine length in kilometres of a gap. */
  datatype Env = Env(pow: (real, real) -> real,
                     shift: (real, real, real, real) -> (real, real),
                     pick: (Option<int>, real) -> int,
                     bearing: (GeoRow, GeoRow) -> real,
                     km: (GeoRow, GeoRow) -> real)

  function MaxRegion(regions: seq<GeoRow>): (m: int)
    requires |regions| > 0
    ensures forall i :: 0 <= i < |regions| ==> regions[i].region <= m
    ensures exists i :: 0 <= i < |regions| && regions[i].region == m
    decreases |regions|
  {
    if |regions| == 1 then regions[0].region
    else
      var rest := MaxRegion(regions[1..]);
      assert forall i :: 1 <= i < |regions| ==> regions[i] == regions[1..][i - 1];
      if regions[0].region < rest then rest else regions[0].region
  }

  /** The stored row of region id, if it was fitted. */
  function FindRegion(regions: seq<GeoRow>, id: int): (f: Option<GeoRow>)
    ensures f.None? <==> forall i :: 0 <= i < |regions| ==> regions[i].region != id
    ensures f.Some? ==> f.value in regions && f.value.region == id
    decreases |regions|
  {
    if |regions| == 0 then None
    else if regions[0].region == id then Some(regions[0])
    else
      assert forall i :: 1 <= i < |regions| ==> regions[i] == regions[1..][i - 1];
      FindRegion(regions[1..], id)
  }

  /** Whether a step with draw d explores. */
  predicate Explores(m: Model, d: Draw)
  {
    d.r < m.explorationProb
  }

  /** `next`. Exploring samples a bearing and jump from the fitted moves
      (`randint(0)` fails without any), shifts the previous point, raises
      s by one and returns the fitted regions' largest id plus one; the
      fitted regions are not extended. Returning passes the previous id
      when the previous visit was a region; only the transition sampler
      accepts the extra `previous_point` argument, the other two raise a
      TypeError; an id that was not fitted is a KeyError. */
  function Next(m: Model, prev: Visit, d: Draw, env: Env): (r: Result<(Model, Visit)>)
    ensures Explores(m, d) ==> (r.Err? <==> |m.moves| == 0 || |m.regions| == 0)
    ensures r.Ok? && Explores(m, d) ==>
              r.value.0 == UpdateS(m, env.pow) && r.value.1.kind == Point
              && r.value.1.region == MaxRegion(m.regions) + 1
              && var bj := SampleBearingJump(m.moves, env.bearing, env.km, d.jumpIdx).value;
                 (r.value.1.lat, r.value.1.lng) == env.shift(prev.lat, prev.lng, bj.1, bj.0)
    ensures !Explores(m, d) && m.config.sampling != TransitionZipf ==> r.Err?
    ensures r.Ok? && !Explores(m, d) ==>
              r.value.0 == m && r.value.1.kind == Region
              && r.value.1.region == env.pick(if prev.kind == Region then Some(prev.region) else None, d.pick)
              && FindRegion(m.regions, r.value.1.region).Some?
              && r.value.1.lat == FindRegion(m.regions, r.value.1.region).value.lat
              && r.value.1.lng == FindRegion(m.regions, r.value.1.region).value.lng
    ensures !Explores(m, d) && m.config.sampling == TransitionZipf ==>
              (r.Ok? <==> FindRegion(m.regions, env.pick(if prev.kind == Region then Some(prev.region) else None, d.pick)).Some?)
  {
    if Explores(m, d) then
      var bj := SampleBearingJump(m.moves, env.bearing, env.km, d.jumpIdx);
      if bj.Err? then Err(bj.msg)
      else if |m.regions| == 0 then Err("max() arg is an empty sequence")
      else
        var p := env.shift(prev.lat, prev.lng, bj.value.1, bj.value.0);
        Ok((UpdateS(m, env.pow), Visit(Point, p.0, p.1, MaxRegion(m.regions) + 1)))
    else if m.config.sampling != TransitionZipf then Err("sample() got an unexpected keyword argument 'previous_point'")
    else
      var id := env.pick(if prev.kind == Region then Some(prev.region) else None, d.pick);
      var row := FindRegion(m.regions, id);
      if row.None? then Err("KeyError") else Ok((m, Visit(Region, row.value.lat, row.value.lng, id)))
  }

  /** Two explorations in a row after one fit carry the same id. */
  lemma {:induction false} ExplorationsShareId(m: Model, prev: Visit, d1: Draw, d2: Draw, env: Env)
    requires Explores(m, d1) && |m.regions| > 0 && |m.moves| > 0
    requires Explores(Next(m, prev, d1, env).value.0, d2)
    ensures Next(Next(m, prev, d1, env).value.0, Next(m, prev, d1, env).value.1, d2, env).Ok?
    ensures Next(Next(m, prev, d1, env).value.0, Next(m, prev, d1, env).value.1, d2, env).value.1.region
            == Next(m, prev, d1, env).value.1.region
    ensures Next(Next(m, prev, d1, env).value.0, Next(m, prev, d1, env).value.1, d2, env).value.0.s == m.s + 2
  {
    var m1 := Next(m, prev, d1, env).value.0;
    assert m1.regions == m.regions && m1.moves == m.moves;
  }

  /** An exploration lands where a shift from the previous point along
      one fitted move's bearing, by that move's length in metres, lands. */
  lemma {:induction false} ExploreAlongMove(m: Model, prev: Visit, d: Draw, env: Env)
    requires Explores(m, d) && Next(m, prev, d, env).Ok?
    ensures exists g :: g in m.moves
              && (Next(m, prev, d, env).value.1.lat, Next(m, prev, d, env).value.1.lng)
                 == env.shift(prev.lat, prev.lng, env.km(g.origin, g.destination) * 1000.0, env.bearing(g.origin, g.destination))
  {
    var v := SampleBearingJump(m.moves, env.bearing, env.km, d.jumpIdx).value;
    BearingJumpOfMove(m.moves, env.bearing, env.km, d.jumpIdx, v);
    var g :| g in m.moves && v == (env.bearing(g.origin, g.destination), env.km(g.origin, g.destination) * 1000.0);
  }

  /** A user whose rows all lie in one region has no moves, so every
      exploring step fails, as `randint(0)` does. */
  lemma {:induction false} OneRegionCannotExplore(c: Config, rows: seq<GeoRow>, prev: Visit, d: Draw, env: Env)
    requires forall i :: 0 <= i < |rows| ==> rows[i].region == rows[0].region
    requires Fit(c, rows, env.pow).Ok? && Explores(Fit(c, rows, env.pow).value, d)
    ensures Next(Fit(c, rows, env.pow).value, prev, d, env).Err?
  {
    var moves := Moves(Gaps(rows));
    if |moves| > 0 {
      var x := moves[0];
      MovesMembers(Gaps(rows), x);
      assert false;
    }
  }

  /** With p = 0 the fitted exploration probability is 0, a uniform
      draw is never below it, so a step is a return and s stays put. */
  lemma {:induction false} ZeroPNeverExplores(c: Config, rows: seq<GeoRow>, prev: Visit, d: Draw, env: Env)
    requires c.p == 0.0 && Fit(c, rows, env.pow).Ok? && d.r >= 0.0
    ensures !Explores(Fit(c, rows, env.pow).value, d)
    ensures Next(Fit(c, rows, env.pow).value, prev, d, env).Ok? ==>
              Next(Fit(c, rows, env.pow).value, prev, d, env).value.0 == Fit(c, rows, env.pow).value
              && Next(Fit(c, rows, env.pow).value, prev, d, env).value.1.kind == Region
  {
  }

  // Sampling one user

  /** One generated row: user, day, time slot and visit. */
  datatype SampleRow = SampleRow(user: int, day: nat, timeslot: nat, visit: Visit)

  /** The steps of one day after its home row: step t (from 0) is time
      slot t + 1, and each step starts from the previous one's visit. */
  function DaySteps(m: Model, prev: Visit, ds: seq<Draw>, env: Env, uid: int, day: nat, t: nat): (r: Result<(Model, seq<SampleRow>)>)
    ensures r.Ok? ==> |r.value.1| == |ds|
    ensures r.Ok? ==> forall i :: 0 <= i < |ds| ==>
              r.value.1[i].user == uid && r.value.1[i].day == day && r.value.1[i].timeslot == t + i + 1
    ensures r.Ok? && |ds| > 0 ==> Next(m, prev, ds[0], env).Ok? && r.value.1[0].visit == Next(m, prev, ds[0], env).value.1
    ensures |ds| > 0 && Next(m, prev, ds[0], env).Err? ==> r.Err?
    decreases |ds|
  {
    if |ds| == 0 then Ok((m, []))
    else
      var step := Next(m, prev, ds[0], env);
      if step.Err? then Err(step.msg)
      else
        var rest := DaySteps(step.value.0, step.value.1, ds[1..], env, uid, day, t + 1);
        if rest.Err? then rest
        else Ok((rest.value.0, [SampleRow(uid, day, t + 1, step.value.1)] + rest.value.1))
  }

  /** Where step i of a day starts: the day's start for the first step,
      the previous row's visit for the others. */
  function StepStart(prev: Visit, rows: seq<SampleRow>, i: nat): Visit
    requires i <= |rows|
  {
    if i == 0 then prev else rows[i - 1].visit
  }

  /** Along a day, each row's visit is `next` of the model so far and of
      where the step starts, and the models are those `next` hands on. */
  lemma {:induction false} DayStepsChain(m: Model, prev: Visit, ds: seq<Draw>, env: Env, uid: int, day: nat, t: nat) returns (ms: seq<Model>)
    requires DaySteps(m, prev, ds, env, uid, day, t).Ok?
    ensures |ms| == |ds| + 1 && ms[0] == m && ms[|ds|] == DaySteps(m, prev, ds, env, uid, day, t).value.0
    ensures forall i :: 0 <= i < |ds| ==>
              Next(ms[i], StepStart(prev, DaySteps(m, prev, ds, env, uid, day, t).value.1, i), ds[i], env)
              == Ok((ms[i + 1], DaySteps(m, prev, ds, env, uid, day, t).value.1[i].visit))
    decreases |ds|
  {
    var r := DaySteps(m, prev, ds, env, uid, day, t).value;
    if |ds| == 0 {
      ms := [m];
    } else {
      var step := Next(m, prev, ds[0], env).value;
      var rest := DaySteps(step.0, step.1, ds[1..], env, uid, day, t + 1).value;
      assert r.1 == [SampleRow(uid, day, t + 1, step.1)] + rest.1 && r.0 == rest.0;
      var tail := DayStepsChain(step.0, step.1, ds[1..], env, uid, day, t + 1);
      ms := [m] + tail;
      forall i | 0 <= i < |ds|
        ensures Next(ms[i], StepStart(prev, r.1, i), ds[i], env) == Ok((ms[i + 1], r.1[i].visit))
      {
        if i > 0 {
          assert ds[i] == ds[1..][i - 1] && r.1[i] == rest.1[i - 1];
          assert StepStart(prev, r.1, i) == StepStart(step.1, rest.1, i - 1);
          assert ms[i] == tail[i - 1] && ms[i + 1] == tail[i];
        } else {
          assert StepStart(prev, r.1, 0) == prev && ms[1] == step.0 && r.1[0].visit == step.1;
        }
      }
    }
  }

  /** Number of steps over all days. */
  function TotalSteps(counts: seq<nat>): nat
    decreases |counts|
  {
    if |counts| == 0 then 0 else counts[0] + TotalSteps(counts[1..])
  }

  /** The number of steps of each day. */
  function StepCounts<T>(days: seq<seq<T>>): (c: seq<nat>)
    ensures |c| == |days| && forall d :: 0 <= d < |days| ==> c[d] == |days[d]|
  {
    seq(|days|, d requires 0 <= d < |days| => |days[d]|)
  }

  lemma {:induction false} StepCountsTail<T>(days: seq<seq<T>>)
    requires |days| > 0
    ensures StepCounts(days)[0] == |days[0]| && StepCounts(days)[1..] == StepCounts(days[1..])
  {
    assert StepCounts(days)[1..] == StepCounts(days[1..]);
  }

  /** Slots 1..k of day d. */
  function DaySlots(d: nat, k: nat): (s: seq<(nat, nat)>)
    ensures |s| == k && forall t :: 0 <= t < k ==> s[t] == (d, t + 1)
  {
    seq(k, t requires 0 <= t < k => (d, t + 1))
  }

  /** The (day, time slot) layout of days d.. : each day is its home slot
      0 followed by slots 1..k for its k steps. */
  function Slots(counts: seq<nat>, d: nat): (s: seq<(nat, nat)>)
    ensures |s| == |counts| + TotalSteps(counts)
    decreases |counts|
  {
    if |counts| == 0 then [] else [(d, 0)] + DaySlots(d, counts[0]) + Slots(counts[1..], d + 1)
  }

  /** The rows are user uid's and sit at the given (day, slot) places. */
  predicate Laid(rows: seq<SampleRow>, uid: int, slots: seq<(nat, nat)>)
  {
    |rows| == |slots| && forall i :: 0 <= i < |rows| ==> rows[i].user == uid && (rows[i].day, rows[i].timeslot) == slots[i]
  }

  lemma {:induction false} LaidConcat(a: seq<SampleRow>, b: seq<SampleRow>, uid: int, sa: seq<(nat, nat)>, sb: seq<(nat, nat)>)
    requires Laid(a, uid, sa) && Laid(b, uid, sb)
    ensures Laid(a + b, uid, sa + sb)
  {
    forall i | 0 <= i < |a + b|
      ensures (a + b)[i].user == uid && ((a + b)[i].day, (a + b)[i].timeslot) == (sa + sb)[i]
    {
      if i < |a| {
        assert (a + b)[i] == a[i] && (sa + sb)[i] == sa[i];
      } else {
        assert (a + b)[i] == b[i - |a|] && (sa + sb)[i] == sb[i - |a|];
      }
    }
  }

  /** The rows at the layout's home slots (time slot 0) visit home. */
  predicate HomesAt(rows: seq<SampleRow>, slots: seq<(nat, nat)>, home: Visit)
  {
    |rows| == |slots| && forall i :: 0 <= i < |rows| && slots[i].1 == 0 ==> rows[i].visit == home
  }

  lemma {:induction false} HomesAtConcat(a: seq<SampleRow>, b: seq<SampleRow>, sa: seq<(nat, nat)>, sb: seq<(nat, nat)>, home: Visit)
    requires HomesAt(a, sa, home) && HomesAt(b, sb, home)
    ensures HomesAt(a + b, sa + sb, home)
  {
    forall i | 0 <= i < |a + b| && (sa + sb)[i].1 == 0
      ensures (a + b)[i].visit == home
    {
      if i < |a| {
        assert (a + b)[i] == a[i] && (sa + sb)[i] == sa[i];
      } else {
        assert (a + b)[i] == b[i - |a|] && (sa + sb)[i] == sb[i - |a|];
      }
    }
  }

  /** A day's steps sit at slots 1.., none of them a home slot. */
  lemma {:induction false} HomesAtSteps(rows: seq<SampleRow>, d: nat, home: Visit)
    ensures HomesAt(rows, DaySlots(d, |rows|), home)
  {
  }

  /** The rows are the days from day d on as the sampler chains them:
      each day is the home row followed by the day's `next` steps from
      home, and the model the steps hand on starts the next day. */
  ghost predicate Chained(m: Model, home: Visit, days: seq<seq<Draw>>, env: Env, uid: int, d: nat, rows: seq<SampleRow>)
    decreases |days|
  {
    if |days| == 0 then rows == []
    else
      var today := DaySteps(m, home, days[0], env, uid, d, 0);
      today.Ok? && 1 + |days[0]| <= |rows| && rows[0] == SampleRow(uid, d, 0, home)
      && rows[1..1 + |days[0]|] == today.value.1
      && Chained(today.value.0, home, days[1..], env, uid, d + 1, rows[1 + |days[0]|..])
  }

  /** The days from day d on, every day starting over at home. */
  function SampleDays(m: Model, home: Visit, days: seq<seq<Draw>>, env: Env, uid: int, d: nat): (r: Result<seq<SampleRow>>)
    ensures r.Ok? ==> Laid(r.value, uid, Slots(StepCounts(days), d))
    ensures r.Ok? ==> HomesAt(r.value, Slots(StepCounts(days), d), home)
    ensures r.Ok? && |days| > 0 ==> r.value[0] == SampleRow(uid, d, 0, home)
    ensures |days| > 0 && DaySteps(m, home, days[0], env, uid, d, 0).Err? ==> r.Err?
    ensures r.Ok? ==> Chained(m, home, days, env, uid, d, r.value)
    decreases |days|
  {
    if |days| == 0 then Ok([])
    else
      var today := DaySteps(m, home, days[0], env, uid, d, 0);
      if today.Err? then Err(today.msg)
      else
        var rest := SampleDays(today.value.0, home, days[1..], env, uid, d + 1);
        if rest.Err? then rest
        else
          assert Laid(today.value.1, uid, DaySlots(d, |days[0]|));
          DayLaid(days, uid, d, home, today.value.1, rest.value);
          var out := [SampleRow(uid, d, 0, home)] + today.value.1 + rest.value;
          assert out[1..1 + |days[0]|] == today.value.1 && out[1 + |days[0]|..] == rest.value;
          Ok(out)
  }

  /** A home row, a day's steps and the days after it follow the layout
      of all the days, with home at every home slot. */
  lemma {:induction false} DayLaid(days: seq<seq<Draw>>, uid: int, d: nat, home: Visit, steps: seq<SampleRow>, rest: seq<SampleRow>)
    requires |days| > 0 && Laid(steps, uid, DaySlots(d, |days[0]|))
    requires Laid(rest, uid, Slots(StepCounts(days[1..]), d + 1)) && HomesAt(rest, Slots(StepCounts(days[1..]), d + 1), home)
    ensures Laid([SampleRow(uid, d, 0, home)] + steps + rest, uid, Slots(StepCounts(days), d))
    ensures HomesAt([SampleRow(uid, d, 0, home)] + steps + rest, Slots(StepCounts(days), d), home)
  {
    var first := [SampleRow(uid, d, 0, home)];
    StepCountsTail(days);
    assert Laid(first, uid, [(d, 0)]);
    LaidConcat(first, steps, uid, [(d, 0)], DaySlots(d, |days[0]|));
    LaidConcat(first + steps, rest, uid, [(d, 0)] + DaySlots(d, |days[0]|), Slots(StepCounts(days[1..]), d + 1));
    HomesAtSteps(steps, d, home);
    HomesAtConcat(first, steps, [(d, 0)], DaySlots(d, |days[0]|), home);
    HomesAtConcat(first + steps, rest, [(d, 0)] + DaySlots(d, |days[0]|), Slots(StepCounts(days[1..]), d + 1), home);
  }

  /** The chained rows are the only ones: whatever rows chain the days
      are exactly what the sampler returns. */
  lemma {:induction false} ChainedIsSampleDays(m: Model, home: Visit, days: seq<seq<Draw>>, env: Env, uid: int, d: nat, rows: seq<SampleRow>)
    requires Chained(m, home, days, env, uid, d, rows)
    ensures SampleDays(m, home, days, env, uid, d) == Ok(rows)
    decreases |days|
  {
    if |days| > 0 {
      var today := DaySteps(m, home, days[0], env, uid, d, 0);
      var rest := rows[1 + |days[0]|..];
      ChainedIsSampleDays(today.value.0, home, days[1..], env, uid, d + 1, rest);
      HeadMiddleRest(rows, |days[0]|);
    }
  }

  /** A run of rows is its first row, the k rows after it and the rest. */
  lemma {:induction false} HeadMiddleRest(rows: seq<SampleRow>, k: nat)
    requires 1 + k <= |rows|
    ensures rows == [rows[0]] + rows[1..1 + k] + rows[1 + k..]
  {
    assert rows == rows[..1] + rows[1..1 + k] + rows[1 + k..];
  }

  /** Every day of the layout opens with its home slot. */
  lemma {:induction false} HomeSlotOfEachDay(counts: seq<nat>, d0: nat, d: nat)
    requires d < |counts|
    ensures (d0 + d, 0) in Slots(counts, d0)
    decreases d
  {
    if d > 0 {
      HomeSlotOfEachDay(counts[1..], d0 + 1, d - 1);
    }
  }

  /** The home row: the first row labelled 'home'; none is the
      IndexError of `iloc[0]`. */
  function HomeRow(rows: seq<GeoRow>): (h: Option<GeoRow>)
    ensures h.None? <==> forall i :: 0 <= i < |rows| ==> !rows[i].home
    ensures h.Some? ==> exists i :: 0 <= i < |rows| && rows[i] == h.value && rows[i].home
                                    && forall k :: 0 <= k < i ==> !rows[k].home
    decreases |rows|
  {
    if |rows| == 0 then None
    else if rows[0].home then Some(rows[0])
    else
      assert forall i :: 1 <= i < |rows| ==> rows[i] == rows[1..][i - 1];
      var h := HomeRow(rows[1..]);
      assert h.Some? ==> exists i :: 0 <= i < |rows| && rows[i] == h.value && rows[i].home
                                    && forall k :: 0 <= k < i ==> !rows[k].home by {
        if h.Some? {
          var i :| 0 <= i < |rows[1..]| && rows[1..][i] == h.value && rows[1..][i].home
                   && forall k :: 0 <= k < i ==> !rows[1..][k].home;
          assert rows[i + 1] == h.value;
        }
      }
      h
  }

  /** The visit `['region', latitude, longitude, region]` of a row. */
  function HomeVisit(h: GeoRow): Visit
  {
    Visit(Region, h.lat, h.lng, h.region)
  }

  /** `sample_user`: fit on the user's rows, then for each day a home
      row at slot 0 followed by that day's steps. */
  function SampleUser(c: Config, rows: seq<GeoRow>, uid: int, days: seq<seq<Draw>>, env: Env): (r: Result<seq<SampleRow>>)
    ensures r.Ok? ==> Laid(r.value, uid, Slots(StepCounts(days), 0))
    ensures HomeRow(rows).None? ==> r.Err?
    ensures r.Ok? ==> HomeRow(rows).Some? && HomesAt(r.value, Slots(StepCounts(days), 0), HomeVisit(HomeRow(rows).value))
    ensures r.Ok? <==> Fit(c, rows, env.pow).Ok? && HomeRow(rows).Some?
                       && SampleDays(Fit(c, rows, env.pow).value, HomeVisit(HomeRow(rows).value), days, env, uid, 0).Ok?
    ensures r.Ok? ==> r == SampleDays(Fit(c, rows, env.pow).value, HomeVisit(HomeRow(rows).value), days, env, uid, 0)
    ensures r.Ok? ==> Chained(Fit(c, rows, env.pow).value, HomeVisit(HomeRow(rows).value), days, env, uid, 0, r.value)
  {
    var m := Fit(c, rows, env.pow);
    if m.Err? then Err(m.msg)
    else
      var h := HomeRow(rows);
      if h.None? then Err("single positional indexer is out-of-bounds")
      else SampleDays(m.value, HomeVisit(h.value), days, env, uid, 0)
  }

  /** A laid-out run of rows with home at its home slots has a home row
      for every day that opens in the layout. */
  lemma {:induction false} HomeRowOfDay(rows: seq<SampleRow>, uid: int, slots: seq<(nat, nat)>, home: Visit, d: nat)
    requires Laid(rows, uid, slots) && HomesAt(rows, slots, home) && (d, 0) in slots
    ensures exists i :: 0 <= i < |rows| && rows[i] == SampleRow(uid, d, 0, home)
  {
    var i :| 0 <= i < |slots| && slots[i] == (d, 0);
    assert rows[i] == SampleRow(uid, d, 0, home);
  }

  // Daily trip counts

  /** Python's `round` on a float: to the nearest integer, halves to the
      even neighbour. */
  function RoundHalfEven(x: real): (n: int)
    ensures (n as real) - x <= 0.5 && x - (n as real) <= 0.5
    ensures x - x.Floor as real == 0.5 ==> n % 2 == 0
  {
    var f := x.Floor;
    var frac := x - f as real;
    if frac < 0.5 then f
    else if frac > 0.5 then f + 1
    else if f % 2 == 0 then f else f + 1
  }

  /** `NormalDistribution.sample` for a normal draw x: at least one trip. */
  function NormalCount(x: real): (n: int)
    ensures n >= 1
    ensures n == 1 || ((n as real) - x <= 0.5 && x - (n as real) <= 0.5)
    ensures x - x.Floor as real == 0.5 ==> n == 1 || n % 2 == 0
  {
    Max1(RoundHalfEven(x))
  }

  function Max1(n: int): int
  {
    if n < 1 then 1 else n
  }

  /** The Swedish National Travel Survey counts and their weights. */
  const SurveyValues: seq<int> := [2, 3, 4, 5, 6, 7, 8, 9, 10, 11, 12, 13, 14, 15, 16, 17, 18, 19, 21, 22, 27]
  const SurveyWeights: seq<int> := [3110, 11266, 4395, 4878, 2102, 1401, 691, 403, 206, 131, 71, 31, 28, 20, 11, 7, 2, 3, 2, 1, 1]

  /** Position chosen by `random.choices` for a draw u: the first whose
      cumulative weight exceeds u. */
  function WeightedIndex(weights: seq<int>, u: real, k: nat, acc: int): (i: nat)
    requires k < |weights|
    ensures k <= i < |weights|
    decreases |weights| - k
  {
    if k == |weights| - 1 || u < (acc + weights[k]) as real then k
    else WeightedIndex(weights, u, k + 1, acc + weights[k])
  }

  /** `WeightedDistribution.sample` for a uniform draw u in [0, total
      weight): one of the survey values, so between 2 and 27 trips. */
  function WeightedCount(u: real): (n: int)
    ensures n in SurveyValues
    ensures 2 <= n <= 27
  {
    SurveyValues[WeightedIndex(SurveyWeights, u, 0, 0)]
  }

  // Region distributions

  /** Number of rows of region id. */
  function RegionSize(rows: seq<GeoRow>, id: int): nat
    decreases |rows|
  {
    if |rows| == 0 then 0
    else RegionSize(rows[..|rows| - 1], id) + (if rows[|rows| - 1].region == id then 1 else 0)
  }

  /** Row counts of the fitted regions, as reals. */
  function RegionCounts(rows: seq<GeoRow>): (c: seq<real>)
    ensures |c| == |FirstRows(rows)| && AllNonNegative(c)
    ensures forall i :: 0 <= i < |c| ==> c[i] == RegionSize(rows, FirstRows(rows)[i].region) as real
  {
    var f := FirstRows(rows);
    seq(|f|, i requires 0 <= i < |f| => RegionSize(rows, f[i].region) as real)
  }

  lemma {:induction false} RegionSizePositive(rows: seq<GeoRow>, k: nat)
    requires k < |rows|
    ensures RegionSize(rows, rows[k].region) > 0
    decreases |rows|
  {
    if k < |rows| - 1 {
      RegionSizePositive(rows[..|rows| - 1], k);
    }
  }

  lemma {:induction false} RegionCountsPositive(rows: seq<GeoRow>)
    requires |rows| > 0
    ensures Sum(RegionCounts(rows)) > 0.0
  {
    var c := RegionCounts(rows);
    var f := FirstRows(rows);
    assert HasRegion(f, rows[0].region);
    var i :| 0 <= i < |f| && f[i].region == rows[0].region;
    RegionSizePositive(rows, 0);
    PositiveEntry(c, i);
  }

  /** p is w scaled to sum 1: same length, total 1, and each entry times
      w's total is w's entry. */
  predicate NormalizedFrom(p: seq<real>, w: seq<real>)
  {
    |p| == |w| && Sum(p) == 1.0 && forall i :: 0 <= i < |p| ==> p[i] * Sum(w) == w[i]
  }

  lemma {:induction false} NormalizeFrom(w: seq<real>)
    requires Sum(w) != 0.0
    ensures NormalizedFrom(Normalize(w), w)
  {
  }

  /** `RegionTrueProb.fit`: each region's share of the rows; the shares
      sum to 1. Fitting no rows divides an empty series by 0, which is
      the empty series. */
  function TrueProbs(rows: seq<GeoRow>): (p: seq<real>)
    ensures |p| == |FirstRows(rows)|
    ensures |rows| > 0 ==> NormalizedFrom(p, RegionCounts(rows))
  {
    if |rows| == 0 then
      FirstRowsEmpty(rows);
      []
    else
      var c := RegionCounts(rows);
      RegionCountsPositive(rows);
      NormalizeFrom(c);
      Normalize(c)
  }

  /** Each fitted region with its number of rows, in order of first
      appearance: `groupby('region').size()`. */
  function RegionTallies(rows: seq<GeoRow>): (ts: seq<Activity.Tally>)
    ensures |ts| == |FirstRows(rows)|
  {
    var f := FirstRows(rows);
    seq(|f|, i requires 0 <= i < |f| => Activity.Tally(f[i].region, RegionSize(rows, f[i].region)))
  }

  lemma {:induction false} RegionTalliesCount(rows: seq<GeoRow>)
    ensures forall i :: 0 <= i < |RegionTallies(rows)| ==>
              RegionTallies(rows)[i] == Activity.Tally(FirstRows(rows)[i].region, RegionSize(rows, FirstRows(rows)[i].region))
  {
  }

  /** `sort_values(ascending=False)` of the region sizes: the regions
      from the most visited down, ties in order of first appearance. */
  function Ranking(rows: seq<GeoRow>): (t: seq<Activity.Tally>)
    ensures |t| == |FirstRows(rows)|
  {
    var ts := RegionTallies(rows);
    Activity.Top(ts, |ts|)
  }

  /** The ranking lists every region of the rows once, with its row
      count, from the largest count down. */
  lemma {:induction false} RankingOrdersRegions(rows: seq<GeoRow>)
    ensures Activity.DistinctRegions(Ranking(rows)) && Activity.CountsDescending(Ranking(rows))
    ensures forall k :: 0 <= k < |Ranking(rows)| ==> Ranking(rows)[k].count == RegionSize(rows, Ranking(rows)[k].region)
  {
    var ts := RegionTallies(rows);
    RegionTalliesCount(rows);
    Activity.TopSortedDistinct(ts, |ts|);
    forall k | 0 <= k < |Ranking(rows)|
      ensures Ranking(rows)[k].count == RegionSize(rows, Ranking(rows)[k].region)
    {
      assert Ranking(rows)[k] in ts;
    }
  }

  /** A region is ranked iff some row belongs to it. */
  lemma {:induction false} RankingCovers(rows: seq<GeoRow>, id: int)
    ensures (exists k :: 0 <= k < |Ranking(rows)| && Ranking(rows)[k].region == id) <==> HasRegion(rows, id)
  {
    var ts := RegionTallies(rows);
    var f := FirstRows(rows);
    RegionTalliesCount(rows);
    FirstRowsRegions(rows, id);
    if HasRegion(rows, id) {
      var i :| 0 <= i < |f| && f[i].region == id;
      Activity.TopKeepsAll(ts, |ts|, ts[i]);
      var k :| 0 <= k < |Ranking(rows)| && Ranking(rows)[k] == ts[i];
    }
    if k :| 0 <= k < |Ranking(rows)| && Ranking(rows)[k].region == id {
      assert Ranking(rows)[k] in ts;
      var i :| 0 <= i < |ts| && ts[i] == Ranking(rows)[k];
      assert HasRegion(f, id);
    }
  }

  /** The probabilities of region-probability pairs. */
  function Probs(rp: seq<(int, real)>): (p: seq<real>)
    ensures |p| == |rp| && forall k :: 0 <= k < |rp| ==> p[k] == rp[k].1
  {
    seq(|rp|, k requires 0 <= k < |rp| => rp[k].1)
  }

  /** rp labels the ranked regions in order, and entry k carries the Zipf
      weight pow(k + 1, -s) over the weights' total; the entries sum to 1. */
  ghost predicate ZipfShaped(rp: seq<(int, real)>, rank: seq<Activity.Tally>, zipf: real, pow: (real, real) -> real)
  {
    |rp| == |rank| && (|rp| > 0 ==> Sum(Probs(rp)) == 1.0)
    && forall k :: 0 <= k < |rp| ==>
         rp[k].0 == rank[k].region
         && rp[k].1 * Sum(ZipfWeights(|rp|, zipf, pow)) == pow((k + 1) as real, -zipf)
  }

  /** `RegionZipfProb.fit`: the k-th most visited region (from 1) gets
      weight pow(k, -s), over the weights' total; no rows give no
      probabilities. */
  function ZipfProbs(rows: seq<GeoRow>, zipf: real, pow: (real, real) -> real): (r: Result<seq<(int, real)>>)
    ensures r.Ok? ==> ZipfShaped(r.value, Ranking(rows), zipf, pow)
    ensures |rows| == 0 ==> r == Ok([])
    ensures (forall x, y :: pow(x, y) > 0.0) ==> r.Ok?
  {
    FirstRowsEmpty(rows);
    ZipfOver(Ranking(rows), zipf, pow)
  }

  /** Ranked regions weighted pow(k, -s) by rank k (from 1), normalised;
      an empty ranking is the empty series. */
  function ZipfOver(rank: seq<Activity.Tally>, zipf: real, pow: (real, real) -> real): (r: Result<seq<(int, real)>>)
    ensures r.Ok? ==> ZipfShaped(r.value, rank, zipf, pow)
    ensures |rank| == 0 ==> r == Ok([])
    ensures (forall x, y :: pow(x, y) > 0.0) ==> r.Ok?
  {
    var w := ZipfWeights(|rank|, zipf, pow);
    if |rank| == 0 then Ok([])
    else if Sum(w) == 0.0 then Err("division by zero")
    else
      ZipfLabelled(rank, zipf, pow);
      Ok(Label(rank, Normalize(w)))
  }

  /** The normalised Zipf weights, labelled by the ranking, have the Zipf
      shape. */
  lemma {:induction false} ZipfLabelled(rank: seq<Activity.Tally>, zipf: real, pow: (real, real) -> real)
    requires Sum(ZipfWeights(|rank|, zipf, pow)) != 0.0
    ensures ZipfShaped(Label(rank, Normalize(ZipfWeights(|rank|, zipf, pow))), rank, zipf, pow)
  {
    var w := ZipfWeights(|rank|, zipf, pow);
    NormalizeFrom(w);
    LabelShaped(rank, Normalize(w), w, zipf, pow);
  }

  lemma {:induction false} LabelShaped(rank: seq<Activity.Tally>, p: seq<real>, w: seq<real>, zipf: real, pow: (real, real) -> real)
    requires w == ZipfWeights(|rank|, zipf, pow) && NormalizedFrom(p, w)
    ensures ZipfShaped(Label(rank, p), rank, zipf, pow)
  {
    var rp := Label(rank, p);
    assert Probs(rp) == p;
    forall k | 0 <= k < |rp| ensures rp[k].1 * Sum(w) == pow((k + 1) as real, -zipf) {
      assert rp[k].1 == p[k] && p[k] * Sum(w) == w[k];
    }
  }

  /** Pairs each tally's region with the probability at its place. */
  function Label(rank: seq<Activity.Tally>, p: seq<real>): (rp: seq<(int, real)>)
    requires |p| == |rank|
    ensures |rp| == |rank| && Probs(rp) == p
    ensures forall k :: 0 <= k < |rp| ==> rp[k].0 == rank[k].region
  {
    var rp := seq(|rank|, k requires 0 <= k < |rank| => (rank[k].region, p[k]));
    assert Probs(rp) == p;
    rp
  }

  /** Every region of the rows gets exactly one Zipf probability. */
  lemma {:induction false} ZipfCoversRegions(rows: seq<GeoRow>, zipf: real, pow: (real, real) -> real, id: int)
    requires ZipfProbs(rows, zipf, pow).Ok?
    ensures (exists k :: 0 <= k < |ZipfProbs(rows, zipf, pow).value| && ZipfProbs(rows, zipf, pow).value[k].0 == id)
            <==> HasRegion(rows, id)
    ensures forall k, l :: 0 <= k < l < |ZipfProbs(rows, zipf, pow).value| ==>
              ZipfProbs(rows, zipf, pow).value[k].0 != ZipfProbs(rows, zipf, pow).value[l].0
  {
    var r := ZipfProbs(rows, zipf, pow).value;
    var rank := Ranking(rows);
    RankingOrdersRegions(rows);
    RankingCovers(rows, id);
    assert forall k :: 0 <= k < |r| ==> r[k].0 == rank[k].region;
  }

  /** pow(., e) does not grow with its base from 1 on. */
  ghost predicate Antitone(pow: (real, real) -> real, e: real)
  {
    forall x: real, y: real :: 1.0 <= x <= y ==> pow(y, e) <= pow(x, e)
  }

  /** The Zipf sampler keeps the rank of the observed regions: a region
      with more rows never gets a smaller probability. */
  lemma {:induction false} ZipfKeepsRank(rows: seq<GeoRow>, zipf: real, pow: (real, real) -> real, i: nat, j: nat)
    requires (forall x, y :: pow(x, y) > 0.0) && Antitone(pow, -zipf)
    requires ZipfProbs(rows, zipf, pow).Ok?
    requires i < |ZipfProbs(rows, zipf, pow).value| && j < |ZipfProbs(rows, zipf, pow).value|
    requires RegionSize(rows, ZipfProbs(rows, zipf, pow).value[j].0) < RegionSize(rows, ZipfProbs(rows, zipf, pow).value[i].0)
    ensures ZipfProbs(rows, zipf, pow).value[j].1 <= ZipfProbs(rows, zipf, pow).value[i].1
  {
    var rank := Ranking(rows);
    RankingOrdersRegions(rows);
    ZipfOverKeepsRank(rank, zipf, pow, i, j);
  }

  /** Over regions ranked by non-increasing count, a larger count never
      gets a smaller Zipf probability. */
  lemma {:induction false} ZipfOverKeepsRank(rank: seq<Activity.Tally>, zipf: real, pow: (real, real) -> real, i: nat, j: nat)
    requires (forall x, y :: pow(x, y) > 0.0) && Antitone(pow, -zipf)
    requires Activity.CountsDescending(rank) && ZipfOver(rank, zipf, pow).Ok?
    requires i < |rank| && j < |rank| && rank[j].count < rank[i].count
    ensures ZipfOver(rank, zipf, pow).value[j].1 <= ZipfOver(rank, zipf, pow).value[i].1
  {
    var r := ZipfOver(rank, zipf, pow).value;
    RankWeightOrder(r, rank, zipf, pow, i, j);
  }

  /** The order argument of `ZipfOverKeepsRank` over plain sequences: the
      probabilities are the rank weights over a positive total. */
  lemma {:induction false} RankWeightOrder(r: seq<(int, real)>, rank: seq<Activity.Tally>,
                                           zipf: real, pow: (real, real) -> real, i: nat, j: nat)
    requires (forall x, y :: pow(x, y) > 0.0) && Antitone(pow, -zipf) && Activity.CountsDescending(rank)
    requires ZipfShaped(r, rank, zipf, pow)
    requires i < |rank| && j < |rank| && rank[j].count < rank[i].count
    ensures r[j].1 <= r[i].1
  {
    var w := ZipfWeights(|r|, zipf, pow);
    LargerCountRanksFirst(rank, i, j);
    var x, y := (i + 1) as real, (j + 1) as real;
    assert 1.0 <= x <= y;
    ScaledOrder(r[j].1, r[i].1, Sum(w), pow(y, -zipf), pow(x, -zipf));
  }

  lemma {:induction false} LargerCountRanksFirst(rank: seq<Activity.Tally>, i: nat, j: nat)
    requires Activity.CountsDescending(rank)
    requires i < |rank| && j < |rank| && rank[j].count < rank[i].count
    ensures i < j
  {
  }

  lemma {:induction false} ScaledOrder(a: real, b: real, s: real, p: real, q: real)
    requires s > 0.0 && a * s == p && b * s == q && p <= q
    ensures a <= b
  {
  }

  function ZipfWeights(n: nat, zipf: real, pow: (real, real) -> real): (w: seq<real>)
    ensures |w| == n && forall k :: 0 <= k < n ==> w[k] == pow((k + 1) as real, -zipf)
    ensures (forall x, y :: pow(x, y) > 0.0) && n > 0 ==> Sum(w) > 0.0
  {
    var w := seq(n, k requires 0 <= k < n => pow((k + 1) as real, -zipf));
    assert (forall x, y :: pow(x, y) > 0.0) && n > 0 ==> Sum(w) > 0.0 by {
      if (forall x, y :: pow(x, y) > 0.0) && n > 0 {
        SumPositive(w);
      }
    }
    w
  }

  lemma {:induction false} PositiveEntry(c: seq<real>, i: nat)
    requires i < |c| && c[i] > 0.0 && AllNonNegative(c)
    ensures Sum(c) > 0.0
  {
    SumNonNegative(c);
    SumZeroIffAllZero(c);
  }

  // RegionTransitionZipf.fit

  /** Each row scaled to sum 1; a row summing to 0 gives pandas NaNs,
      modelled as a failure. */
  function RowNormalize(M: Matrix): (r: Result<Matrix>)
    ensures r.Err? <==> exists i :: 0 <= i < |M| && Sum(M[i]) == 0.0
    ensures r.Ok? ==> RowsNormalized(r.value, M)
  {
    if exists i :: 0 <= i < |M| && Sum(M[i]) == 0.0 then Err("row sums to zero")
    else
      var R := seq(|M|, i requires 0 <= i < |M| => Normalize(M[i]));
      assert RowsNormalized(R, M) by {
        forall i | 0 <= i < |M|
          ensures NormalizedFrom(R[i], M[i])
        {
          NormalizeFrom(M[i]);
        }
      }
      Ok(R)
  }

  /** R has M's shape, its rows sum to 1, and each row is proportional to
      M's. */
  predicate RowsNormalized(R: Matrix, M: Matrix)
  {
    |R| == |M| && forall i :: 0 <= i < |R| ==> NormalizedFrom(R[i], M[i])
  }

  /** The distance seed `exp(-beta * d) + 0.0000001`, given the
      exponentials. */
  function Seed(E: Matrix): (S: Matrix)
    ensures |S| == |E| && forall i :: 0 <= i < |S| ==>
      (|S[i]| == |E[i]| && forall j :: 0 <= j < |S[i]| ==> S[i][j] == E[i][j] + Pad)
  {
    seq(|E|, i requires 0 <= i < |E| => seq(|E[i]|, j requires 0 <= j < |E[i]| => E[i][j] + Pad))
  }

  /** Column j scaled by the region probability of region j. */
  function Weigh(S: Matrix, probs: seq<real>): (W: Matrix)
    ensures |W| == |S| && forall i :: 0 <= i < |W| ==>
      (|W[i]| == |S[i]| && forall j :: 0 <= j < |W[i]| ==> W[i][j] == (if j < |probs| then probs[j] * S[i][j] else 0.0))
  {
    seq(|S|, i requires 0 <= i < |S| => seq(|S[i]|, j requires 0 <= j < |S[i]| => if j < |probs| then probs[j] * S[i][j] else 0.0))
  }

  /** The Zipf rank probabilities of the transition sampler: the rank
      weights plus 0.0000001, normalised; no regions give none. */
  function RankProbs(n: nat, zipf: real, pow: (real, real) -> real): (r: Result<seq<real>>)
    ensures n == 0 ==> r == Ok([])
    ensures r.Ok? && n > 0 ==> NormalizedFrom(r.value, RankWeights(n, zipf, pow))
    ensures (forall x, y :: pow(x, y) >= 0.0) ==> r.Ok? && AllPositive(r.value)
  {
    var w := RankWeights(n, zipf, pow);
    if n == 0 then Ok([])
    else if AllPositive(w) then
      NormalizePositive(w);
      NormalizeFrom(w);
      Ok(Normalize(w))
    else if Sum(w) == 0.0 then Err("division by zero")
    else
      NormalizeFrom(w);
      Ok(Normalize(w))
  }

  /** Normalising positive weights gives positive probabilities. */
  lemma {:induction false} NormalizePositive(w: seq<real>)
    requires |w| > 0 && AllPositive(w)
    ensures Sum(w) > 0.0 && AllPositive(Normalize(w))
  {
    SumPositive(w);
    var r := Normalize(w);
    forall k | 0 <= k < |w| ensures r[k] > 0.0 {
      PositiveShare(r[k], Sum(w), w[k]);
    }
  }

  function RankWeights(n: nat, zipf: real, pow: (real, real) -> real): (w: seq<real>)
    ensures |w| == n && forall k :: 0 <= k < n ==> w[k] == pow((k + 1) as real, -zipf) + Pad
    ensures (forall x, y :: pow(x, y) >= 0.0) ==> AllPositive(w)
  {
    seq(n, k requires 0 <= k < n => pow((k + 1) as real, -zipf) + Pad)
  }

  /** A share x of a positive total is positive when its part is. */
  lemma {:induction false} PositiveShare(x: real, total: real, part: real)
    requires total > 0.0 && part > 0.0 && x * total == part
    ensures x > 0.0
  {
  }

  /** `RegionTransitionZipf.fit`: the seed rows normalised, weighted by
      the rank probabilities and normalised again. */
  function TransitionMatrix(E: Matrix, probs: seq<real>): (r: Result<Matrix>)
    ensures r.Ok? ==> |r.value| == |E|
    ensures r.Ok? ==> exists S :: RowsNormalized(S, Seed(E)) && RowsNormalized(r.value, Weigh(S, probs))
    ensures IsMatrix(E, |E|, |E|) && NonNegativeMatrix(E) && |probs| == |E| && AllPositive(probs) ==> r.Ok?
  {
    var S := RowNormalize(Seed(E));
    assert IsMatrix(E, |E|, |E|) && NonNegativeMatrix(E) ==> S.Ok? by {
      if IsMatrix(E, |E|, |E|) && NonNegativeMatrix(E) {
        SeedRowsPositive(E);
      }
    }
    if S.Err? then Err(S.msg)
    else
      var r := RowNormalize(Weigh(S.value, probs));
      assert IsMatrix(E, |E|, |E|) && NonNegativeMatrix(E) && |probs| == |E| && AllPositive(probs) ==> r.Ok? by {
        if IsMatrix(E, |E|, |E|) && NonNegativeMatrix(E) && |probs| == |E| && AllPositive(probs) {
          TransitionRowsPositive(E, S.value, probs);
        }
      }
      r
  }

  /** With non-negative exponentials and positive rank probabilities no
      row sums to zero, so the transition matrix exists and every row is
      a probability distribution. */
  lemma {:induction false} TransitionRowsPositive(E: Matrix, S: Matrix, probs: seq<real>)
    requires IsMatrix(E, |E|, |E|) && NonNegativeMatrix(E) && |probs| == |E| && AllPositive(probs)
    requires RowsNormalized(S, Seed(E))
    ensures forall i :: 0 <= i < |S| ==> Sum(Weigh(S, probs)[i]) > 0.0
  {
    var W := Weigh(S, probs);
    forall i | 0 <= i < |S| ensures Sum(W[i]) > 0.0 {
      var seedRow := Seed(E)[i];
      assert NormalizedFrom(S[i], seedRow);
      assert AllPositive(seedRow);
      SumPositive(seedRow);
      forall j | 0 <= j < |W[i]| ensures W[i][j] > 0.0 {
        PositiveShare(S[i][j], Sum(seedRow), seedRow[j]);
        ProductPositive(probs[j], S[i][j]);
      }
      assert AllPositive(W[i]);
      SumPositive(W[i]);
    }
  }

  lemma {:induction false} SeedRowsPositive(E: Matrix)
    requires IsMatrix(E, |E|, |E|) && NonNegativeMatrix(E)
    ensures forall i :: 0 <= i < |E| ==> Sum(Seed(E)[i]) > 0.0
  {
    forall i | 0 <= i < |E| ensures Sum(Seed(E)[i]) > 0.0 {
      var row := Seed(E)[i];
      assert AllPositive(row);
      SumPositive(row);
    }
  }

  /** The fitted region ids in ascending order: the index after
      `sort_index()`. */
  function RegionIds(rows: seq<GeoRow>): (ids: seq<int>)
    ensures StrictlyIncreasing(ids)
    ensures forall id :: id in ids <==> HasRegion(rows, id)
  {
    var rs := seq(|rows|, i requires 0 <= i < |rows| => rows[i].region);
    assert forall id :: id in rs <==> HasRegion(rows, id) by {
      forall id | HasRegion(rows, id) ensures id in rs {
        var i :| 0 <= i < |rows| && rows[i].region == id;
        assert rs[i] == id;
      }
    }
    SortedDistinct(rs)
  }

  /** The fitted regions' rows in ascending id order:
      `head(1).set_index('region').sort_index()`. */
  function RegionsById(rows: seq<GeoRow>): (rs: seq<GeoRow>)
    ensures |rs| == |RegionIds(rows)|
    ensures forall j :: 0 <= j < |rs| ==> rs[j].region == RegionIds(rows)[j] && rs[j] in FirstRows(rows)
  {
    var ids, f := RegionIds(rows), FirstRows(rows);
    assert forall j :: 0 <= j < |ids| ==> FindRegion(f, ids[j]).Some? by {
      forall j | 0 <= j < |ids| ensures FindRegion(f, ids[j]).Some? {
        assert ids[j] in ids;
        FirstRowsRegions(rows, ids[j]);
      }
    }
    seq(|ids|, j requires 0 <= j < |ids| => FindRegion(f, ids[j]).value)
  }

  /** `exp(-beta * distances_km)` over region rows, given the decay of
      each pair. */
  function DecayMatrix(rs: seq<GeoRow>, decay: (GeoRow, GeoRow) -> real): (E: Matrix)
    ensures IsMatrix(E, |rs|, |rs|)
    ensures forall i, j :: 0 <= i < |rs| && 0 <= j < |rs| ==> E[i][j] == decay(rs[i], rs[j])
  {
    seq(|rs|, i requires 0 <= i < |rs| => seq(|rs|, j requires 0 <= j < |rs| => decay(rs[i], rs[j])))
  }

  /** The probability the ranking gives region id: rp's entry at the
      place of id in the ranking, 0 when id is not ranked. */
  function RankedProb(rank: seq<Activity.Tally>, rp: seq<real>, id: int): (p: real)
    requires |rp| == |rank|
    ensures Activity.DistinctRegions(rank) ==> forall k :: 0 <= k < |rank| && rank[k].region == id ==> p == rp[k]
    ensures (exists k :: 0 <= k < |rank| && rank[k].region == id) ==> p in rp
    decreases |rank|
  {
    if |rank| == 0 then 0.0
    else if rank[0].region == id then rp[0]
    else
      assert forall k :: 1 <= k < |rank| ==> rank[k] == rank[1..][k - 1] && rp[k] == rp[1..][k - 1];
      RankedProb(rank[1..], rp[1..], id)
  }

  /** The rank probabilities keyed by region id, in ascending id order:
      `pd.Series(region_probs, index=region_counts.index).sort_index()`. */
  function ColumnProbs(rows: seq<GeoRow>, zipf: real, pow: (real, real) -> real): (r: Result<seq<real>>)
    ensures r.Err? <==> RankProbs(|Ranking(rows)|, zipf, pow).Err?
    ensures r.Ok? ==> |r.value| == |RegionIds(rows)|
    ensures r.Ok? ==> forall j, k :: 0 <= j < |r.value| && 0 <= k < |Ranking(rows)| && Ranking(rows)[k].region == RegionIds(rows)[j]
                        ==> r.value[j] == RankProbs(|Ranking(rows)|, zipf, pow).value[k]
    ensures (forall x, y :: pow(x, y) >= 0.0) ==> r.Ok? && AllPositive(r.value)
  {
    var rank, ids := Ranking(rows), RegionIds(rows);
    var rp := RankProbs(|rank|, zipf, pow);
    if rp.Err? then Err(rp.msg)
    else
      var p := seq(|ids|, j requires 0 <= j < |ids| => RankedProb(rank, rp.value, ids[j]));
      RankingOrdersRegions(rows);
      assert (forall x, y :: pow(x, y) >= 0.0) ==> AllPositive(p) by {
        if forall x, y :: pow(x, y) >= 0.0 {
          forall j | 0 <= j < |ids| ensures p[j] > 0.0 {
            assert ids[j] in ids;
            RankingCovers(rows, ids[j]);
          }
        }
      }
      Ok(p)
  }

  /** The transition sampler keeps the rank of the observed regions: a
      region with more rows never gets a smaller column weight. */
  lemma {:induction false} ColumnProbsKeepRank(rows: seq<GeoRow>, zipf: real, pow: (real, real) -> real, j1: nat, j2: nat)
    requires (forall x, y :: pow(x, y) >= 0.0) && Antitone(pow, -zipf)
    requires j1 < |RegionIds(rows)| && j2 < |RegionIds(rows)|
    requires RegionSize(rows, RegionIds(rows)[j2]) < RegionSize(rows, RegionIds(rows)[j1])
    ensures ColumnProbs(rows, zipf, pow).value[j2] <= ColumnProbs(rows, zipf, pow).value[j1]
  {
    var rank, ids := Ranking(rows), RegionIds(rows);
    assert ids[j1] in ids && ids[j2] in ids;
    RankingOrdersRegions(rows);
    RankingCovers(rows, ids[j1]);
    RankingCovers(rows, ids[j2]);
    var k1 :| 0 <= k1 < |rank| && rank[k1].region == ids[j1];
    var k2 :| 0 <= k2 < |rank| && rank[k2].region == ids[j2];
    LargerCountRanksFirst(rank, k1, k2);
    RankProbsOrder(|rank|, zipf, pow, k1, k2);
  }

  /** A later rank never gets a larger transition rank probability. */
  lemma {:induction false} RankProbsOrder(n: nat, zipf: real, pow: (real, real) -> real, k1: nat, k2: nat)
    requires (forall x, y :: pow(x, y) >= 0.0) && Antitone(pow, -zipf)
    requires k1 <= k2 < n
    ensures RankProbs(n, zipf, pow).value[k2] <= RankProbs(n, zipf, pow).value[k1]
  {
    var rp, w := RankProbs(n, zipf, pow).value, RankWeights(n, zipf, pow);
    assert NormalizedFrom(rp, w);
    SumPositive(w);
    var x, y := (k1 + 1) as real, (k2 + 1) as real;
    assert 1.0 <= x <= y;
    assert w[k2] <= w[k1] by {
      assert pow(y, -zipf) <= pow(x, -zipf);
    }
    NormalizedOrder(rp, w, k1, k2);
  }

  /** Scaling to sum 1 keeps the order of two entries. */
  lemma {:induction false} NormalizedOrder(p: seq<real>, w: seq<real>, k1: nat, k2: nat)
    requires NormalizedFrom(p, w) && Sum(w) > 0.0
    requires k1 < |p| && k2 < |p| && w[k2] <= w[k1]
    ensures p[k2] <= p[k1]
  {
    ScaledOrder(p[k2], p[k1], Sum(w), w[k2], w[k1]);
  }

  /** `RegionTransitionZipf.fit` over a user's rows: the decay seed over
      the regions in id order, each column weighted by its region's rank
      probability, and the rows normalised. */
  function TransitionFit(rows: seq<GeoRow>, zipf: real, pow: (real, real) -> real, decay: (GeoRow, GeoRow) -> real): (r: Result<Matrix>)
    ensures r.Err? <==> (ColumnProbs(rows, zipf, pow).Err?
                         || TransitionMatrix(DecayMatrix(RegionsById(rows), decay), ColumnProbs(rows, zipf, pow).value).Err?)
    ensures r.Ok? ==> r == TransitionMatrix(DecayMatrix(RegionsById(rows), decay), ColumnProbs(rows, zipf, pow).value)
    ensures (forall x, y :: pow(x, y) >= 0.0) && (forall a, b :: decay(a, b) >= 0.0) ==> r.Ok?
  {
    var p := ColumnProbs(rows, zipf, pow);
    if p.Err? then Err(p.msg)
    else TransitionMatrix(DecayMatrix(RegionsById(rows), decay), p.value)
  }

  // The sampler

  /** How many trips a day gets. */
  datatype DailyCount = Static(n: int) | Normal(mean: real, std: real) | Weighted

  datatype SamplerConfig = SamplerConfig(model: Config, daily: DailyCount, nDays: nat)

  /** `Sampler.__init__`: the model is required; the daily count defaults
      to a static 4. */
  function NewSampler(model: Option<Config>, daily: Option<DailyCount>, nDays: nat): (r: Result<SamplerConfig>)
    ensures r.Err? <==> model.None?
    ensures r.Ok? ==> r.value.model == model.value && r.value.nDays == nDays
    ensures r.Ok? ==> r.value.daily == (if daily.None? then Static(4) else daily.value)
  {
    if model.None? then Err("model must be set")
    else Ok(SamplerConfig(model.value, if daily.None? then Static(4) else daily.value, nDays))
  }

  /** A day's trip count for the distribution's draw (the normal sample,
      or the uniform draw of the weighted choice); `range` of a negative
      count is empty. */
  function DailyTrips(dc: DailyCount, draw: real): (n: nat)
    ensures dc.Normal? ==> n >= 1
    ensures dc.Weighted? ==> 2 <= n <= 27
    ensures dc.Static? ==> n == (if dc.n < 0 then 0 else dc.n)
  {
    match dc
    case Static(k) => if k < 0 then 0 else k
    case Normal(_, _) => NormalCount(draw)
    case Weighted => WeightedCount(draw)
  }

  /** A row of the tweets frame with the user id it is indexed by. */
  datatype UserTweet = UserTweet(user: int, row: GeoRow)

  /** `tweets.index.unique()`: the user ids in order of first appearance. */
  function Users(tweets: seq<UserTweet>): (us: seq<int>)
    ensures Distinct(us)
    ensures forall u :: u in us <==> exists i :: 0 <= i < |tweets| && tweets[i].user == u
  {
    var ids := seq(|tweets|, i requires 0 <= i < |tweets| => tweets[i].user);
    assert forall u :: u in ids <==> exists i :: 0 <= i < |tweets| && tweets[i].user == u by {
      forall u | u in ids ensures exists i :: 0 <= i < |tweets| && tweets[i].user == u {
        var i :| 0 <= i < |ids| && ids[i] == u;
        assert tweets[i].user == u;
      }
      forall u | exists i :: 0 <= i < |tweets| && tweets[i].user == u ensures u in ids {
        var i :| 0 <= i < |tweets| && tweets[i].user == u;
        assert ids[i] == u;
      }
    }
    FirstAppearances(ids)
  }

  /** `tweets.loc[uid]`: the rows of user u, in frame order. */
  function UserRows(tweets: seq<UserTweet>, u: int): (rows: seq<GeoRow>)
    ensures forall g :: g in rows <==> UserTweet(u, g) in tweets
    decreases |tweets|
  {
    if |tweets| == 0 then []
    else
      var last := tweets[|tweets| - 1];
      assert forall t :: t in tweets <==> t in tweets[..|tweets| - 1] || t == last by {
        assert tweets == tweets[..|tweets| - 1] + [last];
      }
      UserRows(tweets[..|tweets| - 1], u) + (if last.user == u then [last.row] else [])
  }

  /** The mask that keeps user u's sampled rows. */
  function OfUser(u: int): SampleRow -> bool
  {
    (x: SampleRow) => x.user == u
  }

  /** Every row sampled for a user carries that user's id. */
  lemma {:induction false} SampleUserOwnRows(c: Config, rows: seq<GeoRow>, uid: int, days: seq<seq<Draw>>, env: Env)
    requires SampleUser(c, rows, uid, days, env).Ok?
    ensures forall x :: x in SampleUser(c, rows, uid, days, env).value ==> x.user == uid
  {
    var out := SampleUser(c, rows, uid, days, env).value;
    forall x | x in out ensures x.user == uid {
      var i :| 0 <= i < |out| && out[i] == x;
    }
  }

  /** The per-user frames of users us, one after the other, as
      `pd.concat` joins them; one user's failure fails the whole. */
  function JoinUsers(us: seq<int>, one: int -> Result<seq<SampleRow>>): (r: Result<seq<SampleRow>>)
    ensures r.Ok? <==> forall i :: 0 <= i < |us| ==> one(us[i]).Ok?
    decreases |us|
  {
    if |us| == 0 then Ok([])
    else
      var init, v := us[..|us| - 1], us[|us| - 1];
      var front := JoinUsers(init, one);
      assert forall i :: 0 <= i < |init| ==> init[i] == us[i];
      if front.Err? then front
      else if one(v).Err? then Err(one(v).msg)
      else Ok(front.value + one(v).value)
  }

  /** When each user's frame holds only that user's rows, and the users
      are distinct, the rows of user u in the joined frames are exactly
      u's own frame, and none when u is not among them. */
  lemma {:induction false} JoinUsersOfUser(us: seq<int>, one: int -> Result<seq<SampleRow>>, u: int)
    requires Distinct(us) && JoinUsers(us, one).Ok?
    requires forall i, x :: 0 <= i < |us| && one(us[i]).Ok? && x in one(us[i]).value ==> x.user == us[i]
    ensures Filter(JoinUsers(us, one).value, OfUser(u)) == if u in us then one(u).value else []
    decreases |us|
  {
    if |us| == 0 {
      FilterNone([], OfUser(u));
    } else {
      var init, v := us[..|us| - 1], us[|us| - 1];
      assert us == init + [v];
      assert forall i :: 0 <= i < |init| ==> init[i] == us[i];
      JoinUsersOfUser(init, one, u);
      var front, last := JoinUsers(init, one).value, one(v).value;
      FilterConcat(front, last, OfUser(u));
      if u == v {
        FilterKeepsAll(last, OfUser(u));
      } else {
        FilterNone(last, OfUser(u));
      }
    }
  }

  /** Sampling user u on their own rows, drawing `draws(u)`. */
  function UserSampler(c: Config, tweets: seq<UserTweet>, draws: int -> seq<seq<Draw>>, env: Env): int -> Result<seq<SampleRow>>
  {
    u => SampleUser(c, UserRows(tweets, u), u, draws(u), env)
  }

  /** `Sampler.sample`: the tweets are required; then every user of the
      tweets is sampled on their own rows, user u drawing `draws(u)`, and
      the users' frames are joined in order of first appearance.
      `pd.concat` of no frames raises, so tweets without rows fail. */
  function Sample(c: Config, tweets: Option<seq<UserTweet>>, draws: int -> seq<seq<Draw>>, env: Env): (r: Result<seq<SampleRow>>)
    ensures tweets.None? ==> r.Err?
    ensures tweets == Some([]) ==> r == Err("No objects to concatenate")
    ensures tweets.Some? ==>
              (r.Ok? <==> |Users(tweets.value)| > 0
                          && forall u :: u in Users(tweets.value) ==> SampleUser(c, UserRows(tweets.value, u), u, draws(u), env).Ok?)
  {
    if tweets.None? then Err("must set tweets when sampling")
    else
      var us := Users(tweets.value);
      UsersOfNone(tweets.value);
      if |us| == 0 then Err("No objects to concatenate")
      else
        var one := UserSampler(c, tweets.value, draws, env);
        JoinUsersOk(us, one);
        JoinUsers(us, one)
  }

  /** Joining succeeds iff every user's frame does. */
  lemma JoinUsersOk(us: seq<int>, one: int -> Result<seq<SampleRow>>)
    ensures JoinUsers(us, one).Ok? <==> forall u :: u in us ==> one(u).Ok?
  {
    assert forall u :: u in us ==> exists i :: 0 <= i < |us| && us[i] == u;
  }

  /** Tweets without rows have no users. */
  lemma UsersOfNone(tweets: seq<UserTweet>)
    ensures |Users(tweets)| == 0 <==> |tweets| == 0
  {
    var us := Users(tweets);
    if |us| > 0 {
      assert us[0] in us;
    }
    if |tweets| > 0 {
      assert tweets[0].user in us;
    }
  }

  /** Each user's rows in the sample are exactly what sampling that user
      alone gives, in the same order, and no other user appears: joining
      the per-user frames loses, adds and reorders nothing of any user. */
  lemma {:induction false} SampleKeepsEachUser(c: Config, tweets: seq<UserTweet>, draws: int -> seq<seq<Draw>>, env: Env, u: int)
    requires Sample(c, Some(tweets), draws, env).Ok?
    ensures u in Users(tweets) ==>
              Filter(Sample(c, Some(tweets), draws, env).value, OfUser(u)) == SampleUser(c, UserRows(tweets, u), u, draws(u), env).value
    ensures u !in Users(tweets) ==> Filter(Sample(c, Some(tweets), draws, env).value, OfUser(u)) == []
  {
    var us, one := Users(tweets), UserSampler(c, tweets, draws, env);
    forall i, x | 0 <= i < |us| && one(us[i]).Ok? && x in one(us[i]).value ensures x.user == us[i] {
      SampleUserOwnRows(c, UserRows(tweets, us[i]), us[i], draws(us[i]), env);
    }
    JoinUsersOfUser(us, one, u);
  }


  /** Under the survey distribution a day has 3 to 28 rows: home and
      2 to 27 trips. */
  lemma {:induction false} WeightedDayRows(days: seq<seq<Draw>>, draws: seq<real>)
    requires |draws| == |days|
    requires forall d :: 0 <= d < |days| ==> |days[d]| == DailyTrips(Weighted, draws[d])
    ensures 3 * |days| <= |days| + TotalSteps(StepCounts(days)) <= 28 * |days|
    decreases |days|
  {
    if |days| > 0 {
      assert |days[0]| == DailyTrips(Weighted, draws[0]);
      StepCountsTail(days);
      WeightedDayRows(days[1..], draws[1..]);
    }
  }

  // JumpSizeDirectionTrueProb

  /** One consecutive pair of fitting rows. */
  datatype Gap = Gap(origin: GeoRow, destination: GeoRow)

  /** `gaps`: row i paired with row i + 1. */
  function Gaps(rows: seq<GeoRow>): (g: seq<Gap>)
    ensures |rows| > 0 ==> |g| == |rows| - 1
    ensures |rows| == 0 ==> g == []
    ensures forall i :: 0 <= i < |g| ==> g[i] == Gap(rows[i], rows[i + 1])
  {
    if |rows| == 0 then [] else seq(|rows| - 1, i requires 0 <= i < |rows| - 1 => Gap(rows[i], rows[i + 1]))
  }

  /** The gaps between different regions, in order. */
  function Moves(g: seq<Gap>): (m: seq<Gap>)
    ensures |m| <= |g|
    decreases |g|
  {
    if |g| == 0 then []
    else (if g[0].origin.region != g[0].destination.region then [g[0]] else []) + Moves(g[1..])
  }

  /** The moves are exactly the gaps between different regions. */
  lemma {:induction false} MovesMembers(g: seq<Gap>, x: Gap)
    ensures x in Moves(g) <==> x in g && x.origin.region != x.destination.region
    decreases |g|
  {
    if |g| > 0 {
      MovesMembers(g[1..], x);
      assert g == [g[0]] + g[1..];
      assert x in g <==> x == g[0] || x in g[1..];
    }
  }

  /** `JumpSizeDirectionTrueProb.sample` for the drawn index, over the
      fitted moves: the bearing and the jump of one move, in metres; no
      moves means `randint(0)` fails. */
  function SampleBearingJump(m: seq<Gap>, bearing: (GeoRow, GeoRow) -> real, km: (GeoRow, GeoRow) -> real, idx: nat): (r: Result<(real, real)>)
    ensures r.Err? <==> |m| == 0
  {
    if |m| == 0 then Err("high <= 0")
    else
      var g := m[idx % |m|];
      Ok((bearing(g.origin, g.destination), km(g.origin, g.destination) * 1000.0))
  }

  /** A sampled bearing and jump are those of one of the moves, the jump
      in metres. */
  lemma {:induction false} BearingJumpOfMove(m: seq<Gap>, bearing: (GeoRow, GeoRow) -> real, km: (GeoRow, GeoRow) -> real, idx: nat, v: (real, real))
    requires SampleBearingJump(m, bearing, km, idx) == Ok(v)
    ensures exists g :: g in m && v == (bearing(g.origin, g.destination), km(g.origin, g.destination) * 1000.0)
  {
    var g := m[idx % |m|];
    assert v == (bearing(g.origin, g.destination), km(g.origin, g.destination) * 1000.0);
  }

  /** The fitted moves are the gaps between consecutive rows of
      different regions. */
  lemma {:induction false} FittedMoves(c: Config, rows: seq<GeoRow>, pow: (real, real) -> real, g: Gap)
    requires Fit(c, rows, pow).Ok?
    ensures g in Fit(c, rows, pow).value.moves <==>
              exists i :: 0 <= i < |rows| - 1 && g == Gap(rows[i], rows[i + 1]) && rows[i].region != rows[i + 1].region
  {
    MovesMembers(Gaps(rows), g);
    if g in Fit(c, rows, pow).value.moves {
      var i :| 0 <= i < |Gaps(rows)| && Gaps(rows)[i] == g;
    }
    if exists i :: 0 <= i < |rows| - 1 && g == Gap(rows[i], rows[i + 1]) && rows[i].region != rows[i + 1].region {
      var i :| 0 <= i < |rows| - 1 && g == Gap(rows[i], rows[i + 1]) && rows[i].region != rows[i + 1].region;
      assert Gaps(rows)[i] == g;
    }
  }
}

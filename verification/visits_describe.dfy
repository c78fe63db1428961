/** The trip statistics of src/py/multi-region-visits-describe.py. A
    user's generated visits are numbered by day (a new day starts at every
    row of time slot 0), and every day is read as a closed tour: each
    visit travels to the next one and the last travels back to the first. */
module VisitsDescribe {
  import opened Common

  datatype VisitRow = VisitRow(timeslot: int, lat: real, lng: real)

  /** `MultiRegionVisitsDesc.__init__`: a region, a non-zero run id and an
      existing visits file, checked in that order. The defaults `None`
      fail the `not` tests exactly as `""` and `0` do, so they are given
      as those values. */
  function NewDescriber(region: string, runid: int, visitsExist: bool): (r: Result<(string, int)>)
    ensures r.Err? <==> |region| == 0 || runid == 0 || !visitsExist
    ensures |region| == 0 ==> r == Err("A valid region must be specified!")
    ensures r.Ok? ==> r.value == (region, runid)
  {
    if |region| == 0 then Err("A valid region must be specified!")
    else if runid == 0 then Err("A valid runid must be specified!")
    else if !visitsExist then Err("The visits file of the input region does not exist.")
    else Ok((region, runid))
  }

  /** Number of rows that open a day (time slot 0). */
  function Starts(rows: seq<VisitRow>): nat
  {
    if |rows| == 0 then 0 else Starts(rows[..|rows| - 1]) + (if rows[|rows| - 1].timeslot == 0 then 1 else 0)
  }

  /** `user_proc`: the k-th row of time slot 0 gets day k and every other
      row the day of the last such row before it. Rows before the first
      day have no number, and the cast to integers fails on them. */
  method DayNumbers(rows: seq<VisitRow>) returns (r: Result<seq<nat>>)
    ensures r.Err? <==> |rows| > 0 && rows[0].timeslot != 0
    ensures r.Ok? ==> |r.value| == |rows|
    ensures r.Ok? ==> forall i :: 0 <= i < |rows| ==> r.value[i] == Starts(rows[..i + 1]) && r.value[i] >= 1
  {
    if |rows| > 0 && rows[0].timeslot != 0 {
      return Err("Cannot convert non-finite values (NA or inf) to integer");
    }
    var out: seq<nat> := [];
    var day: nat := 0;
    var i := 0;
    while i < |rows|
      invariant 0 <= i <= |rows| && |out| == i
      invariant day == Starts(rows[..i])
      invariant i > 0 ==> day >= 1
      invariant forall k :: 0 <= k < i ==> out[k] == Starts(rows[..k + 1]) && out[k] >= 1
    {
      assert rows[..i + 1][..i] == rows[..i];
      if rows[i].timeslot == 0 {
        day := day + 1;
      }
      out := out + [day];
      i := i + 1;
    }
    return Ok(out);
  }

  /** Day numbers never decrease along the rows. */
  lemma {:induction false} StartsMonotone(rows: seq<VisitRow>, i: nat, j: nat)
    requires i <= j <= |rows|
    ensures Starts(rows[..i]) <= Starts(rows[..j])
    decreases j - i
  {
    if i < j {
      StartsMonotone(rows, i, j - 1);
      assert rows[..j][..j - 1] == rows[..j - 1];
    }
  }

  /** A row's day is its predecessor's, plus one exactly when the row is
      at time slot 0: the rows of one day are consecutive. */
  lemma {:induction false} StartsStep(rows: seq<VisitRow>, i: nat)
    requires i + 1 < |rows|
    ensures Starts(rows[..i + 2]) == Starts(rows[..i + 1]) + (if rows[i + 1].timeslot == 0 then 1 else 0)
  {
    assert rows[..i + 2][..i + 1] == rows[..i + 1];
  }

  /** Every group is non-empty, every group but possibly the first opens
      with a row of time slot 0, and no other row of a group is at time
      slot 0. */
  predicate DayGroups(ds: seq<seq<VisitRow>>)
  {
    (forall k :: 0 <= k < |ds| ==> |ds[k]| > 0)
    && (forall k :: 0 < k < |ds| ==> ds[k][0].timeslot == 0)
    && (forall k, m :: 0 <= k < |ds| && 0 < m < |ds[k]| ==> ds[k][m].timeslot != 0)
  }

  /** The rows of each day, in order. */
  function Days(rows: seq<VisitRow>): (ds: seq<seq<VisitRow>>)
    ensures Concat(ds) == rows
    ensures DayGroups(ds)
  {
    if |rows| == 0 then []
    else
      var init := Days(rows[..|rows| - 1]);
      var last := rows[|rows| - 1];
      assert rows == rows[..|rows| - 1] + [last];
      if last.timeslot == 0 || |init| == 0 then
        NewDay(init, last);
        init + [[last]]
      else
        SameDay(init, last);
        init[..|init| - 1] + [init[|init| - 1] + [last]]
  }

  /** A row at time slot 0, or the very first row, opens a new group. */
  lemma {:induction false} NewDay(init: seq<seq<VisitRow>>, last: VisitRow)
    requires DayGroups(init) && (last.timeslot == 0 || |init| == 0)
    ensures Concat(init + [[last]]) == Concat(init) + [last]
    ensures DayGroups(init + [[last]])
  {
    var ds := init + [[last]];
    assert ds[..|ds| - 1] == init;
  }

  /** Any other row joins the last group. */
  lemma {:induction false} SameDay(init: seq<seq<VisitRow>>, last: VisitRow)
    requires DayGroups(init) && last.timeslot != 0 && |init| > 0
    ensures Concat(init[..|init| - 1] + [init[|init| - 1] + [last]]) == Concat(init) + [last]
    ensures DayGroups(init[..|init| - 1] + [init[|init| - 1] + [last]])
  {
    var front := init[..|init| - 1];
    var ds := front + [init[|init| - 1] + [last]];
    assert ds[..|ds| - 1] == front;
    assert init == front + [init[|init| - 1]];
    forall k, m | 0 <= k < |ds| && 0 < m < |ds[k]|
      ensures ds[k][m].timeslot != 0
    {
      if k < |ds| - 1 {
        assert ds[k] == init[k];
      } else if m < |init[k]| {
        assert ds[k][m] == init[k][m];
      }
    }
  }

  /** When the first row opens a day there are as many groups as rows of
      time slot 0, which is the number of distinct day numbers. */
  lemma {:induction false} DaysCount(rows: seq<VisitRow>)
    requires |rows| > 0 ==> rows[0].timeslot == 0
    ensures |Days(rows)| == Starts(rows)
    ensures forall k :: 0 <= k < |Days(rows)| ==> Days(rows)[k][0].timeslot == 0
    decreases |rows|
  {
    if |rows| > 0 {
      var init := rows[..|rows| - 1];
      var last := rows[|rows| - 1];
      DaysCount(init);
      var di: seq<seq<VisitRow>> := Days(init);
      var ds: seq<seq<VisitRow>> := Days(rows);
      if |init| == 0 {
        assert rows == [rows[0]];
      } else if last.timeslot == 0 {
        assert ds == di + [[last]];
      } else {
        assert ds == di[..|di| - 1] + [di[|di| - 1] + [last]];
        forall k | 0 <= k < |ds| ensures ds[k][0].timeslot == 0 {
          if k < |di| - 1 {
            assert ds[k] == di[k];
          } else {
            assert ds[k][0] == di[|di| - 1][0];
          }
        }
      }
    }
  }

  /** Where each visit travels to: the next visit, and the first one for
      the last. The destinations are the same day started one visit
      later. */
  function Destinations(ps: seq<VisitRow>): (d: seq<VisitRow>)
    ensures |d| == |ps|
    ensures forall i :: 0 <= i < |ps| - 1 ==> d[i] == ps[i + 1]
    ensures |ps| > 0 ==> d[|ps| - 1] == ps[0]
    ensures forall i :: 0 <= i < |ps| ==> d[i] == ps[(i + 1) % |ps|]
  {
    if |ps| == 0 then []
    else
      var d := ps[1..] + ps[..1];
      assert forall i :: 0 <= i < |ps| ==> d[i] == ps[(i + 1) % |ps|] by {
        forall i | 0 <= i < |ps| ensures d[i] == ps[(i + 1) % |ps|] {
          if i < |ps| - 1 {
            assert (i + 1) % |ps| == i + 1;
          } else {
            assert (i + 1) % |ps| == 0;
          }
        }
      }
      d
  }

  /** The destinations are the day's own visits, rearranged. */
  lemma {:induction false} DestinationsPermute(ps: seq<VisitRow>)
    ensures multiset(Destinations(ps)) == multiset(ps)
  {
    if |ps| > 0 {
      assert Destinations(ps) == ps[1..] + ps[..1];
      assert ps == ps[..1] + ps[1..];
    }
  }

  /** The length of every leg of the tour. */
  function Legs(ps: seq<VisitRow>, dist: (real, real, real, real) -> real): (l: seq<real>)
    ensures |l| == |ps|
  {
    var d := Destinations(ps);
    seq(|ps|, i requires 0 <= i < |ps| => dist(ps[i].lat, ps[i].lng, d[i].lat, d[i].lng))
  }

  /** `user_day_proc`'s result. The inland columns repeat the totals: the
      domestic test is commented out. */
  datatype Stats = Stats(pkt: real, numTrip: nat, pktInland: real, numTripInland: nat)

  /** `user_day_proc`. An empty group cannot be reshaped. */
  function DayStats(ps: seq<VisitRow>, dist: (real, real, real, real) -> real): (r: Result<Stats>)
    ensures r.Err? <==> |ps| == 0
    ensures r.Ok? ==> r.value.numTrip == |ps| && r.value.numTripInland == r.value.numTrip
    ensures r.Ok? ==> r.value.pktInland == r.value.pkt
    ensures r.Ok? ==> r.value.pkt == Sum(Legs(ps, dist))
  {
    if |ps| == 0 then Err("cannot reshape array of size 0 into shape (1,1)")
    else
      var total := Sum(Legs(ps, dist));
      Ok(Stats(total, |ps|, total, |ps|))
  }

  /** A tour is the same tour from any starting visit: rotating the day
      leaves the distance travelled unchanged. */
  lemma {:induction false} TourRotationInvariant(ps: seq<VisitRow>, dist: (real, real, real, real) -> real)
    requires |ps| > 0
    ensures DayStats(Destinations(ps), dist) == DayStats(ps, dist)
  {
    var l := Legs(ps, dist);
    var q := Destinations(ps);
    var rl := Legs(q, dist);
    var n := |ps|;
    assert rl == l[1..] + l[..1] by {
      forall i | 0 <= i < n ensures rl[i] == (l[1..] + l[..1])[i] {
        if i < n - 1 {
          assert (l[1..] + l[..1])[i] == l[i + 1];
          if i + 1 < n - 1 {
            assert Destinations(q)[i] == q[i + 1] == ps[i + 2];
          } else {
            assert Destinations(q)[i] == q[i + 1] == ps[0];
          }
        } else {
          assert (l[1..] + l[..1])[i] == l[0];
          assert Destinations(q)[i] == q[0];
        }
      }
    }
    SumConcat(l[1..], l[..1]);
    SumConcat(l[..1], l[1..]);
    assert l == l[..1] + l[1..];
  }

  /** With a non-negative distance the day's distance is non-negative; a
      day of one visit travels from that visit to itself. */
  lemma {:induction false} DayDistanceBounds(ps: seq<VisitRow>, dist: (real, real, real, real) -> real)
    requires |ps| > 0
    requires forall a, b, c, d :: dist(a, b, c, d) >= 0.0
    ensures DayStats(ps, dist).value.pkt >= 0.0
    ensures |ps| == 1 ==> DayStats(ps, dist).value.pkt == dist(ps[0].lat, ps[0].lng, ps[0].lat, ps[0].lng)
  {
    var l := Legs(ps, dist);
    assert AllNonNegative(l);
    SumNonNegative(l);
    if |ps| == 1 {
      assert l == [l[0]];
      SumSingleton(l[0]);
    }
  }
}

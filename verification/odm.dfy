/** The coordinate origin-destination matrix of `from_trips` in
    src/py/odm.py, which is also `latlngodm_from_trips` of lib/helpers.py
    and src/py/mscthesis.py: trips grouped by their four coordinates and
    counted by user id. */
module Odm {
  import opened Common
  import opened Trips

  /** The grouping key: origin and destination coordinates. */
  datatype OdKey = OdKey(latO: real, lngO: real, latD: real, lngD: real)

  /** A trip as the grouping sees it: its user id and its key, absent
      when a coordinate or the user is missing (pandas drops a group key
      holding a missing value; `count` skips a missing user id). */
  datatype OdRow = OdRow(user: Option<int>, key: Option<OdKey>)

  function RowOfTrip(t: Trip): OdRow
  {
    OdRow(Some(t.user), Some(OdKey(t.origin.lat, t.origin.lng, t.destination.lat, t.destination.lng)))
  }

  /** A 'missed' row has no destination, so it falls in no group. */
  function RowOfMorningTrip(m: MorningTrip): (r: OdRow)
    ensures r.key.Some? <==> m.destinationLat.Some? && m.destinationLng.Some?
  {
    OdRow(Some(m.user),
          if m.destinationLat.Some? && m.destinationLng.Some?
          then Some(OdKey(m.originLat, m.originLng, m.destinationLat.value, m.destinationLng.value))
          else None)
  }

  /** One output row: a key and its count. */
  datatype OdCount = OdCount(key: OdKey, count: nat)

  /** The keys that are present, in row order. */
  function PresentKeys(rows: seq<OdRow>): (ks: seq<OdKey>)
    ensures forall k :: k in ks <==> exists j :: 0 <= j < |rows| && rows[j].key == Some(k)
    decreases |rows|
  {
    if |rows| == 0 then []
    else
      var front := PresentKeys(rows[..|rows| - 1]);
      assert forall j :: 0 <= j < |rows| - 1 ==> rows[..|rows| - 1][j] == rows[j];
      var x := rows[|rows| - 1];
      if x.key.Some? then front + [x.key.value] else front
  }

  /** Rows of group k that carry a user id: what `count` reports. */
  function GroupCount(rows: seq<OdRow>, k: OdKey): nat
    decreases |rows|
  {
    if |rows| == 0 then 0
    else
      var x := rows[|rows| - 1];
      GroupCount(rows[..|rows| - 1], k) + (if x.key == Some(k) && x.user.Some? then 1 else 0)
  }

  /** Whether a row is counted at all. */
  predicate Counted(x: OdRow)
  {
    x.key.Some? && x.user.Some?
  }

  /** Rows with a key and a user id. */
  function CountedRows(rows: seq<OdRow>): nat
    decreases |rows|
  {
    if |rows| == 0 then 0
    else CountedRows(rows[..|rows| - 1]) + (if Counted(rows[|rows| - 1]) then 1 else 0)
  }

  /** `from_trips`: one row per distinct key, counting the group's rows
      with a user id. */
  function FromTrips(rows: seq<OdRow>): (r: seq<OdCount>)
    ensures forall i, j :: 0 <= i < j < |r| ==> r[i].key != r[j].key
    ensures forall k :: (exists i :: 0 <= i < |r| && r[i].key == k) <==> (exists j :: 0 <= j < |rows| && rows[j].key == Some(k))
    ensures forall i :: 0 <= i < |r| ==> r[i].count == GroupCount(rows, r[i].key)
  {
    var ks := FirstAppearances(PresentKeys(rows));
    var r := seq(|ks|, i requires 0 <= i < |ks| => OdCount(ks[i], GroupCount(rows, ks[i])));
    assert forall i :: 0 <= i < |r| ==> r[i].key == ks[i];
    forall k | exists j :: 0 <= j < |rows| && rows[j].key == Some(k)
      ensures exists i :: 0 <= i < |r| && r[i].key == k
    {
      assert k in ks;
    }
    r
  }

  function Counts(r: seq<OdCount>): (c: seq<int>)
    ensures |c| == |r|
    ensures forall i :: 0 <= i < |r| ==> c[i] == r[i].count
  {
    seq(|r|, i requires 0 <= i < |r| => r[i].count)
  }

  /** Sum of the group counts of the keys in ks. */
  function Total(ks: seq<OdKey>, rows: seq<OdRow>): nat
    decreases |ks|
  {
    if |ks| == 0 then 0 else GroupCount(rows, ks[0]) + Total(ks[1..], rows)
  }

  lemma {:induction false} TotalEmpty(ks: seq<OdKey>)
    ensures Total(ks, []) == 0
    decreases |ks|
  {
    if |ks| > 0 {
      TotalEmpty(ks[1..]);
    }
  }

  lemma {:induction false} TotalSnoc(ks: seq<OdKey>, rows: seq<OdRow>, x: OdRow)
    ensures Total(ks, rows + [x]) == Total(ks, rows) + (if x.user.Some? && x.key.Some? then Count(ks, x.key.value) else 0)
    decreases |ks|
  {
    assert (rows + [x])[..|rows|] == rows;
    if |ks| > 0 {
      TotalSnoc(ks[1..], rows, x);
      assert ks == [ks[0]] + ks[1..];
      if x.key.Some? {
        CountConcat([ks[0]], ks[1..], x.key.value);
        assert [ks[0]][..0] == [];
      }
    }
  }

  /** Over distinct keys that cover every present key, the group counts
      add up to the counted rows. */
  lemma {:induction false} TotalCoversRows(ks: seq<OdKey>, rows: seq<OdRow>)
    requires Distinct(ks)
    requires forall j :: 0 <= j < |rows| && rows[j].key.Some? ==> rows[j].key.value in ks
    ensures Total(ks, rows) == CountedRows(rows)
    decreases |rows|
  {
    if |rows| == 0 {
      TotalEmpty(ks);
    } else {
      var init := rows[..|rows| - 1];
      var x := rows[|rows| - 1];
      TotalCoversRows(ks, init);
      assert init + [x] == rows;
      TotalSnoc(ks, init, x);
      if x.key.Some? {
        CountDistinctMember(ks, x.key.value);
      }
    }
  }

  lemma {:induction false} CountsSumTotal(ks: seq<OdKey>, rows: seq<OdRow>, r: seq<OdCount>)
    requires |r| == |ks|
    requires forall i :: 0 <= i < |r| ==> r[i].count == GroupCount(rows, ks[i])
    ensures SumInts(Counts(r)) == Total(ks, rows)
    decreases |ks|
  {
    if |ks| > 0 {
      CountsSumTotal(ks[1..], rows, r[1..]);
      assert Counts(r) == [r[0].count] + Counts(r[1..]);
      SumIntsConcat([r[0].count], Counts(r[1..]));
    }
  }

  /** The counts add up to the number of trips with a key and a user
      id. */
  lemma {:induction false} FromTripsTotal(rows: seq<OdRow>)
    ensures SumInts(Counts(FromTrips(rows))) == CountedRows(rows)
  {
    var ks := FirstAppearances(PresentKeys(rows));
    var r := FromTrips(rows);
    forall j | 0 <= j < |rows| && rows[j].key.Some? ensures rows[j].key.value in ks {
      assert rows[j].key.value in PresentKeys(rows);
    }
    TotalCoversRows(ks, rows);
    CountsSumTotal(ks, rows, r);
  }
}

/** The user sampling of src/py/N-KL-relationship.py: `downsample` keeps
    the first N_max tweets of a user when one of them is at home, and
    both experiment drivers then drop users who visit fewer than two
    distinct regions. */
module Downsample {
  import opened Common

  datatype Row = Row(user: int, region: int, home: bool)

  /** Whether some row is labelled 'home'. */
  predicate HasHome(rows: seq<Row>)
  {
    exists i :: 0 <= i < |rows| && rows[i].home
  }

  /** `downsample`: the first min(N_max, n) rows, or nothing (None) when
      none of them is at home. */
  function Downsample(rows: seq<Row>, nMax: nat): (r: Option<seq<Row>>)
    ensures r.Some? <==> HasHome(rows[..if nMax < |rows| then nMax else |rows|])
    ensures r.Some? ==> |r.value| == (if nMax < |rows| then nMax else |rows|) && r.value <= rows
  {
    var head := rows[..if nMax < |rows| then nMax else |rows|];
    if HasHome(head) then Some(head) else None
  }

  /** A cap of at least the user's row count keeps every row of a user
      who has a home row. */
  lemma {:induction false} LargeCapKeepsAll(rows: seq<Row>, nMax: nat)
    requires nMax >= |rows| && HasHome(rows)
    ensures Downsample(rows, nMax) == Some(rows)
  {
    assert rows[..|rows|] == rows;
  }

  /** `groupby('userid').apply(downsample)`: the groups' kept rows,
      concatenated; a None group contributes nothing. */
  function DownsampleAll(groups: seq<seq<Row>>, nMax: nat): (r: seq<Row>)
    ensures |r| <= nMax * |groups|
    decreases |groups|
  {
    if |groups| == 0 then []
    else
      var d := Downsample(groups[0], nMax);
      var rest := DownsampleAll(groups[1..], nMax);
      assert nMax * |groups| == nMax + nMax * |groups[1..]|;
      (if d.Some? then d.value else []) + rest
  }

  /** Whether user u visits at least two distinct regions in rows. */
  predicate TwoRegions(rows: seq<Row>, u: int)
  {
    exists i, j :: 0 <= i < |rows| && 0 <= j < |rows| && rows[i].user == u && rows[j].user == u && rows[i].region != rows[j].region
  }

  /** The region-count filter: drop every row of a user whose rows span
      fewer than two regions. */
  function TwoRegionUsers(rows: seq<Row>): (r: seq<Row>)
    ensures forall x :: x in r <==> x in rows && TwoRegions(rows, x.user)
  {
    Filter(rows, (x: Row) => TwoRegions(rows, x.user))
  }

  /** The filter only removes whole users, so applying it again changes
      nothing. */
  lemma {:induction false} TwoRegionUsersIdempotent(rows: seq<Row>)
    ensures TwoRegionUsers(TwoRegionUsers(rows)) == TwoRegionUsers(rows)
  {
    var r := TwoRegionUsers(rows);
    forall x | x in r ensures TwoRegions(r, x.user) {
      var i, j :| 0 <= i < |rows| && 0 <= j < |rows| && rows[i].user == x.user && rows[j].user == x.user && rows[i].region != rows[j].region;
      assert rows[i] in r && rows[j] in r;
      var i' :| 0 <= i' < |r| && r[i'] == rows[i];
      var j' :| 0 <= j' < |r| && r[j'] == rows[j];
    }
    FilterKeepsAll(r, (x: Row) => TwoRegions(r, x.user));
  }

  /** `visits_gen_by_nmax`: without N_max the rows are used as they are;
      with it, every user is downsampled and then the users with two
      regions are kept. */
  function ByNmax(groups: seq<seq<Row>>, nMax: Option<nat>): (r: seq<Row>)
    ensures nMax.None? ==> r == Concat(groups)
    ensures nMax.Some? ==> forall x :: x in r <==> x in DownsampleAll(groups, nMax.value) && TwoRegions(DownsampleAll(groups, nMax.value), x.user)
    ensures nMax.Some? ==> |r| <= nMax.value * |groups|
  {
    if nMax.None? then Concat(groups) else TwoRegionUsers(DownsampleAll(groups, nMax.value))
  }

  /** `visits_gen_by_indi`: without a user list the rows are used as
      they are; with one, the listed users are kept and then the users
      with two regions. */
  function ByIndividuals(rows: seq<Row>, users: Option<set<int>>): (r: seq<Row>)
    ensures users.None? ==> r == rows
    ensures users.Some? ==> forall x :: x in r <==>
              x in rows && x.user in users.value && TwoRegions(Filter(rows, (y: Row) => y.user in users.value), x.user)
  {
    if users.None? then rows else TwoRegionUsers(Filter(rows, (y: Row) => y.user in users.value))
  }
}

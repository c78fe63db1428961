/** `Visits` of src/go/internal/locations/visits.go: a user's geotagged
    tweets are clustered and the most visited cluster is reported. The
    clustering (DBSCAN with its centroids) is a parameter. */
module ClusterVisits {
  import opened Common

  datatype Point = Point(lat: real, lng: real)

  /** The parts of a geotagged tweet `Visits` reads. */
  datatype GeoTweet = GeoTweet(userId: int, latitude: real, longitude: real)

  datatype Options = Options(clusterRadius: real, minPoints: int)

  /** A cluster: the indexes of its points and its centroid. */
  datatype Cluster = Cluster(points: seq<nat>, center: Point)

  /** repository.Location; a NaN or infinite PercentageNext is None. */
  datatype Location = Location(
    userId: int,
    latitude: real,
    longitude: real,
    count: nat,
    percentageTotal: real,
    percentageNext: Option<real>,
    radiusKilometers: real)

  /** DBSCAN over the points with a radius and a minimum of points. */
  type Clustering = (seq<Point>, real, int) -> seq<Cluster>

  function PointOf(t: GeoTweet): Point
  {
    Point(t.latitude, t.longitude)
  }

  function Points(tweets: seq<GeoTweet>): (pts: seq<Point>)
    ensures |pts| == |tweets|
    ensures forall i :: 0 <= i < |tweets| ==> pts[i] == PointOf(tweets[i])
  {
    seq(|tweets|, i requires 0 <= i < |tweets| => PointOf(tweets[i]))
  }

  function Size(c: Cluster): nat
  {
    |c.points|
  }

  /** The position of the first largest cluster. */
  function Largest(cs: seq<Cluster>): (i: nat)
    requires |cs| > 0
    ensures i < |cs|
    ensures forall j :: 0 <= j < |cs| ==> Size(cs[j]) <= Size(cs[i])
    ensures forall j :: 0 <= j < i ==> Size(cs[j]) < Size(cs[i])
    decreases |cs|
  {
    if |cs| == 1 then 0
    else
      var k := Largest(cs[..|cs| - 1]);
      if Size(cs[|cs| - 1]) > Size(cs[k]) then |cs| - 1 else k
  }

  /** The clusters other than the one at i. */
  function Others(cs: seq<Cluster>, i: nat): (o: seq<Cluster>)
    requires i < |cs|
    ensures |o| == |cs| - 1
    ensures forall j :: 0 <= j < i ==> o[j] == cs[j]
    ensures forall j :: i < j < |cs| ==> o[j - 1] == cs[j]
  {
    cs[..i] + cs[i + 1..]
  }

  /** The location a cluster gives: `UserID` from the first tweet, the
      centroid, the cluster's size and its share of all tweets. */
  function LocationOf(tweets: seq<GeoTweet>, options: Options, c: Cluster): Location
    requires |tweets| > 0
  {
    Location(tweets[0].userId, c.center.lat, c.center.lng, Size(c),
             Share(Size(c), |tweets|).value, Some(0.0), options.clusterRadius)
  }

  /** The location `Visits` reports for non-empty clusters: the largest
      cluster's, with `PercentageNext` the size of the next largest over
      its own when there are two or more. The sort of the source takes any
      of several equally large clusters; here the first. */
  function Report(tweets: seq<GeoTweet>, options: Options, cs: seq<Cluster>): Location
    requires |tweets| > 0 && |cs| > 0
  {
    var top := Largest(cs);
    var l := LocationOf(tweets, options, cs[top]);
    if |cs| == 1 then l
    else
      var os := Others(cs, top);
      l.(percentageNext := Share(Size(os[Largest(os)]), Size(cs[top])))
  }

  /** `Visits`: None when clustering finds nothing, else the report of
      the clusters. With no tweets but some cluster, `tweets[0]` panics. */
  function Visits(tweets: seq<GeoTweet>, options: Options, dbscan: Clustering): (r: Result<Option<Location>>)
    ensures r.Ok? && r.value.None? <==> |dbscan(Points(tweets), options.clusterRadius, options.minPoints)| == 0
    ensures r.Err? <==> |dbscan(Points(tweets), options.clusterRadius, options.minPoints)| > 0 && |tweets| == 0
  {
    var clusters := dbscan(Points(tweets), options.clusterRadius, options.minPoints);
    if |clusters| == 0 then Ok(None)
    else if |tweets| == 0 then Err("index out of range [0] with length 0")
    else Ok(Some(Report(tweets, options, clusters)))
  }

  // What the reported location says

  /** The reported location is that of a cluster no other cluster
      outnumbers; it keeps the first tweet's user and the radius. */
  lemma {:induction false} ReportLargest(tweets: seq<GeoTweet>, options: Options, cs: seq<Cluster>)
    requires |tweets| > 0 && |cs| > 0
    ensures var l := Report(tweets, options, cs);
      && (exists c :: c in cs && l.count == Size(c) && l.latitude == c.center.lat && l.longitude == c.center.lng)
      && (forall c :: c in cs ==> Size(c) <= l.count)
      && l.userId == tweets[0].userId
      && l.radiusKilometers == options.clusterRadius
  {
    var top := Largest(cs);
    assert cs[top] in cs;
    forall c | c in cs
      ensures Size(c) <= Size(cs[top])
    {
      var j :| 0 <= j < |cs| && cs[j] == c;
    }
  }

  /** `PercentageTotal` times the number of tweets is the cluster's size. */
  lemma {:induction false} ReportShare(tweets: seq<GeoTweet>, options: Options, cs: seq<Cluster>)
    requires |tweets| > 0 && |cs| > 0
    ensures var l := Report(tweets, options, cs);
      l.percentageTotal * |tweets| as real == l.count as real
  {
    var l := Report(tweets, options, cs);
    var c := cs[Largest(cs)];
    assert l.count == Size(c) && l.percentageTotal == Share(Size(c), |tweets|).value;
    ShareOfCount(Size(c), |tweets|);
  }

  /** The share of a count times the total is the count. */
  lemma {:induction false} ShareOfCount(count: nat, total: nat)
    requires total > 0
    ensures Share(count, total).value * total as real == count as real
  {
  }

  /** `PercentageNext` is 0 with one cluster. With two or more it is the
      share, in the reported count, of another cluster which no cluster
      but the reported one outnumbers. */
  lemma {:induction false} ReportNext(tweets: seq<GeoTweet>, options: Options, cs: seq<Cluster>)
    requires |tweets| > 0 && |cs| > 0
    ensures var l := Report(tweets, options, cs);
      && (|cs| == 1 ==> l.percentageNext == Some(0.0))
      && (|cs| > 1 ==>
            exists j :: 0 <= j < |cs| && j != Largest(cs)
              && l.percentageNext == Share(Size(cs[j]), l.count)
              && forall k :: 0 <= k < |cs| && k != Largest(cs) ==> Size(cs[k]) <= Size(cs[j]))
  {
    if |cs| > 1 {
      var top := Largest(cs);
      var os := Others(cs, top);
      var next := Largest(os);
      var j := if next < top then next else next + 1;
      assert os[next] == cs[j];
      forall k | 0 <= k < |cs| && k != top
        ensures Size(cs[k]) <= Size(cs[j])
      {
        if k < top { assert os[k] == cs[k]; } else { assert os[k - 1] == cs[k]; }
      }
    }
  }

  /** With two or more clusters `PercentageNext` is NaN exactly when the
      reported cluster is empty, and lies in [0, 1] otherwise. */
  lemma {:induction false} ReportNextBounds(tweets: seq<GeoTweet>, options: Options, cs: seq<Cluster>)
    requires |tweets| > 0 && |cs| > 1
    ensures var l := Report(tweets, options, cs);
      && (l.percentageNext.None? <==> l.count == 0)
      && (l.percentageNext.Some? ==> 0.0 <= l.percentageNext.value <= 1.0)
  {
    var top := Largest(cs);
    var os := Others(cs, top);
    var next := Largest(os);
    NextAtMostTop(cs, top, next);
    ShareWithin(Size(os[next]), Size(cs[top]));
  }

  /** The largest of the others is no larger than the largest of all. */
  lemma {:induction false} NextAtMostTop(cs: seq<Cluster>, top: nat, next: nat)
    requires |cs| > 1 && top == Largest(cs) && next < |cs| - 1
    ensures Size(Others(cs, top)[next]) <= Size(cs[top])
  {
    if next < top {
      assert Others(cs, top)[next] == cs[next];
    } else {
      assert Others(cs, top)[next] == cs[next + 1];
    }
  }
}

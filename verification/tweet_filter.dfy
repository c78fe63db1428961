/** The first geotweet filter of src/py/tweets-filter.py
    (`TweetsFilter.tweets_filter_1`): tweets at a coordinate pair that
    holds more than 0.1 % of all tweets are region centroids, not precise
    positions; a tweet sharing either coordinate with such a pair is
    removed, and then users with 50 or fewer remaining tweets are
    dropped. */
module TweetFilter {
  import opened Common

  datatype Tweet = Tweet(user: int, createdAt: int, lat: real, lng: real)

  /** Number of tweets at exactly (lat, lng). */
  function PairCount(ts: seq<Tweet>, lat: real, lng: real): nat
    decreases |ts|
  {
    if |ts| == 0 then 0
    else PairCount(ts[..|ts| - 1], lat, lng) + (if ts[|ts| - 1].lat == lat && ts[|ts| - 1].lng == lng then 1 else 0)
  }

  /** A pair holds more than 0.001 of all tweets, stated without division. */
  predicate Popular(ts: seq<Tweet>, lat: real, lng: real)
  {
    1000 * PairCount(ts, lat, lng) > |ts|
  }

  /** The integer test is the share test of the source. */
  lemma {:induction false} PopularIffShare(ts: seq<Tweet>, lat: real, lng: real)
    requires |ts| > 0
    ensures Popular(ts, lat, lng) <==> (PairCount(ts, lat, lng) as real) / (|ts| as real) > 0.001
  {
    ShareTest(PairCount(ts, lat, lng), |ts|);
  }

  lemma {:induction false} ShareTest(count: nat, total: nat)
    requires total > 0
    ensures 1000 * count > total <==> (count as real) / (total as real) > 0.001
  {
    var c := count as real;
    var n := total as real;
    var q := c / n;
    assert q * n == c;
    assert (1000 * count) as real == 1000.0 * c;
    if q > 0.001 {
      MulStrict(q, 0.001, n);
    } else {
      MulWeak(q, 0.001, n);
    }
  }

  /** The popular pairs, each once, in order of first appearance. */
  function PopularPairs(ts: seq<Tweet>): (p: seq<(real, real)>)
    ensures forall q :: q in p <==> exists k :: 0 <= k < |ts| && q == (ts[k].lat, ts[k].lng) && Popular(ts, q.0, q.1)
  {
    var pairs := seq(|ts|, k requires 0 <= k < |ts| => (ts[k].lat, ts[k].lng));
    var popular := Filter(pairs, (q: (real, real)) => Popular(ts, q.0, q.1));
    assert forall q :: q in pairs <==> exists k :: 0 <= k < |ts| && q == (ts[k].lat, ts[k].lng) by {
      forall q | q in pairs ensures exists k :: 0 <= k < |ts| && q == (ts[k].lat, ts[k].lng) {
        var k :| 0 <= k < |pairs| && pairs[k] == q;
      }
      forall q | exists k :: 0 <= k < |ts| && q == (ts[k].lat, ts[k].lng) ensures q in pairs {
        var k :| 0 <= k < |ts| && q == (ts[k].lat, ts[k].lng);
        assert pairs[k] == q;
      }
    }
    FirstAppearances(popular)
  }

  lemma {:induction false} PopularListed(ts: seq<Tweet>, k: nat)
    requires k < |ts|
    ensures Popular(ts, ts[k].lat, ts[k].lng) ==> (ts[k].lat, ts[k].lng) in PopularPairs(ts)
  {
  }

  /** The mask of line-by-line `&`: a tweet survives when its latitude
      differs from every popular latitude and its longitude from every
      popular longitude. */
  predicate Survives(t: Tweet, pops: seq<(real, real)>)
  {
    forall k :: 0 <= k < |pops| ==> pops[k].0 != t.lat && pops[k].1 != t.lng
  }

  /** The same test stated over the tweets themselves. */
  predicate Clear(ts: seq<Tweet>, t: Tweet)
  {
    forall k :: 0 <= k < |ts| && Popular(ts, ts[k].lat, ts[k].lng) ==> ts[k].lat != t.lat && ts[k].lng != t.lng
  }

  lemma {:induction false} SurvivesIffClear(ts: seq<Tweet>, t: Tweet)
    ensures Survives(t, PopularPairs(ts)) <==> Clear(ts, t)
  {
    var pops := PopularPairs(ts);
    if Survives(t, pops) {
      forall k | 0 <= k < |ts| && Popular(ts, ts[k].lat, ts[k].lng) ensures ts[k].lat != t.lat && ts[k].lng != t.lng {
        var q := (ts[k].lat, ts[k].lng);
        assert q in pops;
        var i :| 0 <= i < |pops| && pops[i] == q;
      }
    }
    if Clear(ts, t) {
      forall i | 0 <= i < |pops| ensures pops[i].0 != t.lat && pops[i].1 != t.lng {
        assert pops[i] in pops;
        var k :| 0 <= k < |ts| && pops[i] == (ts[k].lat, ts[k].lng) && Popular(ts, pops[i].0, pops[i].1);
      }
    }
  }

  /** Number of tweets of user u. */
  function UserCount(ts: seq<Tweet>, u: int): nat
    decreases |ts|
  {
    if |ts| == 0 then 0 else UserCount(ts[..|ts| - 1], u) + (if ts[|ts| - 1].user == u then 1 else 0)
  }

  /** `tweets_filter_1`. With no popular pair the mask is never built and
      indexing with None fails. */
  function TweetsFilter(ts: seq<Tweet>): (r: Result<seq<Tweet>>)
    ensures r.Err? <==> forall k :: 0 <= k < |ts| ==> !Popular(ts, ts[k].lat, ts[k].lng)
    ensures r.Ok? ==> forall t :: t in r.value <==>
              t in ts && Clear(ts, t) && UserCount(Filter(ts, (x: Tweet) => Clear(ts, x)), t.user) > 50
  {
    var pops := PopularPairs(ts);
    if |pops| == 0 then
      assert forall k :: 0 <= k < |ts| ==> !Popular(ts, ts[k].lat, ts[k].lng) by {
        forall k | 0 <= k < |ts| ensures !Popular(ts, ts[k].lat, ts[k].lng) {
          PopularListed(ts, k);
        }
      }
      Err("'NoneType' object has no attribute 'size'")
    else
      assert pops[0] in pops;
      var kept := Filter(ts, (x: Tweet) => Survives(x, pops));
      assert kept == Filter(ts, (x: Tweet) => Clear(ts, x)) by {
        forall x: Tweet ensures Survives(x, pops) == Clear(ts, x) {
          SurvivesIffClear(ts, x);
        }
        FilterSameMask(ts, (x: Tweet) => Survives(x, pops), (x: Tweet) => Clear(ts, x));
      }
      forall t ensures Survives(t, pops) <==> Clear(ts, t) {
        SurvivesIffClear(ts, t);
      }
      Ok(Filter(kept, (x: Tweet) => UserCount(kept, x.user) > 50))
  }

  /** Sharing only the latitude, or only the longitude, with a popular
      pair is enough to be removed: popular tweets and their neighbours
      along a parallel or a meridian all go. */
  lemma {:induction false} SharedComponentRemoved(ts: seq<Tweet>, k: nat, t: Tweet)
    requires k < |ts| && Popular(ts, ts[k].lat, ts[k].lng)
    requires t.lat == ts[k].lat || t.lng == ts[k].lng
    ensures TweetsFilter(ts).Ok? && t !in TweetsFilter(ts).value
  {
  }

  /** Keeping whole users keeps every tweet of a kept user. */
  lemma {:induction false} KeepUsersCount(ts: seq<Tweet>, keep: int -> bool, u: int)
    requires keep(u)
    ensures UserCount(Filter(ts, (x: Tweet) => keep(x.user)), u) == UserCount(ts, u)
    decreases |ts|
  {
    if |ts| > 0 {
      var f := (x: Tweet) => keep(x.user);
      var init := ts[..|ts| - 1];
      var x := ts[|ts| - 1];
      KeepUsersCount(init, keep, u);
      var a := Filter(init, f);
      if f(x) {
        assert (a + [x])[..|a + [x]| - 1] == a;
      } else {
        assert Filter(ts, f) == a + [];
        assert a + [] == a;
      }
    }
  }

  /** Every user left after the filter still has more than 50 tweets in
      the result. */
  lemma {:induction false} ResultUsersAboveFifty(ts: seq<Tweet>, t: Tweet)
    requires TweetsFilter(ts).Ok? && t in TweetsFilter(ts).value
    ensures UserCount(TweetsFilter(ts).value, t.user) > 50
  {
    var kept := Filter(ts, (x: Tweet) => Survives(x, PopularPairs(ts)));
    var keep := (u: int) => UserCount(kept, u) > 50;
    assert TweetsFilter(ts).value == Filter(kept, (x: Tweet) => keep(x.user)) by {
      FilterSameMask(kept, (x: Tweet) => UserCount(kept, x.user) > 50, (x: Tweet) => keep(x.user));
    }
    assert keep(t.user);
    KeepUsersCount(kept, keep, t.user);
  }
}

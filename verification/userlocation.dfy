/** The home-location command of src/go/cmd/userlocation/main.go. Each
    user comes with bins (a geohash and the number of night-time tweets
    in it); the bins are coarsened, one geohash character at a time, until
    the largest bin holds a tenth of the user's tweets. The database
    queries and the geohash decoding to a latitude and longitude are not
    part of this model. */
module UserLocation {
  import opened Common
  import opened Grouping

  /** A bin; the count comes from SQL `count(*)` and is never negative. */
  datatype TopLocation = TopLocation(userId: int, geohash: string, tweetsInGeo: nat)

  /** A geohash without its last character: the cell that encloses it. */
  function Parent(g: string): string
    requires |g| > 0
  {
    g[..|g| - 1]
  }

  /** The cell `unsharpen` moves a bin to. */
  function Cell(t: TopLocation): string
  {
    if |t.geohash| > 0 then Parent(t.geohash) else ""
  }

  function UserOf(t: TopLocation): int
  {
    t.userId
  }

  function Tweets(t: TopLocation): int
  {
    t.tweetsInGeo
  }

  /** The bins `unsharpen` does not skip. */
  function WithGeohash(tls: seq<TopLocation>): (k: seq<TopLocation>)
    ensures forall t :: t in k <==> t in tls && |t.geohash| > 0
  {
    Filter(tls, (t: TopLocation) => |t.geohash| > 0)
  }

  function Counts(tls: seq<TopLocation>): (c: seq<int>)
    ensures |c| == |tls| && forall i :: 0 <= i < |tls| ==> c[i] == tls[i].tweetsInGeo
  {
    seq(|tls|, i requires 0 <= i < |tls| => tls[i].tweetsInGeo)
  }

  /** No two bins share a geohash. */
  predicate DistinctCells(tls: seq<TopLocation>)
  {
    forall a, b :: 0 <= a < b < |tls| ==> tls[a].geohash != tls[b].geohash
  }

  /** Bins by non-increasing count. */
  predicate ByCountDesc(tls: seq<TopLocation>)
  {
    forall a, b :: 0 <= a < b < |tls| ==> tls[a].tweetsInGeo >= tls[b].tweetsInGeo
  }

  predicate AllAtLeast(tls: seq<TopLocation>, c: int)
  {
    forall i :: 0 <= i < |tls| ==> tls[i].tweetsInGeo >= c
  }

  // The sort of `unsharpen`

  lemma {:induction false} CountsSnoc(s: seq<TopLocation>, x: TopLocation)
    ensures SumInts(Counts(s + [x])) == SumInts(Counts(s)) + x.tweetsInGeo
  {
    assert Counts(s + [x]) == Counts(s) + [x.tweetsInGeo];
    SumIntsConcat(Counts(s), [x.tweetsInGeo]);
  }

  /** x placed after every bin with at least its count. */
  function InsertDesc(s: seq<TopLocation>, x: TopLocation): (r: seq<TopLocation>)
    requires ByCountDesc(s)
    ensures |r| == |s| + 1 && ByCountDesc(r)
    ensures multiset(r) == multiset(s) + multiset{x}
    ensures forall c :: AllAtLeast(s, c) && x.tweetsInGeo >= c ==> AllAtLeast(r, c)
    decreases |s|
  {
    if |s| == 0 then [x]
    else
      var last := s[|s| - 1];
      var init := s[..|s| - 1];
      assert s == init + [last];
      if last.tweetsInGeo >= x.tweetsInGeo then s + [x]
      else
        var r := InsertDesc(init, x);
        assert AllAtLeast(init, last.tweetsInGeo);
        assert AllAtLeast(r, last.tweetsInGeo);
        r + [last]
  }

  /** The `sort.Slice` of `unsharpen` by non-increasing count, ties in
      input order (Go leaves their order unspecified). */
  function SortDesc(s: seq<TopLocation>): (r: seq<TopLocation>)
    ensures |r| == |s| && ByCountDesc(r)
    ensures multiset(r) == multiset(s)
    decreases |s|
  {
    if |s| == 0 then []
    else
      var init := s[..|s| - 1];
      assert s == init + [s[|s| - 1]];
      InsertDesc(SortDesc(init), s[|s| - 1])
  }

  /** Inserting a bin adds its count to the total. */
  lemma {:induction false} InsertDescTotal(s: seq<TopLocation>, x: TopLocation)
    requires ByCountDesc(s)
    ensures SumInts(Counts(InsertDesc(s, x))) == SumInts(Counts(s)) + x.tweetsInGeo
    decreases |s|
  {
    if |s| == 0 {
      assert Counts([x]) == [x.tweetsInGeo];
    } else {
      var last := s[|s| - 1];
      var init := s[..|s| - 1];
      InsertDescStep(s, x);
      CountsSnoc(init, last);
      if last.tweetsInGeo >= x.tweetsInGeo {
        CountsSnoc(s, x);
      } else {
        InsertDescTotal(init, x);
        CountsSnoc(InsertDesc(init, x), last);
      }
    }
  }

  /** One step of the insertion. */
  lemma {:induction false} InsertDescStep(s: seq<TopLocation>, x: TopLocation)
    requires ByCountDesc(s) && |s| > 0
    ensures s == s[..|s| - 1] + [s[|s| - 1]] && ByCountDesc(s[..|s| - 1])
    ensures InsertDesc(s, x) == if s[|s| - 1].tweetsInGeo >= x.tweetsInGeo then s + [x] else InsertDesc(s[..|s| - 1], x) + [s[|s| - 1]]
  {
    assert s == s[..|s| - 1] + [s[|s| - 1]];
  }

  /** Sorting keeps the total. */
  lemma {:induction false} SortDescTotal(s: seq<TopLocation>)
    ensures SumInts(Counts(SortDesc(s))) == SumInts(Counts(s))
    decreases |s|
  {
    if |s| > 0 {
      var init := s[..|s| - 1];
      assert s == init + [s[|s| - 1]];
      SortDescTotal(init);
      InsertDescTotal(SortDesc(init), s[|s| - 1]);
      CountsSnoc(init, s[|s| - 1]);
    }
  }

  /** Reordering keeps bins with distinct geohashes distinct. */
  lemma {:induction false} DistinctCellsPermute(s: seq<TopLocation>, r: seq<TopLocation>)
    requires DistinctCells(s) && multiset(r) == multiset(s)
    ensures DistinctCells(r)
  {
    forall a, b | 0 <= a < b < |r| ensures r[a].geohash != r[b].geohash {
      if r[a].geohash == r[b].geohash {
        assert r[a] in multiset(s) && r[b] in multiset(s);
        var i :| 0 <= i < |s| && s[i] == r[a];
        var j :| 0 <= j < |s| && s[j] == r[b];
        assert i == j;
        assert r == r[..b] + [r[b]] + r[b + 1..];
        assert r[..b] == r[..a] + [r[a]] + r[a + 1..b];
        assert multiset(r)[r[a]] >= 2;
        CountOne(s, i);
      }
    }
  }

  /** In bins with distinct geohashes every bin occurs once. */
  lemma {:induction false} CountOne(s: seq<TopLocation>, i: nat)
    requires DistinctCells(s) && i < |s|
    ensures multiset(s)[s[i]] == 1
  {
    assert s == s[..i] + [s[i]] + s[i + 1..];
    assert s[i] !in s[..i] by {
      forall k | 0 <= k < i ensures s[..i][k] != s[i] {
        assert s[k].geohash != s[i].geohash;
      }
    }
    var after := s[i + 1..];
    assert s[i] !in after by {
      forall k | 0 <= k < |after| ensures after[k] != s[i] {
        assert after[k] == s[i + 1 + k];
      }
    }
  }

  // `unsharpen`

  /** One map entry of `unsharpen`: the first bin's user, the shared cell
      and the summed count. */
  function Merge(g: seq<TopLocation>): TopLocation
    requires |g| > 0
  {
    WeighCounts(g);
    TopLocation(g[0].userId, Cell(g[0]), Weigh(g, Tweets))
  }

  function MergeAll(gs: seq<seq<TopLocation>>): (m: seq<TopLocation>)
    requires forall i :: 0 <= i < |gs| ==> |gs[i]| > 0
    ensures |m| == |gs| && forall i :: 0 <= i < |gs| ==> m[i] == Merge(gs[i])
  {
    seq(|gs|, i requires 0 <= i < |gs| => Merge(gs[i]))
  }

  /** Every bin of the result is the cell of some bin with a geohash, and
      carries that bin's user. */
  predicate FromBins(r: seq<TopLocation>, tls: seq<TopLocation>)
  {
    forall o :: o in r ==> exists t :: t in tls && |t.geohash| > 0 && o.geohash == Parent(t.geohash) && o.userId == t.userId
  }

  /** `unsharpen`: bins without geohash are skipped, the others are moved
      to their enclosing cell, bins of one cell are added up, and the
      result is sorted by count. */
  function Unsharpen(tls: seq<TopLocation>): (r: seq<TopLocation>)
    ensures ByCountDesc(r) && DistinctCells(r)
    ensures FromBins(r, tls)
    ensures SumInts(Counts(r)) == Weigh(WithGeohash(tls), Tweets)
  {
    var merged := MergeAll(GroupBy(WithGeohash(tls), Cell));
    SortedMerge(tls, merged);
    SortDesc(merged)
  }

  lemma {:induction false} SortedMerge(tls: seq<TopLocation>, merged: seq<TopLocation>)
    requires merged == MergeAll(GroupBy(WithGeohash(tls), Cell))
    ensures DistinctCells(SortDesc(merged))
    ensures FromBins(SortDesc(merged), tls)
    ensures SumInts(Counts(SortDesc(merged))) == Weigh(WithGeohash(tls), Tweets)
  {
    var kept := WithGeohash(tls);
    var groups := GroupBy(kept, Cell);
    var r := SortDesc(merged);
    MergedDistinct(kept, groups, merged);
    DistinctCellsPermute(merged, r);
    MergedFrom(kept, tls, groups, merged);
    FromBinsPermute(merged, r, tls);
    MergedTotal(kept, groups, merged);
    SortDescTotal(merged);
  }

  lemma {:induction false} FromBinsPermute(merged: seq<TopLocation>, r: seq<TopLocation>, tls: seq<TopLocation>)
    requires FromBins(merged, tls) && multiset(r) == multiset(merged)
    ensures FromBins(r, tls)
  {
    forall o | o in r ensures o in merged {
      assert o in multiset(r);
    }
  }

  /** Every bin with a geohash lands in the bin of its enclosing cell. */
  lemma {:induction false} UnsharpenCovers(tls: seq<TopLocation>, t: TopLocation)
    requires t in tls && |t.geohash| > 0
    ensures exists o :: o in Unsharpen(tls) && o.geohash == Parent(t.geohash)
  {
    var kept := WithGeohash(tls);
    var groups := GroupBy(kept, Cell);
    var merged := MergeAll(groups);
    var i :| 0 <= i < |groups| && t in groups[i];
    assert merged[i].geohash == Parent(t.geohash) by {
      assert groups[i][0] in groups[i];
    }
    assert merged[i] in multiset(SortDesc(merged));
  }

  /** The count of a cell is the sum of the counts of the bins it
      encloses. */
  lemma {:induction false} UnsharpenSums(tls: seq<TopLocation>, o: TopLocation)
    requires o in Unsharpen(tls)
    ensures o.tweetsInGeo == Weigh(Members(WithGeohash(tls), Cell, o.geohash), Tweets)
  {
    var kept := WithGeohash(tls);
    var groups := GroupBy(kept, Cell);
    var merged := MergeAll(groups);
    var i := SortedMember(merged, o);
    MergedCount(kept, groups, merged, i);
  }

  /** A bin of the sorted bins is one of the bins. */
  lemma {:induction false} SortedMember(merged: seq<TopLocation>, o: TopLocation) returns (i: nat)
    requires o in SortDesc(merged)
    ensures i < |merged| && merged[i] == o
  {
    assert o in multiset(SortDesc(merged));
    i :| 0 <= i < |merged| && merged[i] == o;
  }

  /** A merged bin counts the bins of its cell. */
  lemma {:induction false} MergedCount(kept: seq<TopLocation>, groups: seq<seq<TopLocation>>, merged: seq<TopLocation>, i: nat)
    requires groups == GroupBy(kept, Cell)
    requires merged == MergeAll(groups)
    requires i < |merged|
    ensures merged[i].tweetsInGeo == Weigh(Members(kept, Cell, merged[i].geohash), Tweets)
  {
    assert merged[i] == Merge(groups[i]);
    assert groups[i] == Members(kept, Cell, Cell(groups[i][0]));
  }

  lemma {:induction false} MergedDistinct(kept: seq<TopLocation>, groups: seq<seq<TopLocation>>, merged: seq<TopLocation>)
    requires groups == GroupBy(kept, Cell)
    requires merged == MergeAll(groups)
    ensures DistinctCells(merged)
  {
  }

  lemma {:induction false} MergedFrom(kept: seq<TopLocation>, tls: seq<TopLocation>, groups: seq<seq<TopLocation>>, merged: seq<TopLocation>)
    requires kept == WithGeohash(tls)
    requires groups == GroupBy(kept, Cell)
    requires merged == MergeAll(groups)
    ensures FromBins(merged, tls)
  {
    forall o | o in merged ensures exists t :: t in tls && |t.geohash| > 0 && o.geohash == Parent(t.geohash) && o.userId == t.userId {
      var i :| 0 <= i < |merged| && merged[i] == o;
      assert groups[i][0] in groups[i];
    }
  }

  lemma {:induction false} MergedTotal(kept: seq<TopLocation>, groups: seq<seq<TopLocation>>, merged: seq<TopLocation>)
    requires groups == GroupBy(kept, Cell)
    requires merged == MergeAll(groups)
    ensures SumInts(Counts(merged)) == Weigh(kept, Tweets)
  {
    assert Counts(merged) == GroupTotals(groups, Tweets);
    SumGroupWeights(groups, Tweets);
    GroupWeights(kept, Cell, Tweets);
  }

  // `homeLocation`

  /** The loop condition `perc < 0.1`, false for NaN. */
  predicate BelowThreshold(p: Option<real>)
  {
    p.Some? && p.value < 0.1
  }

  /** Every bin of r lies in a cell enclosing a bin of tls, of the same
      user. */
  predicate EnclosedBy(r: seq<TopLocation>, tls: seq<TopLocation>)
  {
    forall o :: o in r ==> exists t :: t in tls && Encloses(o.geohash, t.geohash) && o.userId == t.userId
  }

  lemma {:induction false} FromBinsEnclosed(r: seq<TopLocation>, tls: seq<TopLocation>)
    requires FromBins(r, tls)
    ensures EnclosedBy(r, tls)
  {
    forall o | o in r ensures exists t :: t in tls && Encloses(o.geohash, t.geohash) && o.userId == t.userId {
      var t :| t in tls && |t.geohash| > 0 && o.geohash == Parent(t.geohash) && o.userId == t.userId;
      EnclosesParent(o.geohash, t.geohash);
    }
  }

  /** a is a strictly shorter prefix of b: a cell enclosing b. */
  predicate Encloses(a: string, b: string)
  {
    |a| < |b| && b[..|a|] == a
  }

  lemma {:induction false} EnclosesParent(a: string, b: string)
    requires |b| > 0 && (a == Parent(b) || Encloses(a, Parent(b)))
    ensures Encloses(a, b)
  {
    if a != Parent(b) {
      assert b[..|a|] == Parent(b)[..|a|];
    }
  }

  /** The longest geohash among the bins. */
  function MaxLen(tls: seq<TopLocation>): (m: nat)
    ensures forall t :: t in tls ==> |t.geohash| <= m
    ensures |tls| > 0 ==> exists t :: t in tls && |t.geohash| == m
  {
    if |tls| == 0 then 0
    else
      var m := MaxLen(tls[..|tls| - 1]);
      assert tls == tls[..|tls| - 1] + [tls[|tls| - 1]];
      if |tls[|tls| - 1].geohash| > m then |tls[|tls| - 1].geohash| else m
  }

  /** Rounds left before the bins run out: every `unsharpen` shortens the
      longest geohash. */
  function Rounds(tls: seq<TopLocation>): nat
  {
    if |tls| == 0 then 0 else MaxLen(tls) + 1
  }

  lemma {:induction false} RoundsFall(tls: seq<TopLocation>)
    requires |tls| > 0
    ensures Rounds(Unsharpen(tls)) < Rounds(tls)
  {
    ShorterCells(Unsharpen(tls), tls);
  }

  /** Cells of bins are shorter than the longest bin geohash. */
  lemma {:induction false} ShorterCells(r: seq<TopLocation>, tls: seq<TopLocation>)
    requires FromBins(r, tls)
    ensures |r| > 0 ==> MaxLen(r) < MaxLen(tls)
  {
    if |r| > 0 {
      var m := MaxLen(r);
      var o :| o in r && |o.geohash| == m;
      var t :| t in tls && |t.geohash| > 0 && o.geohash == Parent(t.geohash) && o.userId == t.userId;
      assert |t.geohash| <= MaxLen(tls);
    }
  }

  /** The `for perc < 0.1` loop: the share of the top bin is taken, then
      the bins are coarsened; the loop stops once the share was not below
      0.1. Running out of bins fails at `tls[0]`. */
  function Coarsen(tls: seq<TopLocation>, total: nat): (r: Result<(Option<real>, seq<TopLocation>)>)
    requires SumInts(Counts(tls)) <= total
    ensures |tls| == 0 ==> r.Err?
    ensures r.Ok? ==> !BelowThreshold(r.value.0) && ByCountDesc(r.value.1)
    ensures r.Ok? && r.value.0.Some? ==> r.value.0.value <= 1.0
    ensures r.Ok? ==> EnclosedBy(r.value.1, tls)
    decreases Rounds(tls)
  {
    if |tls| == 0 then
      Err("index out of range [0] with length 0")
    else
      var perc := Share(tls[0].tweetsInGeo, total);
      var next := Unsharpen(tls);
      RoundsFall(tls);
      ShareAtMostOne(tls, total);
      UnsharpenLighter(tls);
      if BelowThreshold(perc) then
        var r := Coarsen(next, total);
        CoarsenTrace(tls, next, total, r);
        r
      else
        FromBinsEnclosed(next, tls);
        Ok((perc, next))
  }

  /** A coarsening of bins; the loop below uses `Unsharpen`. */
  type Step = seq<TopLocation> -> seq<TopLocation>

  /** The bins after k rounds of `step`. */
  function Unsharpened(step: Step, tls: seq<TopLocation>, k: nat): seq<TopLocation>
    decreases k
  {
    if k == 0 then tls else Unsharpened(step, step(tls), k - 1)
  }

  /** `float64(tls[0].TweetsInGeo) / float64(total)`; no bins have no share. */
  function TopShare(tls: seq<TopLocation>, total: nat): Option<real>
  {
    if |tls| == 0 then None else Share(tls[0].tweetsInGeo, total)
  }

  /** The loop runs rounds 0 to k: each of them has a top bin, every round
      before k has a top share below 0.1, and round k's is not. */
  ghost predicate StopsAfter(step: Step, tls: seq<TopLocation>, total: nat, k: nat)
    decreases k
  {
    |tls| > 0
    && if k == 0 then !BelowThreshold(TopShare(tls, total))
       else BelowThreshold(TopShare(tls, total)) && StopsAfter(step, step(tls), total, k - 1)
  }

  /** The loop stops after some round k: every round before k had a top
      share below 0.1, round k's share is what `Coarsen` returns, and the
      bins it returns are those of round k + 1. When no round stops the
      loop, it fails. */
  lemma {:induction false} CoarsenRounds(tls: seq<TopLocation>, total: nat)
    requires SumInts(Counts(tls)) <= total
    ensures Coarsen(tls, total).Ok? ==> exists k: nat :: (StopsAfter(Unsharpen, tls, total, k)
      && Coarsen(tls, total).value.0 == TopShare(Unsharpened(Unsharpen, tls, k), total)
      && Coarsen(tls, total).value.1 == Unsharpened(Unsharpen, tls, k + 1))
    ensures Coarsen(tls, total).Err? ==> forall k: nat :: !StopsAfter(Unsharpen, tls, total, k)
    decreases Rounds(tls)
  {
    if |tls| > 0 {
      var next := Unsharpen(tls);
      if BelowThreshold(Share(tls[0].tweetsInGeo, total)) {
        RoundsFall(tls);
        UnsharpenLighter(tls);
        CoarsenRounds(next, total);
        RoundBelow(tls, total, Coarsen(next, total));
        assert Coarsen(tls, total) == Coarsen(next, total);
      } else {
        assert Coarsen(tls, total) == Ok((Share(tls[0].tweetsInGeo, total), next));
        assert Unsharpened(Unsharpen, tls, 0) == tls;
        assert StopsAfter(Unsharpen, tls, total, 0) && Unsharpened(Unsharpen, tls, 1) == next;
        forall k: nat | k > 0 ensures !StopsAfter(Unsharpen, tls, total, k) {
        }
      }
    }
  }

  /** A round below 0.1 adds one to the count of rounds the coarser bins
      ran, and fails when they fail. */
  lemma {:induction false} RoundBelow(tls: seq<TopLocation>, total: nat, r: Result<(Option<real>, seq<TopLocation>)>)
    requires |tls| > 0 && BelowThreshold(Share(tls[0].tweetsInGeo, total))
    requires r.Ok? ==> exists k: nat :: (StopsAfter(Unsharpen, Unsharpen(tls), total, k) && r.value.0 == TopShare(Unsharpened(Unsharpen, Unsharpen(tls), k), total)
      && r.value.1 == Unsharpened(Unsharpen, Unsharpen(tls), k + 1))
    requires r.Err? ==> forall k: nat :: !StopsAfter(Unsharpen, Unsharpen(tls), total, k)
    ensures r.Ok? ==> exists k: nat :: (StopsAfter(Unsharpen, tls, total, k) && r.value.0 == TopShare(Unsharpened(Unsharpen, tls, k), total)
      && r.value.1 == Unsharpened(Unsharpen, tls, k + 1))
    ensures r.Err? ==> forall k: nat :: !StopsAfter(Unsharpen, tls, total, k)
  {
    if r.Ok? {
      var k: nat :| StopsAfter(Unsharpen, Unsharpen(tls), total, k) && r.value.0 == TopShare(Unsharpened(Unsharpen, Unsharpen(tls), k), total)
        && r.value.1 == Unsharpened(Unsharpen, Unsharpen(tls), k + 1);
      assert StopsAfter(Unsharpen, tls, total, k + 1);
      assert Unsharpened(Unsharpen, tls, k + 1) == Unsharpened(Unsharpen, Unsharpen(tls), k);
      assert Unsharpened(Unsharpen, tls, k + 2) == Unsharpened(Unsharpen, Unsharpen(tls), k + 1);
    } else {
      forall k: nat ensures !StopsAfter(Unsharpen, tls, total, k) {
        if k > 0 {
          assert !StopsAfter(Unsharpen, Unsharpen(tls), total, k - 1);
        }
      }
    }
  }

  /** What a later round found traces back through `unsharpen` to the
      bins of this round. */
  lemma {:induction false} CoarsenTrace(tls: seq<TopLocation>, next: seq<TopLocation>, total: nat, r: Result<(Option<real>, seq<TopLocation>)>)
    requires next == Unsharpen(tls)
    requires r.Ok? ==> EnclosedBy(r.value.1, next)
    ensures r.Ok? ==> EnclosedBy(r.value.1, tls)
  {
    if r.Ok? {
      forall o | o in r.value.1 ensures exists t :: t in tls && Encloses(o.geohash, t.geohash) && o.userId == t.userId {
        var m :| m in next && Encloses(o.geohash, m.geohash) && o.userId == m.userId;
        var t :| t in tls && |t.geohash| > 0 && m.geohash == Parent(t.geohash) && m.userId == t.userId;
        EnclosesParent(o.geohash, t.geohash);
      }
    }
  }

  /** The top bin's share of a total no smaller than all bins is at most
      one. */
  lemma {:induction false} ShareAtMostOne(tls: seq<TopLocation>, total: nat)
    requires |tls| > 0 && SumInts(Counts(tls)) <= total
    ensures Share(tls[0].tweetsInGeo, total).Some? ==> Share(tls[0].tweetsInGeo, total).value <= 1.0
  {
    TopBelowSum(tls);
    ShareWithin(tls[0].tweetsInGeo, total);
  }

  lemma {:induction false} TopBelowSum(tls: seq<TopLocation>)
    requires |tls| > 0
    ensures tls[0].tweetsInGeo <= SumInts(Counts(tls))
    decreases |tls|
  {
    var init := tls[..|tls| - 1];
    assert tls == init + [tls[|tls| - 1]];
    CountsSnoc(init, tls[|tls| - 1]);
    WeighCounts(init);
    if |init| > 0 {
      TopBelowSum(init);
    }
  }

  /** Skipping bins never adds tweets. */
  lemma {:induction false} UnsharpenLighter(tls: seq<TopLocation>)
    ensures SumInts(Counts(Unsharpen(tls))) <= SumInts(Counts(tls))
  {
    WeighFilter(tls, (t: TopLocation) => |t.geohash| > 0);
    WeighCounts(tls);
  }

  lemma {:induction false} WeighFilter(tls: seq<TopLocation>, keep: TopLocation -> bool)
    ensures 0 <= Weigh(Filter(tls, keep), Tweets) <= Weigh(tls, Tweets)
    decreases |tls|
  {
    if |tls| > 0 {
      var init := tls[..|tls| - 1];
      WeighFilter(init, keep);
      var x := tls[|tls| - 1];
      WeighConcat(Filter(init, keep), if keep(x) then [x] else [], Tweets);
      assert Weigh([x], Tweets) == x.tweetsInGeo by {
        assert [x][..0] == [];
      }
    }
  }

  /** The home location of a user. `Latitude` and `Longitude` decode the
      geohash and are not part of this model. */
  datatype Home = Home(userId: int, geohash: string, percentage: Option<real>, totalTweets: nat)

  /** The home is the first of the bins, and no bin counts more. */
  predicate IsTopOf(h: Home, tls: seq<TopLocation>)
  {
    |tls| > 0 && h.userId == tls[0].userId && h.geohash == tls[0].geohash
    && forall t :: t in tls ==> t.tweetsInGeo <= tls[0].tweetsInGeo
  }

  /** `homeLocation`. */
  function HomeLocation(tls: seq<TopLocation>): (r: Result<Home>)
    ensures |tls| == 0 ==> r.Err?
    ensures r.Ok? ==> r.value.totalTweets == SumInts(Counts(tls))
    ensures r.Ok? ==> !BelowThreshold(r.value.percentage)
    ensures r.Ok? && r.value.percentage.Some? ==> 0.1 <= r.value.percentage.value <= 1.0
    ensures r.Ok? ==> exists t :: t in tls && Encloses(r.value.geohash, t.geohash) && r.value.userId == t.userId
  {
    var total := TotalTweets(tls);
    var res := Coarsen(tls, total);
    if res.Err? then Err(res.msg)
    else if |res.value.1| == 0 then
      Err("index out of range [0] with length 0")
    else
      Ok(Home(res.value.1[0].userId, res.value.1[0].geohash, res.value.0, total))
  }

  /** The tweets of all bins: the `total` summed before the loop. */
  function TotalTweets(tls: seq<TopLocation>): (n: nat)
    ensures n == SumInts(Counts(tls))
  {
    WeighCounts(tls);
    Weigh(tls, Tweets)
  }

  /** The home is the top bin of the round after the last, and its
      percentage is the last round's top share. */
  lemma {:induction false} HomeLocationRounds(tls: seq<TopLocation>)
    ensures HomeLocation(tls).Ok? ==> exists k: nat :: (StopsAfter(Unsharpen, tls, TotalTweets(tls), k)
      && IsTopOf(HomeLocation(tls).value, Unsharpened(Unsharpen, tls, k + 1))
      && HomeLocation(tls).value.percentage == TopShare(Unsharpened(Unsharpen, tls, k), TotalTweets(tls)))
  {
    var total := TotalTweets(tls);
    var res := Coarsen(tls, total);
    CoarsenRounds(tls, total);
    if HomeLocation(tls).Ok? {
      TopCountsMost(res.value.1);
      assert IsTopOf(HomeLocation(tls).value, res.value.1);
    }
  }

  /** `homeLocation` fails exactly when no round stops the loop or the
      round after the last has no bins. */
  lemma {:induction false} HomeLocationFails(tls: seq<TopLocation>)
    ensures HomeLocation(tls).Err? <==> ((forall k: nat :: !StopsAfter(Unsharpen, tls, TotalTweets(tls), k))
      || (exists k: nat :: StopsAfter(Unsharpen, tls, TotalTweets(tls), k) && |Unsharpened(Unsharpen, tls, k + 1)| == 0))
  {
    var total := TotalTweets(tls);
    var res := Coarsen(tls, total);
    CoarsenRounds(tls, total);
    if res.Ok? {
      var k: nat :| StopsAfter(Unsharpen, tls, total, k) && res.value.0 == TopShare(Unsharpened(Unsharpen, tls, k), total)
        && res.value.1 == Unsharpened(Unsharpen, tls, k + 1);
      forall j: nat | StopsAfter(Unsharpen, tls, total, j) ensures j == k {
        StopsOnce(Unsharpen, tls, total, j, k);
      }
    }
  }

  /** The first of bins sorted by count counts most. */
  lemma {:induction false} TopCountsMost(top: seq<TopLocation>)
    requires |top| > 0 && ByCountDesc(top)
    ensures forall t :: t in top ==> t.tweetsInGeo <= top[0].tweetsInGeo
  {
    forall t | t in top ensures t.tweetsInGeo <= top[0].tweetsInGeo {
      var i :| 0 <= i < |top| && top[i] == t;
    }
  }

  /** The loop stops after one round only. */
  lemma {:induction false} StopsOnce(step: Step, tls: seq<TopLocation>, total: nat, j: nat, k: nat)
    requires StopsAfter(step, tls, total, j) && StopsAfter(step, tls, total, k)
    ensures j == k
    decreases j
  {
    if j > 0 && k > 0 {
      StopsOnce(step, step(tls), total, j - 1, k - 1);
    }
  }

  lemma {:induction false} WeighCounts(tls: seq<TopLocation>)
    ensures Weigh(tls, Tweets) == SumInts(Counts(tls)) >= 0
    decreases |tls|
  {
    if |tls| > 0 {
      var init := tls[..|tls| - 1];
      WeighCounts(init);
      assert tls == init + [tls[|tls| - 1]];
      CountsSnoc(init, tls[|tls| - 1]);
    }
  }

  // The main loop over users

  /** The home a user's bins give keeps the user. */
  lemma {:induction false} HomeUser(g: seq<TopLocation>, u: int)
    requires forall t :: t in g ==> t.userId == u
    ensures HomeLocation(g).Ok? ==> HomeLocation(g).value.userId == u
  {
    if HomeLocation(g).Ok? {
      var t :| t in g && Encloses(HomeLocation(g).value.geohash, t.geohash) && HomeLocation(g).value.userId == t.userId;
    }
  }

  /** How a user's bins give a home: `homeLocation`, kept as a parameter
      so the loop below is stated for any such step. */
  type HomeStep = seq<TopLocation> -> Result<Home>

  /** The bin list at k is handed to the step, which fails on it. */
  predicate FailsAt(gs: seq<seq<TopLocation>>, home: HomeStep, k: nat)
    requires k < |gs|
  {
    |gs[k]| >= 2 && home(gs[k]).Err?
  }

  predicate AnyFails(gs: seq<seq<TopLocation>>, home: HomeStep)
  {
    exists k :: 0 <= k < |gs| && FailsAt(gs, home, k)
  }

  /** h is the home of one of the bin lists handed to the step. */
  predicate HomeOfSome(gs: seq<seq<TopLocation>>, home: HomeStep, h: Home)
  {
    exists k :: 0 <= k < |gs| && |gs[k]| >= 2 && home(gs[k]) == Ok(h)
  }

  /** The loop of `main` over the users' bin lists: lists with fewer than
      two bins are skipped, the others each give a home, and the first
      failing step stops the program. */
  function HomesOf(gs: seq<seq<TopLocation>>, home: HomeStep): (r: Result<seq<Home>>)
    ensures r.Err? <==> AnyFails(gs, home)
    ensures r.Ok? ==> forall h :: h in r.value ==> HomeOfSome(gs, home, h)
    decreases |gs|
  {
    if |gs| == 0 then Ok([])
    else
      var rest := HomesOf(gs[1..], home);
      ShiftFails(gs, home);
      if |gs[0]| < 2 then
        ShiftHomes(gs, home, rest);
        rest
      else
        var h := home(gs[0]);
        if h.Err? then Err(h.msg)
        else if rest.Err? then rest
        else
          ShiftHomes(gs, home, rest);
          assert HomeOfSome(gs, home, h.value) by { assert home(gs[0]) == Ok(h.value); }
          Ok([h.value] + rest.value)
  }

  lemma {:induction false} ShiftFails(gs: seq<seq<TopLocation>>, home: HomeStep)
    requires |gs| > 0
    ensures AnyFails(gs, home) <==> FailsAt(gs, home, 0) || AnyFails(gs[1..], home)
  {
    if AnyFails(gs, home) && !FailsAt(gs, home, 0) {
      var k :| 0 <= k < |gs| && FailsAt(gs, home, k);
      assert FailsAt(gs[1..], home, k - 1);
    }
    if AnyFails(gs[1..], home) {
      var k :| 0 <= k < |gs| - 1 && FailsAt(gs[1..], home, k);
      assert FailsAt(gs, home, k + 1);
    }
  }

  lemma {:induction false} ShiftHomes(gs: seq<seq<TopLocation>>, home: HomeStep, rest: Result<seq<Home>>)
    requires |gs| > 0
    requires rest.Ok? ==> forall h :: h in rest.value ==> HomeOfSome(gs[1..], home, h)
    ensures rest.Ok? ==> forall h :: h in rest.value ==> HomeOfSome(gs, home, h)
  {
    if rest.Ok? {
      forall h | h in rest.value
        ensures HomeOfSome(gs, home, h)
      {
        var k :| 0 <= k < |gs| - 1 && |gs[1..][k]| >= 2 && home(gs[1..][k]) == Ok(h);
        assert gs[k + 1] == gs[1..][k];
      }
    }
  }

  /** Every bin list handed to the step and not failing gives a home. */
  lemma {:induction false} HomesOfCovers(gs: seq<seq<TopLocation>>, home: HomeStep, k: nat)
    requires k < |gs| && |gs[k]| >= 2 && HomesOf(gs, home).Ok?
    ensures home(gs[k]).Ok? && home(gs[k]).value in HomesOf(gs, home).value
    decreases k
  {
    assert !FailsAt(gs, home, k);
    ShiftFails(gs, home);
    if k > 0 {
      assert gs[1..][k - 1] == gs[k];
      HomesOfCovers(gs[1..], home, k - 1);
    }
  }

  /** Bin lists of one user each, and of different users. */
  predicate ByUser(gs: seq<seq<TopLocation>>)
  {
    (forall k :: 0 <= k < |gs| ==> |gs[k]| > 0 && forall t :: t in gs[k] ==> t.userId == gs[k][0].userId)
    && forall i, j :: 0 <= i < j < |gs| ==> gs[i][0].userId != gs[j][0].userId
  }

  /** The step gives the home of the user whose bins it is handed. */
  ghost predicate KeepsUser(home: HomeStep)
  {
    forall g: seq<TopLocation> :: |g| > 0 && home(g).Ok? && (forall t :: t in g ==> t.userId == g[0].userId) ==>
      home(g).value.userId == g[0].userId
  }

  lemma {:induction false} HomeLocationKeepsUser()
    ensures KeepsUser(HomeLocation)
  {
    forall g: seq<TopLocation> | |g| > 0 && HomeLocation(g).Ok? && (forall t :: t in g ==> t.userId == g[0].userId)
      ensures HomeLocation(g).value.userId == g[0].userId
    {
      HomeUser(g, g[0].userId);
    }
  }

  /** Over lists of different users the homes are of different users. */
  lemma {:induction false} HomesOfDistinct(gs: seq<seq<TopLocation>>, home: HomeStep)
    requires ByUser(gs) && KeepsUser(home) && HomesOf(gs, home).Ok?
    ensures forall i, j :: 0 <= i < j < |HomesOf(gs, home).value| ==>
      HomesOf(gs, home).value[i].userId != HomesOf(gs, home).value[j].userId
    decreases |gs|
  {
    if |gs| > 0 {
      var rest := gs[1..];
      assert ByUser(rest) by {
        forall k | 0 <= k < |rest|
          ensures |rest[k]| > 0 && forall t: TopLocation :: t in rest[k] ==> t.userId == rest[k][0].userId
        {
          assert rest[k] == gs[k + 1];
        }
      }
      ShiftFails(gs, home);
      HomesOfDistinct(rest, home);
      if |gs[0]| >= 2 {
        var h := home(gs[0]).value;
        var hs := HomesOf(rest, home).value;
        forall o | o in hs
          ensures o.userId != h.userId
        {
          var k :| 0 <= k < |rest| && |rest[k]| >= 2 && home(rest[k]) == Ok(o);
          assert rest[k] == gs[k + 1];
        }
        assert HomesOf(gs, home).value == [h] + hs;
      }
    }
  }

  /** `main`: the bins are grouped by user (`groupByUser`) and every user
      with at least two bins gets a home; a failing `homeLocation` panics.
      Each home is the one the user's own bins give. */
  function HomeLocations(bins: seq<TopLocation>): (r: Result<seq<Home>>)
    ensures r.Ok? ==> forall h :: h in r.value ==>
      |Members(bins, UserOf, h.userId)| >= 2 && HomeLocation(Members(bins, UserOf, h.userId)) == Ok(h)
  {
    var gs := GroupBy(bins, UserOf);
    var r := HomesOf(gs, HomeLocation);
    HomesFromUsers(bins, gs, r);
    r
  }

  lemma {:induction false} HomesFromUsers(bins: seq<TopLocation>, gs: seq<seq<TopLocation>>, r: Result<seq<Home>>)
    requires gs == GroupBy(bins, UserOf) && r == HomesOf(gs, HomeLocation)
    ensures r.Ok? ==> forall h :: h in r.value ==>
      |Members(bins, UserOf, h.userId)| >= 2 && HomeLocation(Members(bins, UserOf, h.userId)) == Ok(h)
  {
    HomeLocationKeepsUser();
    HomesFromGroups(bins, gs, HomeLocation, r);
  }

  /** Over the users' groups, every home comes from the bins of its own user. */
  lemma {:induction false} HomesFromGroups(bins: seq<TopLocation>, gs: seq<seq<TopLocation>>, home: HomeStep, r: Result<seq<Home>>)
    requires gs == GroupBy(bins, UserOf) && r == HomesOf(gs, home) && KeepsUser(home)
    ensures r.Ok? ==> forall h :: h in r.value ==>
      |Members(bins, UserOf, h.userId)| >= 2 && home(Members(bins, UserOf, h.userId)) == Ok(h)
  {
    if r.Ok? {
      forall h | h in r.value
        ensures |Members(bins, UserOf, h.userId)| >= 2 && home(Members(bins, UserOf, h.userId)) == Ok(h)
      {
        assert HomeOfSome(gs, home, h);
        var k :| 0 <= k < |gs| && |gs[k]| >= 2 && home(gs[k]) == Ok(h);
        var g := gs[k];
        GroupOfUser(bins, gs, k);
        assert home(g).value.userId == g[0].userId;
        assert g == Members(bins, UserOf, UserOf(g[0]));
      }
    }
  }

  /** A group holds the bins of the user of its first bin, and only those. */
  lemma {:induction false} GroupOfUser(bins: seq<TopLocation>, gs: seq<seq<TopLocation>>, k: nat)
    requires gs == GroupBy(bins, UserOf) && k < |gs|
    ensures |gs[k]| > 0 && forall t :: t in gs[k] ==> t.userId == gs[k][0].userId
    ensures gs[k] == Members(bins, UserOf, gs[k][0].userId)
  {
    forall t | t in gs[k]
      ensures t.userId == gs[k][0].userId
    {
      assert UserOf(t) == UserOf(gs[k][0]);
    }
  }

  /** The bins of user u form one of the groups. */
  lemma {:induction false} UserGroup(bins: seq<TopLocation>, u: int) returns (k: nat)
    requires |Members(bins, UserOf, u)| > 0
    ensures k < |GroupBy(bins, UserOf)| && GroupBy(bins, UserOf)[k] == Members(bins, UserOf, u)
  {
    var gs := GroupBy(bins, UserOf);
    var x := Members(bins, UserOf, u)[0];
    assert x in Members(bins, UserOf, u);
    var i :| 0 <= i < |gs| && x in gs[i];
    k := i;
  }

  /** The program panics exactly when some user with at least two bins
      has bins `homeLocation` fails on. */
  lemma {:induction false} HomeLocationsFail(bins: seq<TopLocation>)
    ensures HomeLocations(bins).Err? <==>
      exists u :: |Members(bins, UserOf, u)| >= 2 && HomeLocation(Members(bins, UserOf, u)).Err?
  {
    var gs := GroupBy(bins, UserOf);
    if HomeLocations(bins).Err? {
      var k :| 0 <= k < |gs| && FailsAt(gs, HomeLocation, k);
      assert gs[k] == Members(bins, UserOf, UserOf(gs[k][0]));
    }
    if exists u :: |Members(bins, UserOf, u)| >= 2 && HomeLocation(Members(bins, UserOf, u)).Err? {
      var u :| |Members(bins, UserOf, u)| >= 2 && HomeLocation(Members(bins, UserOf, u)).Err?;
      var k := UserGroup(bins, u);
      assert FailsAt(gs, HomeLocation, k);
    }
  }

  /** Every user with at least two bins gets a home. */
  lemma {:induction false} HomeLocationsCover(bins: seq<TopLocation>, u: int)
    requires HomeLocations(bins).Ok? && |Members(bins, UserOf, u)| >= 2
    ensures exists h :: h in HomeLocations(bins).value && h.userId == u
  {
    var gs := GroupBy(bins, UserOf);
    var k := UserGroup(bins, u);
    HomesOfCovers(gs, HomeLocation, k);
    HomeUser(gs[k], u);
  }

  /** No user gets two homes. */
  lemma {:induction false} HomeLocationsDistinct(bins: seq<TopLocation>)
    requires HomeLocations(bins).Ok?
    ensures forall i, j :: 0 <= i < j < |HomeLocations(bins).value| ==>
      HomeLocations(bins).value[i].userId != HomeLocations(bins).value[j].userId
  {
    var gs := GroupBy(bins, UserOf);
    assert ByUser(gs);
    HomeLocationKeepsUser();
    HomesOfDistinct(gs, HomeLocation);
  }

  // Single bins

  /** A user whose only bin has no geohash: the first round's share is
      not below 0.1, the bin is skipped by `unsharpen`, and reading the top
      bin of the empty result fails. */
  lemma {:induction false} EmptyGeohashFails(u: int, n: nat)
    ensures HomeLocation([TopLocation(u, "", n)]).Err?
  {
    var tls := [TopLocation(u, "", n)];
    var next := Unsharpen(tls);
    if |next| > 0 {
      FirstIn(next);
      assert false;
    }
  }

  lemma {:induction false} FirstIn<T>(s: seq<T>)
    requires |s| > 0
    ensures s[0] in s
  {
  }

  /** A single bin with a geohash and some tweets holds all of them, so the
      loop stops after one round; the home is the bin's enclosing cell. */
  lemma {:induction false} OneBinHome(u: int, g: string, n: nat)
    requires |g| > 0 && n > 0
    ensures HomeLocation([TopLocation(u, g, n)]) == Ok(Home(u, Parent(g), Some(1.0), n))
  {
    var tls := [TopLocation(u, g, n)];
    assert TotalTweets(tls) == n by {
      assert tls[..|tls| - 1] == [];
      assert Weigh(tls, Tweets) == Weigh([], Tweets) + Tweets(tls[0]);
    }
    WholeShare(n);
    UnsharpenOneBin(u, g, n);
  }

  /** A positive count is all of itself. */
  lemma {:induction false} WholeShare(n: nat)
    requires n > 0
    ensures Share(n, n) == Some(1.0)
  {
    assert (n as real) / (n as real) == 1.0;
  }

  /** `unsharpen` of a single bin with a geohash is its enclosing cell with
      the same count. */
  lemma {:induction false} UnsharpenOneBin(u: int, g: string, n: nat)
    requires |g| > 0 && n > 0
    ensures Unsharpen([TopLocation(u, g, n)]) == [TopLocation(u, Parent(g), n)]
  {
    var tls := [TopLocation(u, g, n)];
    var next := Unsharpen(tls);
    OneCell(next, tls);
    OneBinWeight(u, g, n);
    AtMostOneSum(next);
    assert |next| == 1;
    FirstIn(next);
    assert next == [next[0]];
  }

  /** The total count of at most one bin. */
  lemma {:induction false} AtMostOneSum(r: seq<TopLocation>)
    requires |r| <= 1
    ensures SumInts(Counts(r)) == if |r| == 0 then 0 else r[0].tweetsInGeo
  {
    if |r| == 1 {
      assert Counts(r) == [r[0].tweetsInGeo];
    } else {
      assert Counts(r) == [];
    }
  }

  /** Bins with distinct cells, all moved from one bin, are at most one. */
  lemma {:induction false} OneCell(r: seq<TopLocation>, tls: seq<TopLocation>)
    requires |tls| == 1 && |tls[0].geohash| > 0
    requires FromBins(r, tls) && DistinctCells(r)
    ensures |r| <= 1
    ensures forall o :: o in r ==> o.geohash == Parent(tls[0].geohash) && o.userId == tls[0].userId
  {
    if |r| > 1 {
      SameCell(r, tls);
      assert false;
    }
  }

  lemma {:induction false} SameCell(r: seq<TopLocation>, tls: seq<TopLocation>)
    requires |tls| == 1 && |r| > 1 && FromBins(r, tls)
    ensures r[0].geohash == r[1].geohash
  {
    assert r[0] in r && r[1] in r;
  }

  lemma {:induction false} OneBinWeight(u: int, g: string, n: nat)
    requires |g| > 0
    ensures Weigh(WithGeohash([TopLocation(u, g, n)]), Tweets) == n
  {
    var tls := [TopLocation(u, g, n)];
    var w := WithGeohash(tls);
    assert tls[0] in w;
    assert w == tls by {
      assert forall t :: t in w ==> t == tls[0];
    }
    assert tls[..0] == [];
  }
}

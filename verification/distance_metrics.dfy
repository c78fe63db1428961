/** Distance-quantile binning and the Kullback-Leibler divergence between a
    ground-truth and a model origin-destination matrix, as computed by
    `DistanceMetrics` and `Sampers.distance_cut` in lib/validation.py.

    A quantile grouping is given as one sequence of ODM positions per
    distance bin (the positions `pd.qcut` assigns to that bin); `log10` is a
    parameter because the model does not interpret transcendental functions. */
module DistanceMetrics {
  import opened Common
  import opened KlMerge

  // ---------------------------------------------------------------------
  // Tables produced by `compute`
  // ---------------------------------------------------------------------

  datatype Frame = Frame(columns: seq<string>, rows: seq<seq<real>>)

  /** A data frame: every row has one value per column. */
  type Table = f: Frame | forall i :: 0 <= i < |f.rows| ==> |f.rows[i]| == |f.columns|
    witness Frame([], [])

  /** The values of `o` at the positions `g` (pandas `iloc`). */
  function Gather(o: seq<real>, g: seq<nat>): (r: seq<real>)
    requires PositionsIn(g, |o|)
    ensures |r| == |g|
    ensures forall i :: 0 <= i < |g| ==> r[i] == o[g[i]]
  {
    seq(|g|, i requires 0 <= i < |g| => o[g[i]])
  }

  predicate PositionsIn(g: seq<nat>, n: nat)
  {
    forall i :: 0 <= i < |g| ==> g[i] < n
  }

  predicate AllPositionsValid(groups: seq<seq<nat>>, odms: seq<seq<real>>)
  {
    forall g, k :: 0 <= g < |groups| && 0 <= k < |odms| ==> PositionsIn(groups[g], |odms[k]|)
  }

  function SumColumnNames(titles: seq<string>): (r: seq<string>)
    ensures |r| == |titles|
    ensures forall k :: 0 <= k < |titles| ==> r[k] == titles[k] + "_sum"
  {
    seq(|titles|, k requires 0 <= k < |titles| => titles[k] + "_sum")
  }

  /** `compute`: one row per quantile group holding, for every ODM, that ODM's
      mass over the group's positions, under a column `<title>_sum`. */
  function Compute(groups: seq<seq<nat>>, odms: seq<seq<real>>, titles: seq<string>): (r: Result<Table>)
    ensures |odms| != |titles| ==> r.Err?
    ensures r.Err? <==> |odms| != |titles| || !AllPositionsValid(groups, odms)
    ensures r.Ok? ==> r.value.columns == SumColumnNames(titles)
    ensures r.Ok? ==> |r.value.rows| == |groups|
    ensures r.Ok? ==> forall g, k :: 0 <= g < |groups| && 0 <= k < |odms| ==>
                        r.value.rows[g][k] == Sum(Gather(odms[k], groups[g]))
  {
    if |odms| != |titles| then Err("odms and titles must have same length")
    else if !AllPositionsValid(groups, odms) then Err("single positional indexer is out-of-bounds")
    else
      var rows := seq(|groups|, g requires 0 <= g < |groups| =>
                    seq(|odms|, k requires 0 <= k < |odms| => Sum(Gather(odms[k], groups[g]))));
      var t: Table := Frame(SumColumnNames(titles), rows);
      Ok(t)
  }

  /** Column `k` of a table, top to bottom. */
  function ColumnAt(t: Table, k: nat): (c: seq<real>)
    requires k < |t.columns|
    ensures |c| == |t.rows|
    ensures forall i :: 0 <= i < |t.rows| ==> c[i] == t.rows[i][k]
  {
    seq(|t.rows|, i requires 0 <= i < |t.rows| => t.rows[i][k])
  }

  function Flatten(groups: seq<seq<nat>>): seq<nat>
  {
    if |groups| == 0 then [] else Flatten(groups[..|groups| - 1]) + groups[|groups| - 1]
  }

  function Range(n: nat): (r: seq<nat>)
    ensures |r| == n
    ensures forall i :: 0 <= i < n ==> r[i] == i
  {
    seq(n, i requires 0 <= i < n => i)
  }

  lemma {:induction false} GatherConcat(o: seq<real>, a: seq<nat>, b: seq<nat>)
    requires PositionsIn(a, |o|) && PositionsIn(b, |o|)
    ensures PositionsIn(a + b, |o|)
    ensures Gather(o, a + b) == Gather(o, a) + Gather(o, b)
  {
  }

  lemma {:induction false} MultisetRemove(b: seq<nat>, j: nat)
    requires j < |b|
    ensures multiset(b[..j] + b[j + 1..]) == multiset(b) - multiset{b[j]}
  {
    assert b == b[..j] + [b[j]] + b[j + 1..];
  }

  /** Taking position `b[j]` out of the list removes exactly its mass. */
  lemma {:induction false} SumGatherRemove(o: seq<real>, b: seq<nat>, j: nat)
    requires PositionsIn(b, |o|) && j < |b|
    ensures PositionsIn(b[..j] + b[j + 1..], |o|)
    ensures Sum(Gather(o, b)) == Sum(Gather(o, b[..j] + b[j + 1..])) + o[b[j]]
  {
    var x := b[j];
    assert b == (b[..j] + [x]) + b[j + 1..];
    GatherConcat(o, b[..j], [x]);
    GatherConcat(o, b[..j] + [x], b[j + 1..]);
    GatherConcat(o, b[..j], b[j + 1..]);
    assert Gather(o, [x]) == [o[x]];
    SumConcat(Gather(o, b[..j]), [o[x]]);
    SumConcat(Gather(o, b[..j]) + [o[x]], Gather(o, b[j + 1..]));
    SumConcat(Gather(o, b[..j]), Gather(o, b[j + 1..]));
    SumSingleton(o[x]);
  }

  /** Reordering the positions does not change their total mass. */
  lemma {:induction false} SumGatherPermutation(o: seq<real>, a: seq<nat>, b: seq<nat>)
    requires PositionsIn(a, |o|) && PositionsIn(b, |o|)
    requires multiset(a) == multiset(b)
    ensures Sum(Gather(o, a)) == Sum(Gather(o, b))
    decreases |a|
  {
    if |a| == 0 {
      assert |multiset(b)| == 0;
    } else {
      var n := |a| - 1;
      var x := a[n];
      assert x in multiset(a);
      assert x in b;
      var j :| 0 <= j < |b| && b[j] == x;
      MultisetRemove(a, n);
      MultisetRemove(b, j);
      assert a[..n] + a[n + 1..] == a[..n];
      SumGatherPermutation(o, a[..n], b[..j] + b[j + 1..]);
      SumGatherRemove(o, a, n);
      SumGatherRemove(o, b, j);
    }
  }

  /** The mass of `o` over each group, one entry per group. */
  function GroupSums(o: seq<real>, groups: seq<seq<nat>>): (r: seq<real>)
    requires forall g :: 0 <= g < |groups| ==> PositionsIn(groups[g], |o|)
    ensures |r| == |groups|
    ensures forall g :: 0 <= g < |groups| ==> r[g] == Sum(Gather(o, groups[g]))
  {
    seq(|groups|, g requires 0 <= g < |groups| => Sum(Gather(o, groups[g])))
  }

  lemma {:induction false} FlattenPositions(o: seq<real>, groups: seq<seq<nat>>)
    requires forall g :: 0 <= g < |groups| ==> PositionsIn(groups[g], |o|)
    ensures PositionsIn(Flatten(groups), |o|)
    decreases |groups|
  {
    if |groups| > 0 {
      FlattenPositions(o, groups[..|groups| - 1]);
    }
  }

  lemma {:induction false} SumOfGroupSums(o: seq<real>, groups: seq<seq<nat>>)
    requires forall g :: 0 <= g < |groups| ==> PositionsIn(groups[g], |o|)
    ensures PositionsIn(Flatten(groups), |o|)
    ensures Sum(GroupSums(o, groups)) == Sum(Gather(o, Flatten(groups)))
    decreases |groups|
  {
    FlattenPositions(o, groups);
    if |groups| > 0 {
      var init := groups[..|groups| - 1];
      SumOfGroupSums(o, init);
      assert GroupSums(o, groups)[..|groups| - 1] == GroupSums(o, init);
      GatherConcat(o, Flatten(init), groups[|groups| - 1]);
      SumConcat(Gather(o, Flatten(init)), Gather(o, groups[|groups| - 1]));
    }
  }

  /** When the quantile groups partition the ODM positions, the `_sum` column
      of every ODM adds up to that ODM's total mass. */
  lemma {:induction false} ComputeConservesMass(groups: seq<seq<nat>>, odms: seq<seq<real>>, titles: seq<string>, k: nat)
    requires |odms| == |titles| && k < |odms|
    requires forall j :: 0 <= j < |odms| ==> |odms[j]| == |odms[k]|
    requires multiset(Flatten(groups)) == multiset(Range(|odms[k]|))
    ensures Compute(groups, odms, titles).Ok?
    ensures Sum(ColumnAt(Compute(groups, odms, titles).value, k)) == Sum(odms[k])
  {
    var n := |odms[k]|;
    forall g, j | 0 <= g < |groups| && 0 <= j < |odms| ensures PositionsIn(groups[g], |odms[j]|) {
      forall i | 0 <= i < |groups[g]| ensures groups[g][i] < n {
        FlattenContains(groups, g, i);
        assert groups[g][i] in multiset(Range(n));
      }
    }
    var t := Compute(groups, odms, titles).value;
    var o := odms[k];
    SumOfGroupSums(o, groups);
    assert ColumnAt(t, k) == GroupSums(o, groups);
    SumGatherPermutation(o, Flatten(groups), Range(n));
    assert Gather(o, Range(n)) == o;
  }

  lemma {:induction false} FlattenContains(groups: seq<seq<nat>>, g: nat, i: nat)
    requires g < |groups| && i < |groups[g]|
    ensures groups[g][i] in multiset(Flatten(groups))
    decreases |groups|
  {
    if g < |groups| - 1 {
      FlattenContains(groups[..|groups| - 1], g, i);
      assert groups[..|groups| - 1][g] == groups[g];
    } else {
      assert groups[g][i] in groups[|groups| - 1];
    }
  }

  // ---------------------------------------------------------------------
  // `distance_cut`
  // ---------------------------------------------------------------------

  /** The cells `distance_cut` keeps: on the national scale the pairs
      closer than 100 km are set to zero, otherwise all cells are kept and
      the distances are not read. */
  function DistanceCutCells(scale: string, odm: seq<real>, distances: seq<real>): (r: seq<real>)
    requires scale == "national" ==> |odm| == |distances|
    ensures |r| == |odm|
    ensures forall i :: 0 <= i < |odm| ==>
              r[i] == (if scale == "national" && distances[i] < 100.0 then 0.0 else odm[i])
  {
    if scale == "national"
    then seq(|odm|, i requires 0 <= i < |odm| => if distances[i] < 100.0 then 0.0 else odm[i])
    else odm
  }

  /** `distance_cut`: the kept cells divided by their total. Only the
      national scale reads the distances, and only there can they fail to
      align with the cells. A zero total makes pandas produce NaN,
      reported here as an error. */
  function DistanceCut(scale: string, odm: seq<real>, distances: seq<real>): (r: Result<seq<real>>)
    ensures scale == "national" && |odm| != |distances| ==> r.Err?
    ensures (scale != "national" || |odm| == |distances|) ==>
              (r.Err? <==> Sum(DistanceCutCells(scale, odm, distances)) == 0.0)
    ensures r.Ok? ==> |r.value| == |odm| && Sum(r.value) == 1.0
    ensures r.Ok? && scale == "national" ==>
              forall i :: 0 <= i < |odm| && distances[i] < 100.0 ==> r.value[i] == 0.0
    ensures r.Ok? ==> forall i :: 0 <= i < |odm| ==>
              r.value[i] * Sum(DistanceCutCells(scale, odm, distances)) == DistanceCutCells(scale, odm, distances)[i]
  {
    if scale == "national" && |odm| != |distances| then Err("unalignable boolean series")
    else
      var cut := DistanceCutCells(scale, odm, distances);
      if Sum(cut) == 0.0 then Err("division by a zero total")
      else
        NormalizeKeepsZeros(cut);
        Ok(Normalize(cut))
  }

  // ---------------------------------------------------------------------
  // `kullback_leibler`
  // ---------------------------------------------------------------------

  /** The value `kullback_leibler` returns: a number (999 is the sentinel),
      or NaN when a ground-truth bin is still 0 after merging, where numpy
      evaluates 0 * log10(0). */
  datatype Divergence = Score(value: real) | NotANumber

  const SENTINEL: real := 999.0

  /** Step 1: drop the bins where both series are 0. */
  function DropEmptyBins(gt: seq<real>, m: seq<real>): (r: (seq<real>, seq<real>))
    requires |gt| == |m|
    ensures |r.0| == |r.1| <= |gt|
    ensures forall i :: 0 <= i < |r.0| ==> r.0[i] != 0.0 || r.1[i] != 0.0
    decreases |gt|
  {
    if |gt| == 0 then ([], [])
    else
      var n := |gt| - 1;
      var init := DropEmptyBins(gt[..n], m[..n]);
      if gt[n] == 0.0 && m[n] == 0.0 then init
      else (init.0 + [gt[n]], init.1 + [m[n]])
  }

  /** Dropping empty bins loses no mass. */
  lemma {:induction false} DropEmptyBinsKeepsMass(gt: seq<real>, m: seq<real>)
    requires |gt| == |m|
    ensures Sum(DropEmptyBins(gt, m).0) == Sum(gt) && Sum(DropEmptyBins(gt, m).1) == Sum(m)
    decreases |gt|
  {
    if |gt| > 0 {
      var n := |gt| - 1;
      DropEmptyBinsKeepsMass(gt[..n], m[..n]);
      var init := DropEmptyBins(gt[..n], m[..n]);
      if !(gt[n] == 0.0 && m[n] == 0.0) {
        var r := (init.0 + [gt[n]], init.1 + [m[n]]);
        assert r.0[..|init.0|] == init.0 && r.1[..|init.1|] == init.1;
      }
    }
  }

  /** Dropping empty bins keeps the masses non-negative. */
  lemma {:induction false} DropEmptyBinsNonNegative(gt: seq<real>, m: seq<real>)
    requires |gt| == |m| && AllNonNegative(gt) && AllNonNegative(m)
    ensures AllNonNegative(DropEmptyBins(gt, m).0) && AllNonNegative(DropEmptyBins(gt, m).1)
    decreases |gt|
  {
    if |gt| > 0 {
      var n := |gt| - 1;
      assert AllNonNegative(gt[..n]) && AllNonNegative(m[..n]);
      DropEmptyBinsNonNegative(gt[..n], m[..n]);
    }
  }

  /** With no empty bin nothing is dropped. */
  lemma {:induction false} DropEmptyBinsIdentity(gt: seq<real>, m: seq<real>)
    requires |gt| == |m|
    requires forall i :: 0 <= i < |gt| ==> gt[i] != 0.0 || m[i] != 0.0
    ensures DropEmptyBins(gt, m) == (gt, m)
    decreases |gt|
  {
    if |gt| > 0 {
      var n := |gt| - 1;
      assert gt[n] != 0.0 || m[n] != 0.0;
      assert forall i :: 0 <= i < n ==> gt[..n][i] != 0.0 || m[..n][i] != 0.0;
      DropEmptyBinsIdentity(gt[..n], m[..n]);
      assert gt[..n] + [gt[n]] == gt;
      assert m[..n] + [m[n]] == m;
    }
  }

  /** With every bin empty everything is dropped. */
  lemma {:induction false} DropEmptyBinsAllEmpty(gt: seq<real>, m: seq<real>)
    requires |gt| == |m|
    requires forall i :: 0 <= i < |gt| ==> gt[i] == 0.0 && m[i] == 0.0
    ensures DropEmptyBins(gt, m) == ([], [])
    decreases |gt|
  {
    if |gt| > 0 {
      var n := |gt| - 1;
      assert forall i :: 0 <= i < n ==> gt[..n][i] == 0.0 && m[..n][i] == 0.0;
      DropEmptyBinsAllEmpty(gt[..n], m[..n]);
    }
  }

  /** Steps 1 and 2: the ground-truth and model series after dropping empty
      bins and merging around zeros. */
  function MergedColumns(gt: seq<real>, m: seq<real>): (r: (seq<real>, seq<real>))
    requires |gt| == |m|
  {
    var (g, mm) := DropEmptyBins(gt, m);
    var T := MergePositions(g, mm);
    (MergedSeries(g, T), MergedSeries(mm, T))
  }

  /** Σ gt_i · log10(gt_i / m_i). */
  function KlSum(g: seq<real>, m: seq<real>, log10: real -> real): real
    requires |g| == |m|
    requires forall i :: 0 <= i < |m| ==> m[i] != 0.0
  {
    if |g| == 0 then 0.0
    else KlSum(g[..|g| - 1], m[..|m| - 1], log10) + g[|g| - 1] * log10(g[|g| - 1] / m[|m| - 1])
  }

  /** Steps 3 and 4 on two aligned columns. */
  function KlFromSeries(gt: seq<real>, m: seq<real>, log10: real -> real): (r: Divergence)
    requires |gt| == |m|
  {
    var (g, mm) := DropEmptyBins(gt, m);
    var T := MergePositions(g, mm);
    MergedSeriesLength(g, mm, T);
    var gOut := MergedSeries(g, T);
    var mOut := MergedSeries(mm, T);
    if 0.0 in mOut then Score(SENTINEL)
    else if 0.0 in gOut then NotANumber
    else Score(KlSum(gOut, mOut, log10))
  }

  /** The index of the first column with this name (pandas column lookup). */
  function ColumnIndex(columns: seq<string>, name: string): (r: Option<nat>)
    ensures r.Some? ==> r.value < |columns| && columns[r.value] == name
    ensures r.None? <==> name !in columns
  {
    if |columns| == 0 then None
    else if columns[0] == name then Some(0)
    else match ColumnIndex(columns[1..], name)
      case None => None
      case Some(i) => Some(i + 1)
  }

  /** `kullback_leibler(distances, titles)`: titles[0] names the ground
      truth and titles[1] the model; their `_sum` columns are compared. */
  function KullbackLeibler(t: Table, titles: Option<seq<string>>, log10: real -> real): (r: Result<Divergence>)
    ensures titles.None? || |titles.value| != 2 ==> r.Err?
    ensures titles.Some? && |titles.value| == 2 && (titles.value[0] + "_sum") !in t.columns ==> r.Err?
    ensures titles.Some? && |titles.value| == 2 && (titles.value[1] + "_sum") !in t.columns ==> r.Err?
    ensures titles.Some? && |titles.value| == 2 && (titles.value[0] + "_sum") in t.columns && (titles.value[1] + "_sum") in t.columns ==> r.Ok?
    ensures r.Ok? ==> exists a: nat, b: nat :: a < |t.columns| && b < |t.columns| &&
                        t.columns[a] == titles.value[0] + "_sum" && t.columns[b] == titles.value[1] + "_sum" &&
                        r.value == KlFromSeries(ColumnAt(t, a), ColumnAt(t, b), log10)
  {
    if titles.None? || |titles.value| != 2 then Err("Two distance distributions need to be specified.")
    else
      match (ColumnIndex(t.columns, titles.value[0] + "_sum"), ColumnIndex(t.columns, titles.value[1] + "_sum"))
      case (Some(a), Some(b)) => Ok(KlFromSeries(ColumnAt(t, a), ColumnAt(t, b), log10))
      case _ => Err("KeyError: missing _sum column")
  }

  // ---------------------------------------------------------------------
  // Properties of the divergence
  // ---------------------------------------------------------------------

  /** After merging, a 0 can only be left in the last bin of either series,
      and only when the final run reaches the last remaining input bin; a 0
      in the model series makes the result the sentinel. */
  lemma {:induction false} ZeroOnlyInLastMergedBin(gt: seq<real>, m: seq<real>, log10: real -> real)
    requires |gt| == |m|
    requires AllNonNegative(gt) && AllNonNegative(m)
    ensures var (gOut, mOut) := MergedColumns(gt, m);
            (0.0 in mOut <==> |mOut| > 0 && mOut[|mOut| - 1] == 0.0)
            && (0.0 in gOut <==> |gOut| > 0 && gOut[|gOut| - 1] == 0.0)
            && (0.0 in mOut ==> KlFromSeries(gt, m, log10) == Score(SENTINEL))
            && (0.0 in mOut || 0.0 in gOut ==>
                  var g := DropEmptyBins(gt, m).0;
                  Covered(MergePositions(g, DropEmptyBins(gt, m).1), |g|) == |g|)
  {
    var (g, mm) := DropEmptyBins(gt, m);
    DropEmptyBinsNonNegative(gt, m);
    var T := MergePositions(g, mm);
    MergedBinsPositive(g, mm, g);
    MergedBinsPositive(g, mm, mm);
    ZeroOnlyAtEnd(MergedSeries(g, T), Covered(T, |g|) == |g|);
    ZeroOnlyAtEnd(MergedSeries(mm, T), Covered(T, |mm|) == |mm|);
  }

  /** Under `PositiveButLast` a zero can only be the last bin, and only
      when the last bin may be zero. */
  lemma {:induction false} ZeroOnlyAtEnd(e: seq<real>, z: bool)
    requires PositiveButLast(e, z)
    ensures 0.0 in e <==> |e| > 0 && e[|e| - 1] == 0.0
    ensures 0.0 in e ==> z
  {
    if 0.0 in e {
      var i :| 0 <= i < |e| && e[i] == 0.0;
      assert i == |e| - 1;
    }
  }

  /** Without zero bins nothing is merged: the divergence is the plain sum
      Σ gt·log10(gt/model) over all bins. */
  lemma {:induction false} NoZeroBinsNoMerge(gt: seq<real>, m: seq<real>, log10: real -> real)
    requires |gt| == |m|
    requires forall i :: 0 <= i < |gt| ==> gt[i] != 0.0 && m[i] != 0.0
    ensures KlFromSeries(gt, m, log10) == Score(KlSum(gt, m, log10))
  {
    DropEmptyBinsIdentity(gt, m);
    NoMergeFrom(gt, m, -1);
  }

  /** Without zero bins no position from p on is in the merge set. */
  lemma {:induction false} NoMergeFrom(gt: seq<real>, m: seq<real>, p: int)
    requires |gt| == |m| && -1 <= p <= |gt|
    requires forall i :: 0 <= i < |gt| ==> gt[i] != 0.0 && m[i] != 0.0
    ensures MergePositionsFrom(gt, m, p) == []
    decreases |gt| - p
  {
    if p < |gt| {
      assert !InMergeSet(gt, m, p);
      NoMergeFrom(gt, m, p + 1);
    }
  }

  lemma {:induction false} KlSumOfIdenticalSeries(x: seq<real>, log10: real -> real)
    requires forall i :: 0 <= i < |x| ==> x[i] != 0.0
    requires log10(1.0) == 0.0
    ensures KlSum(x, x, log10) == 0.0
    decreases |x|
  {
    if |x| > 0 {
      KlSumOfIdenticalSeries(x[..|x| - 1], log10);
      assert x[|x| - 1] / x[|x| - 1] == 1.0;
    }
  }

  /** Identical series without zero bins have divergence 0. */
  lemma {:induction false} IdenticalSeriesScoreZero(x: seq<real>, log10: real -> real)
    requires forall i :: 0 <= i < |x| ==> x[i] != 0.0
    requires log10(1.0) == 0.0
    ensures KlFromSeries(x, x, log10) == Score(0.0)
  {
    NoZeroBinsNoMerge(x, x, log10);
    KlSumOfIdenticalSeries(x, log10);
  }

  /** All-zero columns leave empty series, and the divergence is 0. */
  lemma {:induction false} AllZeroScoresZero(gt: seq<real>, m: seq<real>, log10: real -> real)
    requires |gt| == |m|
    requires forall i :: 0 <= i < |gt| ==> gt[i] == 0.0 && m[i] == 0.0
    ensures KlFromSeries(gt, m, log10) == Score(0.0)
  {
    DropEmptyBinsAllEmpty(gt, m);
    var e: seq<real> := [];
    assert MergePositionsFrom(e, e, 0) == [];
    assert !InMergeSet(e, e, -1);
    assert MergePositions(e, e) == [];
  }

  lemma {:induction false} DisjointTwoBinsMergeSet(gt: seq<real>, m: seq<real>)
    requires |gt| == |m| == 2 && gt[1] == 0.0 && m[0] == 0.0
    ensures MergePositions(gt, m) == [0, 1]
  {
    assert InMergeSet(gt, m, 0) && InMergeSet(gt, m, 1) && !InMergeSet(gt, m, -1);
    assert MergePositionsFrom(gt, m, 2) == [];
    assert MergePositionsFrom(gt, m, 1) == [1];
    assert MergePositionsFrom(gt, m, 0) == [0, 1];
  }

  /** The divergence of one bin against one bin. */
  lemma {:induction false} KlSumSingle(g: seq<real>, m: seq<real>, log10: real -> real)
    requires |g| == |m| == 1 && m[0] != 0.0
    ensures KlSum(g, m, log10) == g[0] * log10(g[0] / m[0])
  {
    assert g[..0] == [] && m[..0] == [];
  }

  /** Ground truth [a, 0] against model [0, b]: both bins are zero bins and
      the merge folds them into a single bin, so the result is a·log10(a/b)
      rather than the sentinel. */
  lemma {:induction false} DisjointTwoBinsMerge(gt: seq<real>, m: seq<real>, log10: real -> real)
    requires |gt| == |m| == 2
    requires gt[0] > 0.0 && gt[1] == 0.0 && m[0] == 0.0 && m[1] > 0.0
    ensures KlFromSeries(gt, m, log10) == Score(gt[0] * log10(gt[0] / m[1]))
  {
    DropEmptyBinsIdentity(gt, m);
    DisjointTwoBinsMergeSet(gt, m);
    LeadingPairMerges(gt);
    LeadingPairMerges(m);
    KlSumSingle([gt[0]], [m[1]], log10);
  }

  /** With equal masses a = b = 1 that single bin has divergence 0. */
  lemma {:induction false} DisjointUnitBinsScoreZero(log10: real -> real)
    requires log10(1.0) == 0.0
    ensures KlFromSeries([1.0, 0.0], [0.0, 1.0], log10) == Score(0.0)
  {
    DisjointTwoBinsMerge([1.0, 0.0], [0.0, 1.0], log10);
  }
}

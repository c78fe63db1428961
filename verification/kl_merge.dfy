/** The zero-bin merge inside `DistanceMetrics.kullback_leibler`
    (lib/validation.py): which bins are merged, how the source's `while`
    loop folds runs of merge positions, and what survives the merge.

    The model splits the loop into two layers. The merge plan is a list
    of spans of bin positions, each copied or folded into one bin. It
    depends only on the sorted merge set and the number of bins. Applying
    the plan to a series gives the merged series. The source runs the same
    loop over both series in lock-step, which is applying one plan to
    each. */
module KlMerge {
  import opened Common

  // ---------------------------------------------------------------------
  // Python slicing
  // ---------------------------------------------------------------------

  /** A slice bound as Python normalises it for a sequence of length n. */
  function SliceBound(x: int, n: nat): (r: nat)
    ensures r <= n
    ensures 0 <= x <= n ==> r == x
  {
    if x < 0 then (if x + n < 0 then 0 else x + n) else if x > n then n else x
  }

  /** The span [lo, hi) that `d[a:b]` selects in a sequence of length n. */
  function SliceSpan(a: int, b: int, n: nat): (s: (nat, nat))
    ensures s.0 <= s.1 <= n
    ensures 0 <= a <= b <= n ==> s == (a, b)
  {
    var lo := SliceBound(a, n);
    var hi := SliceBound(b, n);
    if lo < hi then (lo, hi) else (lo, lo)
  }

  /** `d[a:b]` with Python's treatment of negative and oversized bounds. */
  function PySlice(d: seq<real>, a: int, b: int): seq<real>
  {
    var s := SliceSpan(a, b, |d|);
    d[s.0..s.1]
  }

  function Min(a: int, b: int): int
  {
    if a < b then a else b
  }

  // ---------------------------------------------------------------------
  // The merge set
  // ---------------------------------------------------------------------

  /** Position i is a zero bin when either series is 0 there. */
  predicate ZeroBin(gt: seq<real>, m: seq<real>, i: int)
    requires |gt| == |m|
  {
    0 <= i < |gt| && (gt[i] == 0.0 || m[i] == 0.0)
  }

  /** Membership in `tomerge`: every zero bin, the bin after each zero bin
      that is not last, and the bin before a zero in the last position. */
  predicate InMergeSet(gt: seq<real>, m: seq<real>, p: int)
    requires |gt| == |m|
  {
    ZeroBin(gt, m, p)
    || (ZeroBin(gt, m, p - 1) && p - 1 < |gt| - 1)
    || (ZeroBin(gt, m, p + 1) && p + 1 == |gt| - 1)
  }

  function MergePositionsFrom(gt: seq<real>, m: seq<real>, p: int): (T: seq<int>)
    requires |gt| == |m|
    requires -1 <= p <= |gt|
    ensures StrictlyIncreasing(T)
    ensures forall x :: x in T <==> p <= x < |gt| && InMergeSet(gt, m, x)
    decreases |gt| - p
  {
    if p == |gt| then []
    else
      var rest := MergePositionsFrom(gt, m, p + 1);
      assert forall i :: 0 <= i < |rest| ==> rest[i] in rest;
      if InMergeSet(gt, m, p) then [p] + rest else rest
  }

  /** `sorted(tomerge)`: the merge set in ascending order. */
  function MergePositions(gt: seq<real>, m: seq<real>): (T: seq<int>)
    requires |gt| == |m|
    ensures StrictlyIncreasing(T)
    ensures forall x :: x in T <==> InMergeSet(gt, m, x)
    ensures forall i :: 0 <= i < |T| ==> -1 <= T[i] < |gt|
  {
    var T := MergePositionsFrom(gt, m, -1);
    assert forall x :: InMergeSet(gt, m, x) ==> -1 <= x < |gt|;
    assert forall i :: 0 <= i < |T| ==> T[i] in T;
    T
  }

  /** A negative merge position arises only from a single bin that is zero
      in one of the series (the bin before a zero in the last position). */
  lemma {:induction false} NegativePositionOnlyForSingleBin(gt: seq<real>, m: seq<real>)
    requires |gt| == |m|
    requires |MergePositions(gt, m)| > 0 && MergePositions(gt, m)[0] < 0
    ensures |gt| == 1 && ZeroBin(gt, m, 0)
  {
    var T := MergePositions(gt, m);
    assert T[0] in T;
  }

  /** Every merge position is a valid bin index unless the first one is -1. */
  lemma {:induction false} MergePositionsInRange(gt: seq<real>, m: seq<real>)
    requires |gt| == |m|
    requires |MergePositions(gt, m)| > 0 && MergePositions(gt, m)[0] >= 0
    ensures forall i :: 0 <= i < |MergePositions(gt, m)| ==> 0 <= MergePositions(gt, m)[i] < |gt|
  {
    var T := MergePositions(gt, m);
    forall i | 0 <= i < |T| ensures 0 <= T[i] {
      assert i == 0 || T[0] < T[i];
    }
  }

  // ---------------------------------------------------------------------
  // The merge plan
  // ---------------------------------------------------------------------

  /** One step of the merge: the bins `d[lo:hi]` (Python bounds) are copied
      one by one, or folded into one bin holding their sum. */
  datatype Piece = Copy(lo: int, hi: int) | Fold(lo: int, hi: int)

  /** A piece whose bounds lie inside a series of n bins, where Python's
      slice is the plain sub-sequence. */
  predicate Fits(p: Piece, n: nat)
  {
    0 <= p.lo <= p.hi <= n
  }

  predicate PlanFits(ps: seq<Piece>, n: nat)
  {
    forall k :: 0 <= k < |ps| ==> Fits(ps[k], n)
  }

  /** Index of the last merge position of the run of consecutive positions
      that starts at index i of T. */
  function RunEnd(T: seq<int>, i: nat): (e: nat)
    requires i < |T|
    ensures i <= e < |T|
    ensures e + 1 < |T| ==> T[e + 1] - T[e] > 1
    decreases |T| - i
  {
    if i + 1 == |T| || T[i + 1] - T[i] > 1 then i else RunEnd(T, i + 1)
  }

  /** The plan from index i of T on, `start` being the first position not
      yet emitted: copy the positions before the next run, fold the run,
      continue after it. Nothing is planned after the last run. */
  function PlanFrom(T: seq<int>, i: nat, start: int): seq<Piece>
    requires i <= |T|
    decreases |T| - i
  {
    if i == |T| then []
    else [Copy(start, T[i])]
         + ([Fold(T[i], T[RunEnd(T, i)] + 1)] + PlanFrom(T, RunEnd(T, i) + 1, T[RunEnd(T, i)] + 1))
  }

  /** The plan of the whole loop. */
  function MergePlan(T: seq<int>): seq<Piece>
  {
    PlanFrom(T, 0, 0)
  }

  /** The bins one piece contributes. */
  function Render(d: seq<real>, p: Piece): seq<real>
  {
    match p
    case Copy(lo, hi) => PySlice(d, lo, hi)
    case Fold(lo, hi) => [Sum(PySlice(d, lo, hi))]
  }

  /** The concatenation of a sequence of series. */
  function Flatten(parts: seq<seq<real>>): seq<real>
  {
    if |parts| == 0 then [] else Flatten(parts[..|parts| - 1]) + parts[|parts| - 1]
  }

  /** The bins of each piece of a plan. */
  function Parts(d: seq<real>, ps: seq<Piece>): (r: seq<seq<real>>)
    ensures |r| == |ps|
  {
    seq(|ps|, k requires 0 <= k < |ps| => Render(d, ps[k]))
  }

  /** A plan applied to a series: the bins of its pieces, in order. */
  function Apply(d: seq<real>, ps: seq<Piece>): seq<real>
  {
    Flatten(Parts(d, ps))
  }

  /** The merged series as the source produces it: the input itself when
      the merge set is empty, otherwise the planned merge. */
  function MergedSeries(d: seq<real>, T: seq<int>): seq<real>
  {
    if |T| == 0 then d else Apply(d, MergePlan(T))
  }

  // ---------------------------------------------------------------------
  // The loop
  // ---------------------------------------------------------------------

  lemma {:induction false} FlattenSnoc(parts: seq<seq<real>>, x: seq<real>)
    ensures Flatten(parts + [x]) == Flatten(parts) + x
  {
    assert (parts + [x])[..|parts|] == parts;
  }

  lemma {:induction false} FlattenCons(x: seq<real>, parts: seq<seq<real>>)
    ensures Flatten([x] + parts) == x + Flatten(parts)
    decreases |parts|
  {
    var q := [x] + parts;
    if |parts| == 0 {
      assert q[..0] == [];
      assert Flatten(q) == [] + x;
    } else {
      var init := parts[..|parts| - 1];
      assert q[..|q| - 1] == [x] + init;
      FlattenCons(x, init);
      assert Flatten(q) == (x + Flatten(init)) + parts[|parts| - 1];
    }
  }

  lemma {:induction false} ApplySnoc(d: seq<real>, ps: seq<Piece>, p: Piece)
    ensures Apply(d, ps + [p]) == Apply(d, ps) + Render(d, p)
  {
    assert Parts(d, ps + [p]) == Parts(d, ps) + [Render(d, p)];
    FlattenSnoc(Parts(d, ps), Render(d, p));
  }

  /** Applying a plan piece by piece from the front. */
  lemma {:induction false} ApplyCons(d: seq<real>, p: Piece, ps: seq<Piece>)
    ensures Apply(d, [p] + ps) == Render(d, p) + Apply(d, ps)
  {
    assert Parts(d, [p] + ps) == [Render(d, p)] + Parts(d, ps);
    FlattenCons(Render(d, p), Parts(d, ps));
  }

  lemma {:induction false} ApplyPair(d: seq<real>, p: Piece, q: Piece)
    ensures Apply(d, [p, q]) == Render(d, p) + Render(d, q)
  {
    assert Parts(d, [p, q]) == [Render(d, p)] + [Render(d, q)];
    FlattenCons(Render(d, p), [Render(d, q)]);
    FlattenCons(Render(d, q), []);
    assert Flatten([]) == [];
  }


  /** What is left of the plan once the copy before the run at index i is
      done: the fold of that run, then the plan after it. */
  function RunRest(T: seq<int>, i: nat): seq<Piece>
    requires i < |T|
  {
    [Fold(T[i], T[RunEnd(T, i)] + 1)] + PlanFrom(T, RunEnd(T, i) + 1, T[RunEnd(T, i)] + 1)
  }

  /** The plan from a run on copies the bins before it, then carries out
      the rest of that run. */
  lemma {:induction false} PlanFromRun(T: seq<int>, i: nat, start: int)
    requires i < |T|
    ensures PlanFrom(T, i, start) == [Copy(start, T[i])] + RunRest(T, i)
  {
  }

  /** Folding the run that started at index r and ends at index i leaves the
      plan after that run, which is empty after the last run. */
  lemma {:induction false} RunRestFold(T: seq<int>, r: nat, i: nat)
    requires r <= i < |T| && RunEnd(T, r) == i
    ensures RunRest(T, r) == [Fold(T[r], T[i] + 1)] + PlanFrom(T, i + 1, T[i] + 1)
    ensures i + 1 == |T| ==> PlanFrom(T, i + 1, T[i] + 1) == []
  {
  }

  /** Inside a run: the run starting at i ends where the run starting at
      i + 1 ends. */
  lemma {:induction false} RunContinues(T: seq<int>, i: nat)
    requires i + 1 < |T| && T[i + 1] - T[i] <= 1
    ensures RunEnd(T, i) == RunEnd(T, i + 1)
  {
  }

  /** The loop's test for the end of a run. */
  lemma {:induction false} RunEndsHere(T: seq<int>, i: nat)
    requires i < |T| && (i == |T| - 1 || T[i + 1] - T[i] > 1)
    ensures RunEnd(T, i) == i
  {
  }

  /** The output the source's loop still appends from the state with index
      i, `end_ind` e and `start_ind` s: one step of the loop per unfolding. */
  ghost function LoopRest(d: seq<real>, T: seq<int>, i: nat, e: int, s: int): seq<real>
    requires i <= |T|
    decreases 2 * (|T| - i) + (if i < |T| && e < T[i] then 1 else 0)
  {
    if i == |T| then []
    else if e < T[i] then PySlice(d, s, T[i]) + LoopRest(d, T, i, T[i], T[i])
    else if i == |T| - 1 || T[Min(|T| - 1, i + 1)] - T[i] > 1 then
      [Sum(PySlice(d, s, T[i] + 1))] + LoopRest(d, T, i + 1, T[i] + 1, T[i] + 1)
    else LoopRest(d, T, i + 1, T[i + 1], s)
  }

  lemma {:induction false} ApplyEmpty(d: seq<real>)
    ensures Apply(d, []) == []
  {
    assert Parts(d, []) == [];
  }


  /** Between runs (`end_ind` equal to `start_ind`, the next merge position
      strictly above it) the loop carries out the plan from index i. */
  lemma {:induction false} LoopBetweenRuns(d: seq<real>, T: seq<int>, i: nat, s: int)
    requires i <= |T|
    requires i < |T| ==> s < T[i]
    ensures LoopRest(d, T, i, s, s) == Apply(d, PlanFrom(T, i, s))
    decreases |T| - i, 1
  {
    if i == |T| {
      ApplyEmpty(d);
    } else {
      LoopInRun(d, T, i, i);
      PlanFromRun(T, i, s);
      ApplyCons(d, Copy(s, T[i]), RunRest(T, i));
    }
  }

  /** Inside the run that started at index r, with `end_ind` at T[i], the
      loop carries out the fold of that run and the plan after it. */
  lemma {:induction false} LoopInRun(d: seq<real>, T: seq<int>, r: nat, i: nat)
    requires r <= i < |T| && RunEnd(T, r) == RunEnd(T, i)
    ensures LoopRest(d, T, i, T[i], T[r]) == Apply(d, RunRest(T, r))
    decreases |T| - i, 0
  {
    if i == |T| - 1 || T[Min(|T| - 1, i + 1)] - T[i] > 1 {
      RunEndsHere(T, i);
      RunRestFold(T, r, i);
      LoopBetweenRuns(d, T, i + 1, T[i] + 1);
      ApplyCons(d, Fold(T[r], T[i] + 1), PlanFrom(T, i + 1, T[i] + 1));
    } else {
      RunContinues(T, i);
      LoopInRun(d, T, r, i + 1);
    }
  }

  /** The source's loop, started after copying the bins before the first
      merge position, carries out the merge plan. */
  lemma {:induction false} LoopFollowsPlan(d: seq<real>, T: seq<int>)
    requires |T| > 0
    ensures PySlice(d, 0, T[0]) + LoopRest(d, T, 0, T[0], T[0]) == Apply(d, MergePlan(T))
  {
    PlanFromRun(T, 0, 0);
    ApplyCons(d, Copy(0, T[0]), RunRest(T, 0));
    LoopInRun(d, T, 0, 0);
  }

  /** The `while` loop of `kullback_leibler` on one series (the source runs
      it on both series in lock-step with the same indices). */
  method MergeSeries(d: seq<real>, T: seq<int>) returns (out: seq<real>)
    ensures out == MergedSeries(d, T)
  {
    if |T| == 0 {
      return d;
    }
    out := PySlice(d, 0, T[0]);
    var endInd := T[0];
    var startInd := endInd;
    var i := 0;
    ghost var whole := out + LoopRest(d, T, 0, endInd, startInd);
    while i < |T|
      invariant i <= |T|
      invariant out + LoopRest(d, T, i, endInd, startInd) == whole
      decreases 2 * (|T| - i) + (if i < |T| && endInd < T[i] then 1 else 0)
    {
      if endInd < T[i] {
        endInd := T[i];
        out := out + PySlice(d, startInd, endInd);
        startInd := endInd;
      } else {
        if i == |T| - 1 || T[Min(|T| - 1, i + 1)] - T[i] > 1 {
          endInd := T[i] + 1;
          out := out + [Sum(PySlice(d, startInd, endInd))];
          startInd := endInd;
        } else {
          endInd := T[i + 1];
        }
        i := i + 1;
      }
    }
    LoopFollowsPlan(d, T);
  }

  // ---------------------------------------------------------------------
  // Mass bookkeeping
  // ---------------------------------------------------------------------

  /** The pieces of a plan cover [a, b) left to right, without gap or
      overlap. */
  predicate Tiles(ps: seq<Piece>, a: int, b: int)
  {
    if |ps| == 0 then a == b
    else
      ps[0].lo == a && ps[|ps| - 1].hi == b
      && forall k :: 0 <= k < |ps| - 1 ==> ps[k].hi == ps[k + 1].lo
  }

  lemma {:induction false} SumSplit(d: seq<real>, a: int, b: int, c: int)
    requires 0 <= a <= b <= c <= |d|
    ensures Sum(d[a..c]) == Sum(d[a..b]) + Sum(d[b..c])
  {
    assert d[a..c] == d[a..b] + d[b..c];
    SumConcat(d[a..b], d[b..c]);
  }

  /** Copying or folding a span keeps its mass. */
  lemma {:induction false} RenderMass(d: seq<real>, p: Piece)
    requires Fits(p, |d|)
    ensures Sum(Render(d, p)) == Sum(d[p.lo..p.hi])
  {
    if p.Fold? {
      SumSingleton(Sum(d[p.lo..p.hi]));
    }
  }

  /** A plan that fits the series and tiles [a, b) carries exactly the mass
      of those bins. */
  lemma {:induction false} TilesMass(d: seq<real>, ps: seq<Piece>, a: int, b: int)
    requires PlanFits(ps, |d|) && Tiles(ps, a, b) && 0 <= a <= |d|
    ensures a <= b <= |d|
    ensures Sum(Apply(d, ps)) == Sum(d[a..b])
    decreases |ps|
  {
    if |ps| == 0 {
      assert d[a..b] == [];
    } else {
      var p := ps[|ps| - 1];
      var init := ps[..|ps| - 1];
      assert init + [p] == ps;
      ApplySnoc(d, init, p);
      assert Fits(p, |d|);
      RenderMass(d, p);
      SumConcat(Apply(d, init), Render(d, p));
      if |init| == 0 {
        assert Apply(d, init) == [];
      } else {
        assert forall k :: 0 <= k < |init| ==> init[k] == ps[k];
        assert Tiles(init, a, p.lo);
        assert Fits(ps[0], |d|);
        TilesMass(d, init, a, p.lo);
        SumSplit(d, a, p.lo, b);
      }
    }
  }

  lemma {:induction false} TilesCons(p: Piece, ps: seq<Piece>, a: int, b: int)
    requires p.lo == a && Tiles(ps, p.hi, b)
    ensures Tiles([p] + ps, a, b)
  {
    var q := [p] + ps;
    forall k | 0 <= k < |q| - 1 ensures q[k].hi == q[k + 1].lo {
      if k > 0 { assert q[k] == ps[k - 1] && q[k + 1] == ps[k]; }
    }
  }

  lemma {:induction false} TilesSnoc(ps: seq<Piece>, p: Piece, a: int, b: int)
    requires Tiles(ps, a, b) && p.lo == b
    ensures Tiles(ps + [p], a, p.hi)
  {
    var q := ps + [p];
    forall k | 0 <= k < |q| - 1 ensures q[k].hi == q[k + 1].lo {
      if k < |ps| - 1 { assert q[k] == ps[k] && q[k + 1] == ps[k + 1]; }
    }
  }

  lemma {:induction false} FitsCons(p: Piece, ps: seq<Piece>, n: nat)
    requires Fits(p, n) && PlanFits(ps, n)
    ensures PlanFits([p] + ps, n)
  {
    var q := [p] + ps;
    forall k | 0 <= k < |q| ensures Fits(q[k], n) {
      if k > 0 { assert q[k] == ps[k - 1]; }
    }
  }

  /** A run lies between its first position and the last merge position,
      and the next run starts beyond it. */
  lemma {:induction false} RunEndBounds(T: seq<int>, i: nat)
    requires StrictlyIncreasing(T) && i < |T|
    ensures T[i] <= T[RunEnd(T, i)] <= T[|T| - 1]
    ensures RunEnd(T, i) + 1 < |T| ==> T[RunEnd(T, i)] < T[RunEnd(T, i) + 1]
  {
  }

  /** From index i on, the plan stays inside n bins and tiles the positions
      from `start` up to and including the last merge position. */
  lemma {:induction false} PlanTiles(T: seq<int>, n: nat, i: nat, start: int)
    requires StrictlyIncreasing(T) && i < |T|
    requires 0 <= start <= T[i] && T[|T| - 1] < n
    ensures PlanFits(PlanFrom(T, i, start), n)
    ensures Tiles(PlanFrom(T, i, start), start, T[|T| - 1] + 1)
    decreases |T| - i
  {
    var e := RunEnd(T, i);
    RunEndBounds(T, i);
    var rest := PlanFrom(T, e + 1, T[e] + 1);
    if e + 1 < |T| {
      PlanTiles(T, n, e + 1, T[e] + 1);
    }
    TilesCons(Fold(T[i], T[e] + 1), rest, T[i], T[|T| - 1] + 1);
    TilesCons(Copy(start, T[i]), [Fold(T[i], T[e] + 1)] + rest, start, T[|T| - 1] + 1);
    FitsCons(Fold(T[i], T[e] + 1), rest, n);
    FitsCons(Copy(start, T[i]), [Fold(T[i], T[e] + 1)] + rest, n);
  }

  /** How many leading bins the merge covers: all of them when the merge
      set is empty, otherwise up to and including the last merge position. */
  function Covered(T: seq<int>, n: nat): int
  {
    if |T| == 0 then n else T[|T| - 1] + 1
  }

  /** With a single bin that is zero in one series the merge set is {-1, 0}:
      the plan copies `d[0:-1]`, which is empty, and folds `d[-1:1]`, which
      is the single bin. */
  lemma {:induction false} SingleBinPlan(gt: seq<real>, m: seq<real>)
    requires |gt| == |m| == 1 && ZeroBin(gt, m, 0)
    ensures MergePositions(gt, m) == [-1, 0]
    ensures MergePlan([-1, 0]) == [Copy(0, -1), Fold(-1, 1)]
  {
    assert InMergeSet(gt, m, -1) && InMergeSet(gt, m, 0);
    assert MergePositionsFrom(gt, m, 1) == [];
    assert MergePositionsFrom(gt, m, 0) == [0];
    assert MergePositionsFrom(gt, m, -1) == [-1, 0];
    var T := [-1, 0];
    assert RunEnd(T, 0) == 1;
    assert PlanFrom(T, 2, 1) == [];
  }

  /** A single bin survives the merge unchanged: copying nothing and then
      folding the one bin gives the bin itself. */
  lemma {:induction false} SingleBinMerge(gt: seq<real>, m: seq<real>, d: seq<real>)
    requires |gt| == |m| == |d| == 1 && ZeroBin(gt, m, 0)
    ensures MergedSeries(d, MergePositions(gt, m)) == d
  {
    SingleBinPlan(gt, m);
    ApplyPair(d, Copy(0, -1), Fold(-1, 1));
    assert PySlice(d, 0, -1) == [];
    assert PySlice(d, -1, 1) == d[0..1] == [d[0]] == d;
    SumSingleton(d[0]);
  }

  /** When the first merge position is a bin, the plan of the source's loop
      stays inside the series and tiles exactly the bins up to and
      including the last merge position. */
  lemma {:induction false} MergePlanTiles(gt: seq<real>, m: seq<real>)
    requires |gt| == |m|
    requires |MergePositions(gt, m)| > 0 && MergePositions(gt, m)[0] >= 0
    ensures var T := MergePositions(gt, m);
            PlanFits(MergePlan(T), |gt|) && Tiles(MergePlan(T), 0, Covered(T, |gt|))
  {
    var T := MergePositions(gt, m);
    assert T[|T| - 1] in T;
    PlanTiles(T, |gt|, 0, 0);
  }

  /** `kullback_leibler` as written: the merged series carries exactly the
      mass of bins 0 .. max(merge set); later bins are silently dropped. */
  lemma {:induction false} MergedSeriesMass(gt: seq<real>, m: seq<real>, d: seq<real>)
    requires |gt| == |m| == |d|
    ensures var T := MergePositions(gt, m);
            0 <= Covered(T, |d|) <= |d| &&
            Sum(MergedSeries(d, T)) == Sum(d[..Covered(T, |d|)])
  {
    var T := MergePositions(gt, m);
    if |T| == 0 {
      assert d[..|d|] == d;
    } else if T[0] < 0 {
      NegativePositionOnlyForSingleBin(gt, m);
      SingleBinMerge(gt, m, d);
      SingleBinPlan(gt, m);
      assert d[..1] == d;
    } else {
      MergePlanTiles(gt, m);
      TilesMass(d, MergePlan(T), 0, Covered(T, |d|));
      assert d[0..Covered(T, |d|)] == d[..Covered(T, |d|)];
    }
  }

  /** The plan of the merge that keeps the bins after the last run: the
      source's plan followed by a copy of those bins. */
  function IntendedPlan(T: seq<int>, n: nat): seq<Piece>
    requires |T| > 0
  {
    MergePlan(T) + [Copy(T[|T| - 1] + 1, n)]
  }

  /** The merge that keeps the bins after the last run: like
      `MergedSeries`, but those bins are appended instead of dropped. */
  function MergedSeriesIntended(d: seq<real>, T: seq<int>): seq<real>
  {
    if |T| == 0 then d else Apply(d, IntendedPlan(T, |d|))
  }

  /** The corrected merge equals the source's merge followed by the bins
      after the last merge position. */
  lemma {:induction false} IntendedAppendsTail(d: seq<real>, T: seq<int>)
    requires |T| > 0
    ensures MergedSeriesIntended(d, T) == MergedSeries(d, T) + PySlice(d, T[|T| - 1] + 1, |d|)
  {
    ApplySnoc(d, MergePlan(T), Copy(T[|T| - 1] + 1, |d|));
  }

  /** The corrected merge conserves the whole mass of each series. */
  lemma {:induction false} IntendedMergeConservesMass(gt: seq<real>, m: seq<real>, d: seq<real>)
    requires |gt| == |m| == |d|
    ensures Sum(MergedSeriesIntended(d, MergePositions(gt, m))) == Sum(d)
  {
    var T := MergePositions(gt, m);
    if |T| > 0 {
      MergedSeriesMass(gt, m, d);
      IntendedAppendsTail(d, T);
      var c := Covered(T, |d|);
      assert PySlice(d, T[|T| - 1] + 1, |d|) == d[c..];
      SumConcat(MergedSeries(d, T), d[c..]);
      SumConcat(d[..c], d[c..]);
      assert d[..c] + d[c..] == d;
    }
  }

  /** Both series of a pair go through the same plan, so the merged series
      stay aligned. */
  lemma {:induction false} ApplyLength(g: seq<real>, m: seq<real>, ps: seq<Piece>)
    requires |g| == |m|
    ensures |Apply(g, ps)| == |Apply(m, ps)|
    decreases |ps|
  {
    if |ps| > 0 {
      var init := ps[..|ps| - 1];
      var p := ps[|ps| - 1];
      assert init + [p] == ps;
      ApplyLength(g, m, init);
      ApplySnoc(g, init, p);
      ApplySnoc(m, init, p);
      RenderLength(g, m, p);
    }
  }

  /** A piece contributes as many bins to every series of the same length. */
  lemma {:induction false} RenderLength(g: seq<real>, m: seq<real>, p: Piece)
    requires |g| == |m|
    ensures |Render(g, p)| == |Render(m, p)|
  {
  }

  lemma {:induction false} MergedSeriesLength(g: seq<real>, m: seq<real>, T: seq<int>)
    requires |g| == |m|
    ensures |MergedSeries(g, T)| == |MergedSeries(m, T)|
  {
    if |T| > 0 {
      ApplyLength(g, m, MergePlan(T));
    }
  }

  // ---------------------------------------------------------------------
  // A dropped tail, concretely
  // ---------------------------------------------------------------------

  /** A zero in the first bin only, out of three, gives the merge set {0, 1}. */
  lemma {:induction false} LeadingZeroMergeSet(gt: seq<real>, m: seq<real>)
    requires |gt| == |m| == 3
    requires gt[0] == 0.0 && gt[1] > 0.0 && gt[2] > 0.0
    requires m[1] > 0.0 && m[2] > 0.0
    ensures MergePositions(gt, m) == [0, 1]
  {
    assert InMergeSet(gt, m, 0) && InMergeSet(gt, m, 1);
    assert !InMergeSet(gt, m, -1) && !InMergeSet(gt, m, 2);
    assert MergePositionsFrom(gt, m, 3) == [];
    assert MergePositionsFrom(gt, m, 2) == [];
    assert MergePositionsFrom(gt, m, 1) == [1];
    assert MergePositionsFrom(gt, m, 0) == [0, 1];
  }

  /** The merge set {0, 1} plans one fold of the first two bins. */
  lemma {:induction false} LeadingPairPlan()
    ensures MergePlan([0, 1]) == [Copy(0, 0), Fold(0, 2)]
  {
    var T := [0, 1];
    assert RunEnd(T, 0) == 1;
    assert PlanFrom(T, 2, 2) == [];
  }

  /** Merging with the merge set {0, 1} folds the first two bins into one
      and emits nothing after them. */
  lemma {:induction false} LeadingPairMerges(d: seq<real>)
    requires |d| >= 2
    ensures MergedSeries(d, [0, 1]) == [d[0] + d[1]]
  {
    LeadingPairPlan();
    ApplyPair(d, Copy(0, 0), Fold(0, 2));
    assert PySlice(d, 0, 0) == [];
    assert Sum(PySlice(d, 0, 2)) == d[0] + d[1] by {
      assert d[0..2][..1] == [d[0]];
      SumSingleton(d[0]);
    }
  }

  /** The corrected merge with the merge set {0, 1} on three bins keeps the
      third bin after the merged pair. */
  lemma {:induction false} LeadingPairMergesIntended(d: seq<real>)
    requires |d| == 3
    ensures MergedSeriesIntended(d, [0, 1]) == [d[0] + d[1], d[2]]
  {
    var T := [0, 1];
    LeadingPairMerges(d);
    IntendedAppendsTail(d, T);
    assert T[|T| - 1] + 1 == 2;
    assert PySlice(d, 2, |d|) == [d[2]];
    assert [d[0] + d[1]] + [d[2]] == [d[0] + d[1], d[2]];
  }

  lemma {:induction false} SumOfThree(d: seq<real>)
    requires |d| == 3
    ensures Sum(d) == d[0] + d[1] + d[2]
  {
    assert d[..2][..1] == [d[0]];
    SumSingleton(d[0]);
  }

  /** An input on which the source drops mass: a ground truth [0, a, b]
      against a model [c, e, f] with every other mass positive (for
      instance [0, 0.5, 0.5] against [0.2, 0.4, 0.4]) has the merge set
      {0, 1}; bins 0 and 1 become one bin and bin 2 is never emitted, while
      the corrected merge keeps it. */
  lemma {:induction false} DroppedTailBin(gt: seq<real>, m: seq<real>)
    requires |gt| == |m| == 3
    requires gt[0] == 0.0 && gt[1] > 0.0 && gt[2] > 0.0
    requires m[0] > 0.0 && m[1] > 0.0 && m[2] > 0.0
    ensures MergePositions(gt, m) == [0, 1]
    ensures MergedSeries(gt, [0, 1]) == [gt[1]] && MergedSeries(m, [0, 1]) == [m[0] + m[1]]
    ensures Sum(MergedSeries(gt, [0, 1])) < Sum(gt)
    ensures MergedSeriesIntended(gt, [0, 1]) == [gt[1], gt[2]]
    ensures MergedSeriesIntended(m, [0, 1]) == [m[0] + m[1], m[2]]
  {
    LeadingZeroMergeSet(gt, m);
    LeadingPairMerges(gt);
    LeadingPairMerges(m);
    LeadingPairMergesIntended(gt);
    LeadingPairMergesIntended(m);
    SumSingleton(gt[1]);
    SumOfThree(gt);
  }

  // ---------------------------------------------------------------------
  // Where zeros can survive the merge
  // ---------------------------------------------------------------------

  /** Positions outside the merge set, and run ends followed by a position
      outside it (other than the last bin), hold strictly positive mass. */
  ghost predicate PositiveOffRuns(d: seq<real>, T: seq<int>)
  {
    (forall p :: 0 <= p < |d| && p !in T ==> d[p] > 0.0)
    && (forall b :: 0 <= b < |d| - 1 && b in T && b + 1 !in T ==> d[b] > 0.0)
  }

  /** A run ending before the last bin ends on a bin that is nonzero in both
      series: otherwise the next bin would be in the merge set too. */
  lemma {:induction false} MergeSetLeavesPositiveBins(gt: seq<real>, m: seq<real>)
    requires |gt| == |m|
    requires AllNonNegative(gt) && AllNonNegative(m)
    ensures PositiveOffRuns(gt, MergePositions(gt, m))
    ensures PositiveOffRuns(m, MergePositions(gt, m))
  {
    var T := MergePositions(gt, m);
    forall b | 0 <= b < |gt| - 1 && b in T && b + 1 !in T
      ensures gt[b] > 0.0 && m[b] > 0.0
    {
      assert !InMergeSet(gt, m, b + 1);
      assert !ZeroBin(gt, m, b);
    }
    forall p | 0 <= p < |gt| && p !in T
      ensures gt[p] > 0.0 && m[p] > 0.0
    {
      assert !ZeroBin(gt, m, p);
    }
  }

  /** What the positivity argument knows about a series and its merge set:
      the set is sorted, holds bins only, the masses are non-negative and
      positive off the runs. */
  ghost predicate MergeInput(d: seq<real>, T: seq<int>)
  {
    StrictlyIncreasing(T)
    && (forall i :: 0 <= i < |T| ==> 0 <= T[i] < |d|)
    && AllNonNegative(d) && PositiveOffRuns(d, T)
  }

  lemma {:induction false} SumAtLeastLast(s: seq<real>)
    requires |s| > 0 && AllNonNegative(s)
    ensures Sum(s) >= s[|s| - 1]
  {
    SumNonNegative(s[..|s| - 1]);
  }

  /** A position strictly between two consecutive merge positions is not a
      merge position. */
  lemma {:induction false} BetweenNotInMergeSet(T: seq<int>, j: nat, p: int)
    requires StrictlyIncreasing(T) && j <= |T|
    requires j > 0 ==> T[j - 1] < p
    requires j < |T| ==> p < T[j]
    ensures p !in T
  {
    forall q | 0 <= q < |T| ensures T[q] != p {
      if q < j { assert T[q] <= T[j - 1]; } else { assert T[q] >= T[j]; }
    }
  }

  /** The bins copied before a run hold positive mass. */
  lemma {:induction false} GapPositive(d: seq<real>, T: seq<int>, j: nat, s: int)
    requires MergeInput(d, T)
    requires j < |T| && s == (if j == 0 then 0 else T[j - 1] + 1)
    ensures AllPositive(Render(d, Copy(s, T[j])))
  {
    assert s <= T[j] by {
      if j > 0 { assert T[j - 1] < T[j]; }
    }
    forall p | s <= p < T[j] ensures d[p] > 0.0 {
      BetweenNotInMergeSet(T, j, p);
    }
  }

  /** A run that is followed by a further run, or that ends before the last
      bin, folds to a positive mass. */
  lemma {:induction false} RunBinPositive(d: seq<real>, T: seq<int>, j: nat)
    requires MergeInput(d, T)
    requires j < |T|
    requires RunEnd(T, j) + 1 < |T| || T[RunEnd(T, j)] < |d| - 1
    ensures AllPositive(Render(d, Fold(T[j], T[RunEnd(T, j)] + 1)))
  {
    var e := RunEnd(T, j);
    var b := T[e];
    if e + 1 < |T| {
      assert T[e + 1] < |d|;
    }
    BetweenNotInMergeSet(T, e + 1, b + 1);
    assert b in T;
    RunEndBounds(T, j);
    SumAtLeastLast(d[T[j]..b + 1]);
    SumSingleton(Sum(d[T[j]..b + 1]));
  }

  /** A non-empty plan ending in a fold whose pieces all render positive
      bins, except the final fold when `lastPositive` does not hold. */
  predicate PiecesPositive(d: seq<real>, ps: seq<Piece>, lastPositive: bool)
    decreases |ps|
  {
    if |ps| == 0 then false
    else if |ps| == 1 then ps[0].Fold? && (lastPositive ==> AllPositive(Render(d, ps[0])))
    else AllPositive(Render(d, ps[0])) && PiecesPositive(d, ps[1..], lastPositive)
  }

  lemma {:induction false} PiecesPositiveCons(d: seq<real>, p: Piece, ps: seq<Piece>, z: bool)
    requires AllPositive(Render(d, p)) && PiecesPositive(d, ps, z)
    ensures PiecesPositive(d, [p] + ps, z)
  {
    assert ([p] + ps)[1..] == ps;
  }

  lemma {:induction false} PiecesPositiveSingle(d: seq<real>, p: Piece, z: bool)
    requires p.Fold? && (z ==> AllPositive(Render(d, p)))
    ensures PiecesPositive(d, [p], z)
  {
  }

  /** Every piece of the plan from index j on renders to positive bins,
      except the final fold, which is positive unless the last merge
      position is the last bin. */
  lemma {:induction false} PlanPiecesPositive(d: seq<real>, T: seq<int>, j: nat, s: int)
    requires MergeInput(d, T)
    requires j < |T|
    requires s == (if j == 0 then 0 else T[j - 1] + 1)
    ensures PiecesPositive(d, PlanFrom(T, j, s), T[|T| - 1] < |d| - 1)
    decreases |T| - j, 1
  {
    RunRestPositive(d, T, j);
    GapPositive(d, T, j, s);
    PiecesPositiveCons(d, Copy(s, T[j]), RunRest(T, j), T[|T| - 1] < |d| - 1);
    PlanFromRun(T, j, s);
  }

  /** The same from the fold of the run at index j on. */
  lemma {:induction false} RunRestPositive(d: seq<real>, T: seq<int>, j: nat)
    requires MergeInput(d, T)
    requires j < |T|
    ensures PiecesPositive(d, RunRest(T, j), T[|T| - 1] < |d| - 1)
    decreases |T| - j, 0
  {
    if RunEnd(T, j) + 1 < |T| {
      PlanPiecesPositive(d, T, RunEnd(T, j) + 1, T[RunEnd(T, j)] + 1);
      RunBinPositive(d, T, j);
      RunRestCons(d, T, j, T[|T| - 1] < |d| - 1);
    } else {
      if T[|T| - 1] < |d| - 1 {
        RunBinPositive(d, T, j);
      }
      RunRestLast(d, T, j, T[|T| - 1] < |d| - 1);
    }
  }

  lemma {:induction false} RunRestCons(d: seq<real>, T: seq<int>, j: nat, z: bool)
    requires j < |T| && RunEnd(T, j) + 1 < |T|
    requires AllPositive(Render(d, Fold(T[j], T[RunEnd(T, j)] + 1)))
    requires PiecesPositive(d, PlanFrom(T, RunEnd(T, j) + 1, T[RunEnd(T, j)] + 1), z)
    ensures PiecesPositive(d, RunRest(T, j), z)
  {
    PiecesPositiveCons(d, Fold(T[j], T[RunEnd(T, j)] + 1),
                       PlanFrom(T, RunEnd(T, j) + 1, T[RunEnd(T, j)] + 1), z);
  }

  lemma {:induction false} RunRestLast(d: seq<real>, T: seq<int>, j: nat, z: bool)
    requires j < |T| && RunEnd(T, j) + 1 == |T|
    requires z ==> AllPositive(Render(d, Fold(T[j], T[RunEnd(T, j)] + 1)))
    ensures PiecesPositive(d, RunRest(T, j), z)
  {
    var f := Fold(T[j], T[RunEnd(T, j)] + 1);
    PiecesPositiveSingle(d, f, z);
    assert PlanFrom(T, RunEnd(T, j) + 1, T[RunEnd(T, j)] + 1) == [];
    assert [f] + [] == [f];
  }

  /** Every bin holds positive mass, except possibly the last one when
      `lastMayBeZero` holds. */
  predicate PositiveButLast(e: seq<real>, lastMayBeZero: bool)
  {
    forall i :: 0 <= i < |e| && (i < |e| - 1 || !lastMayBeZero) ==> e[i] > 0.0
  }

  lemma {:induction false} PositiveButLastConcat(a: seq<real>, b: seq<real>, z: bool)
    requires AllPositive(a) && |b| > 0 && PositiveButLast(b, z)
    ensures PositiveButLast(a + b, z)
  {
    forall i | 0 <= i < |a + b| && (i < |a + b| - 1 || !z) ensures (a + b)[i] > 0.0 {
      if i >= |a| { assert (a + b)[i] == b[i - |a|]; }
    }
  }

  /** A plan whose pieces render positive bins, save a final fold that may
      be zero, yields a non-empty series positive in every bin but the
      last. */
  lemma {:induction false} ApplyPositiveButLast(d: seq<real>, ps: seq<Piece>, z: bool)
    requires PiecesPositive(d, ps, !z)
    ensures |Apply(d, ps)| > 0 && PositiveButLast(Apply(d, ps), z)
    decreases |ps|
  {
    ApplyCons(d, ps[0], ps[1..]);
    assert [ps[0]] + ps[1..] == ps;
    if |ps| == 1 {
      assert Apply(d, ps[1..]) == [];
      assert Apply(d, ps) == Render(d, ps[0]) + [];
    } else {
      ApplyPositiveButLast(d, ps[1..], z);
      PositiveButLastConcat(Render(d, ps[0]), Apply(d, ps[1..]), z);
    }
  }

  /** In the merged series of either column, every bin but the last holds
      positive mass; the last is positive too unless the final run reaches
      the last input bin. */
  lemma {:induction false} MergedBinsPositive(gt: seq<real>, m: seq<real>, d: seq<real>)
    requires |gt| == |m| && (d == gt || d == m)
    requires AllNonNegative(gt) && AllNonNegative(m)
    ensures var T := MergePositions(gt, m);
            PositiveButLast(MergedSeries(d, T), Covered(T, |d|) == |d|)
  {
    var T := MergePositions(gt, m);
    MergeSetLeavesPositiveBins(gt, m);
    if |T| == 0 {
    } else if T[0] < 0 {
      NegativePositionOnlyForSingleBin(gt, m);
      SingleBinMerge(gt, m, d);
    } else {
      MergePositionsInRange(gt, m);
      PlanPiecesPositive(d, T, 0, 0);
      ApplyPositiveButLast(d, MergePlan(T), Covered(T, |d|) == |d|);
    }
  }
}

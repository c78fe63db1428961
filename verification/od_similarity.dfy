/** The matrix plumbing of src/py/odm_similarity.py: `od_df_to_od_matrix`,
    the attraction balancing and flattening of `gravity_model`, the bin
    loop of `OD2simi` and the normalisation in `similarity`.

    The trip distribution itself (the `ipfn` package) and the SpSSIM
    formula are not modelled: the model matrix is an input, and each
    bin's score and trip weight are parameters. */
module OdSimilarity {
  import opened Common
  import opened Gravity

  // od_df_to_od_matrix

  /** One row of an OD table: origin zone, destination zone, value. */
  datatype OdEntry = OdEntry(ozone: int, dzone: int, value: real)

  function Zeros(n: nat): (M: Matrix)
    ensures IsMatrix(M, n, n)
    ensures forall i, j :: 0 <= i < n && 0 <= j < n ==> M[i][j] == 0.0
  {
    seq(n, i => seq(n, j => 0.0))
  }

  /** M with entry (a, b) replaced by x. */
  function Put(M: Matrix, a: nat, b: nat, x: real): (R: Matrix)
    requires a < |M| && b < |M[a]|
    ensures |R| == |M| && forall i :: 0 <= i < |M| ==> |R[i]| == |M[i]|
    ensures forall i, j :: 0 <= i < |M| && 0 <= j < |M[i]| ==> R[i][j] == (if i == a && j == b then x else M[i][j])
  {
    M[a := M[a][b := x]]
  }

  /** Both zones of the row have an index, and the index fits the n-by-n
      matrix where n is the number of indexed zones. */
  predicate Placeable(e: OdEntry, index: map<int, nat>)
  {
    e.ozone in index && e.dzone in index && index[e.ozone] < |index| && index[e.dzone] < |index|
  }

  /** Row e is one that writes cell (a, b). */
  predicate Writes(e: OdEntry, index: map<int, nat>, a: nat, b: nat)
  {
    e.value != 0.0 && Placeable(e, index) && index[e.ozone] == a && index[e.dzone] == b
  }

  /** The matrix after the first k rows; a nonzero row naming a zone
      without an index, or an index outside the matrix, is the KeyError or
      IndexError of the loop. */
  function Fill(rows: seq<OdEntry>, index: map<int, nat>, k: nat): (r: Result<Matrix>)
    requires k <= |rows|
    ensures r.Err? <==> exists j :: 0 <= j < k && rows[j].value != 0.0 && !Placeable(rows[j], index)
    ensures r.Ok? ==> IsMatrix(r.value, |index|, |index|)
    decreases k
  {
    if k == 0 then Ok(Zeros(|index|))
    else
      var prev := Fill(rows, index, k - 1);
      var e := rows[k - 1];
      if prev.Err? then prev
      else if e.value == 0.0 then prev
      else if !Placeable(e, index) then Err("zone without an index")
      else Ok(Put(prev.value, index[e.ozone], index[e.dzone], e.value))
  }

  /** The last of the first k rows that writes cell (a, b). */
  function LastWrite(rows: seq<OdEntry>, index: map<int, nat>, a: nat, b: nat, k: nat): (w: Option<nat>)
    requires k <= |rows|
    ensures w.None? <==> forall j :: 0 <= j < k ==> !Writes(rows[j], index, a, b)
    ensures w.Some? ==> w.value < k && Writes(rows[w.value], index, a, b)
                        && forall j :: w.value < j < k ==> !Writes(rows[j], index, a, b)
    decreases k
  {
    if k == 0 then None
    else if Writes(rows[k - 1], index, a, b) then Some(k - 1)
    else LastWrite(rows, index, a, b, k - 1)
  }

  /** Each cell holds the value of the last nonzero row naming it, or 0
      when there is none: zero rows never write, and a later row
      overwrites an earlier one. */
  lemma {:induction false} FillEntries(rows: seq<OdEntry>, index: map<int, nat>, k: nat, a: nat, b: nat)
    requires k <= |rows| && Fill(rows, index, k).Ok?
    requires a < |index| && b < |index|
    ensures Fill(rows, index, k).value[a][b]
              == (if LastWrite(rows, index, a, b, k).Some? then rows[LastWrite(rows, index, a, b, k).value].value else 0.0)
    decreases k
  {
    if k > 0 {
      FillEntries(rows, index, k - 1, a, b);
    }
  }

  /** `od_df_to_od_matrix`: an n-by-n matrix over the n indexed zones. */
  function OdMatrix(rows: seq<OdEntry>, index: map<int, nat>): (r: Result<Matrix>)
    ensures r.Err? <==> exists j :: 0 <= j < |rows| && rows[j].value != 0.0 && !Placeable(rows[j], index)
    ensures r.Ok? ==> IsMatrix(r.value, |index|, |index|)
    ensures r.Ok? ==> forall a: nat, b: nat :: a < |index| && b < |index| ==>
              r.value[a][b] == (if LastWrite(rows, index, a, b, |rows|).Some?
                                then rows[LastWrite(rows, index, a, b, |rows|).value].value else 0.0)
  {
    var r := Fill(rows, index, |rows|);
    if r.Ok? then
      assert forall a: nat, b: nat :: a < |index| && b < |index| ==>
               r.value[a][b] == (if LastWrite(rows, index, a, b, |rows|).Some?
                                 then rows[LastWrite(rows, index, a, b, |rows|).value].value else 0.0) by {
        forall a: nat, b: nat | a < |index| && b < |index| {
          FillEntries(rows, index, |rows|, a, b);
        }
      }
      r
    else r
  }

  // Attraction balancing in gravity_model

  /** A merged column with the missing values as 0, the `fillna(0)` of
      line 125. */
  function Filled(s: seq<Option<real>>): (r: seq<real>)
    ensures |r| == |s|
    ensures forall i :: 0 <= i < |s| ==> r[i] == (if s[i].Some? then s[i].value else 0.0)
  {
    seq(|s|, i requires 0 <= i < |s| => if s[i].Some? then s[i].value else 0.0)
  }

  /** Sum of a merged column, skipping the missing values as pandas'
      `sum` does. */
  function PresentSum(s: seq<Option<real>>): real
  {
    Sum(Filled(s))
  }

  /** Every present value times c; a missing value stays missing. */
  function ScalePresent(s: seq<Option<real>>, c: real): (r: seq<Option<real>>)
    ensures |r| == |s|
    ensures forall i :: 0 <= i < |s| ==> r[i].Some? == s[i].Some?
    ensures forall i :: 0 <= i < |s| && s[i].Some? ==> r[i].value == s[i].value * c
  {
    seq(|s|, i requires 0 <= i < |s| => if s[i].Some? then Some(s[i].value * c) else None)
  }

  lemma {:induction false} PresentSumScale(s: seq<Option<real>>, c: real)
    ensures PresentSum(ScalePresent(s, c)) == PresentSum(s) * c
  {
    var a := Filled(ScalePresent(s, c));
    var b := Scale(Filled(s), c);
    forall i | 0 <= i < |s| ensures a[i] == b[i] {
      if s[i].Some? {
        assert a[i] == s[i].value * c;
      } else {
        assert a[i] == 0.0 * c;
      }
    }
    assert a == b;
    SumScale(Filled(s), c);
  }

  /** Line 110 of `gravity_model`: attraction times production's total
      over attraction's total, so both totals agree; a zone missing from
      the merge stays missing. With a zero attraction total (all counts
      0) each present value is 0/0, a NaN that the `fillna` of line 125
      turns into 0 before anything reads it: the model writes that 0. */
  function BalanceAttraction(production: seq<Option<real>>, attraction: seq<Option<real>>): (r: seq<Option<real>>)
    ensures |r| == |attraction| && forall i :: 0 <= i < |attraction| ==> r[i].Some? == attraction[i].Some?
    ensures PresentSum(attraction) != 0.0 ==> PresentSum(r) == PresentSum(production)
    ensures PresentSum(attraction) != 0.0 ==> forall i :: 0 <= i < |attraction| && attraction[i].Some? ==>
              r[i].value * PresentSum(attraction) == attraction[i].value * PresentSum(production)
    ensures PresentSum(attraction) == 0.0 ==> forall i :: 0 <= i < |attraction| && attraction[i].Some? ==> r[i].value == 0.0
  {
    var total := PresentSum(attraction);
    if total == 0.0 then ScalePresent(attraction, 0.0)
    else
      BalancedTotals(production, attraction);
      ScalePresent(attraction, PresentSum(production) / total)
  }

  /** With non-negative counts, a zero attraction total means every
      present count is 0, so line 110 computes 0/0 for each of them. */
  lemma {:induction false} ZeroTotalMeansZeroCounts(attraction: seq<Option<real>>)
    requires forall i :: 0 <= i < |attraction| && attraction[i].Some? ==> attraction[i].value >= 0.0
    requires PresentSum(attraction) == 0.0
    ensures forall i :: 0 <= i < |attraction| && attraction[i].Some? ==> attraction[i].value == 0.0
  {
    var f := Filled(attraction);
    assert AllNonNegative(f);
    SumZeroIffAllZero(f);
    assert forall i :: 0 <= i < |attraction| && attraction[i].Some? ==> f[i] == attraction[i].value;
  }

  lemma {:induction false} BalancedTotals(production: seq<Option<real>>, attraction: seq<Option<real>>)
    requires PresentSum(attraction) != 0.0
    ensures PresentSum(ScalePresent(attraction, PresentSum(production) / PresentSum(attraction))) == PresentSum(production)
    ensures forall i :: 0 <= i < |attraction| && attraction[i].Some? ==>
              ScalePresent(attraction, PresentSum(production) / PresentSum(attraction))[i].value * PresentSum(attraction)
                == attraction[i].value * PresentSum(production)
  {
    var total := PresentSum(attraction);
    var p := PresentSum(production);
    var r := ScalePresent(attraction, p / total);
    PresentSumScale(attraction, p / total);
    MarginCancel(total, p);
    forall i | 0 <= i < |attraction| && attraction[i].Some?
      ensures r[i].value * total == attraction[i].value * p
    {
      BalancedEntry(attraction[i].value, total, p);
    }
  }

  lemma {:induction false} BalancedEntry(x: real, total: real, p: real)
    requires total != 0.0
    ensures x * (p / total) * total == x * p
  {
    assert (p / total) * total == p;
  }

  // The model matrix, normalised and flattened

  /** Sum of every entry. */
  function MatrixSum(M: Matrix): real
  {
    Sum(RowSums(M))
  }

  /** Every entry times c. */
  function ScaleMatrix(M: Matrix, c: real): (R: Matrix)
    ensures |R| == |M| && forall i :: 0 <= i < |M| ==> R[i] == Scale(M[i], c)
  {
    seq(|M|, i requires 0 <= i < |M| => Scale(M[i], c))
  }

  lemma {:induction false} RowSumsScale(M: Matrix, c: real)
    ensures RowSums(ScaleMatrix(M, c)) == Scale(RowSums(M), c)
  {
    var R := ScaleMatrix(M, c);
    forall i | 0 <= i < |M| ensures RowSums(R)[i] == Scale(RowSums(M), c)[i] {
      SumScale(M[i], c);
    }
  }

  lemma {:induction false} MatrixSumScale(M: Matrix, c: real)
    ensures MatrixSum(ScaleMatrix(M, c)) == MatrixSum(M) * c
  {
    RowSumsScale(M, c);
    SumScale(RowSums(M), c);
  }

  /** Line 129 of `gravity_model`: the model matrix over its total. numpy
      gives 0/0 = NaN, which the later `fillna(0)` turns into 0, and
      x/0 = inf for x != 0, which the model reports as an error. */
  function NormaliseModel(M: Matrix): (r: Result<Matrix>)
    ensures r.Err? <==> MatrixSum(M) == 0.0 && exists i, j :: 0 <= i < |M| && 0 <= j < |M[i]| && M[i][j] != 0.0
    ensures r.Ok? ==> |r.value| == |M| && forall i :: 0 <= i < |M| ==> |r.value[i]| == |M[i]|
    ensures r.Ok? && MatrixSum(M) != 0.0 ==> MatrixSum(r.value) == 1.0
    ensures r.Ok? && MatrixSum(M) != 0.0 ==>
              forall i, j :: 0 <= i < |M| && 0 <= j < |M[i]| ==> r.value[i][j] * MatrixSum(M) == M[i][j]
    ensures r.Ok? && MatrixSum(M) == 0.0 ==> r.value == M
  {
    var total := MatrixSum(M);
    if total == 0.0 then
      if exists i, j :: 0 <= i < |M| && 0 <= j < |M[i]| && M[i][j] != 0.0 then Err("division of a nonzero entry by a zero total")
      else Ok(M)
    else
      ScaledByTotal(M);
      Ok(ScaleMatrix(M, 1.0 / total))
  }

  /** A matrix over its nonzero total sums to 1, entry by entry the
      matrix's share of the total. */
  lemma {:induction false} ScaledByTotal(M: Matrix)
    requires MatrixSum(M) != 0.0
    ensures var R := ScaleMatrix(M, 1.0 / MatrixSum(M));
      && |R| == |M| && (forall i :: 0 <= i < |M| ==> |R[i]| == |M[i]|)
      && MatrixSum(R) == 1.0
      && forall i, j :: 0 <= i < |M| && 0 <= j < |M[i]| ==> R[i][j] * MatrixSum(M) == M[i][j]
  {
    var total := MatrixSum(M);
    var R := ScaleMatrix(M, 1.0 / total);
    MatrixSumScale(M, 1.0 / total);
    forall i, j | 0 <= i < |M| && 0 <= j < |M[i]| ensures R[i][j] * total == M[i][j] {
      BalancedEntry(M[i][j], total, 1.0);
    }
  }

  /** One output row of `gravity_model`: origin zone, destination zone,
      share of all trips. */
  datatype OdCell = OdCell(ozone: int, dzone: int, share: real)

  /** Row i of the matrix as cells, zone names from the zone list. */
  function CellRow(M: Matrix, zones: seq<int>, i: nat): (c: seq<OdCell>)
    requires IsMatrix(M, |zones|, |zones|) && i < |zones|
    ensures |c| == |zones|
    ensures forall j :: 0 <= j < |zones| ==> c[j] == OdCell(zones[i], zones[j], M[i][j])
  {
    seq(|zones|, j requires 0 <= j < |zones| => OdCell(zones[i], zones[j], M[i][j]))
  }

  /** Rows 0..k-1 of the matrix as cells, one row after the other. */
  function CellRows(M: Matrix, zones: seq<int>, k: nat): (c: seq<OdCell>)
    requires IsMatrix(M, |zones|, |zones|) && k <= |zones|
    decreases k
  {
    if k == 0 then [] else CellRows(M, zones, k - 1) + CellRow(M, zones, k - 1)
  }

  /** The cell at row i, column j of a row-major list of rows of n. */
  function At(cells: seq<OdCell>, n: nat, i: nat, j: nat): OdCell
    requires j < n && i * n + j < |cells|
  {
    cells[i * n + j]
  }

  lemma {:induction false} CellRowsLength(M: Matrix, zones: seq<int>, k: nat)
    requires IsMatrix(M, |zones|, |zones|) && k <= |zones|
    ensures |CellRows(M, zones, k)| == k * |zones|
    decreases k
  {
    if k > 0 {
      CellRowsLength(M, zones, k - 1);
      RowMajorLength(k, |zones|);
    }
  }

  lemma {:induction false} RowMajorLength(k: nat, n: nat)
    requires k > 0
    ensures (k - 1) * n + n == k * n
  {
  }

  /** Later rows only extend the list. */
  lemma {:induction false} CellRowsPrefix(M: Matrix, zones: seq<int>, k1: nat, k2: nat, p: nat)
    requires IsMatrix(M, |zones|, |zones|) && k1 <= k2 <= |zones|
    requires p < |CellRows(M, zones, k1)|
    ensures p < |CellRows(M, zones, k2)| && CellRows(M, zones, k2)[p] == CellRows(M, zones, k1)[p]
    decreases k2
  {
    if k1 < k2 {
      CellRowsPrefix(M, zones, k1, k2 - 1, p);
    }
  }

  /** Cell (i, j) sits at position i * n + j. */
  lemma {:induction false} CellAt(M: Matrix, zones: seq<int>, i: nat, j: nat)
    requires IsMatrix(M, |zones|, |zones|) && i < |zones| && j < |zones|
    ensures i * |zones| + j < |CellRows(M, zones, |zones|)|
    ensures CellRows(M, zones, |zones|)[i * |zones| + j] == OdCell(zones[i], zones[j], M[i][j])
  {
    var n := |zones|;
    var before, row := CellRows(M, zones, i), CellRow(M, zones, i);
    CellRowsLength(M, zones, i);
    assert CellRows(M, zones, i + 1) == before + row;
    AppendedAt(before, row, |before|, j);
    CellRowsPrefix(M, zones, i + 1, n, |before| + j);
  }

  lemma {:induction false} AppendedAt(a: seq<OdCell>, b: seq<OdCell>, p: nat, j: nat)
    requires p == |a| && j < |b|
    ensures p + j < |a + b| && (a + b)[p + j] == b[j]
  {
  }

  /** Lines 132-137 of `gravity_model`: the cells of an n-by-n matrix in
      row-major order, n * n of them. */
  function Cells(M: Matrix, zones: seq<int>): (c: seq<OdCell>)
    requires IsMatrix(M, |zones|, |zones|)
    ensures |c| == |zones| * |zones|
    ensures forall i, j :: 0 <= i < |zones| && 0 <= j < |zones| ==>
              i * |zones| + j < |c| && At(c, |zones|, i, j) == OdCell(zones[i], zones[j], M[i][j])
  {
    var c := CellRows(M, zones, |zones|);
    CellRowsLength(M, zones, |zones|);
    forall i, j | 0 <= i < |zones| && 0 <= j < |zones|
      ensures i * |zones| + j < |c| && At(c, |zones|, i, j) == OdCell(zones[i], zones[j], M[i][j])
    {
      CellAt(M, zones, i, j);
    }
    c
  }

  // OD2simi

  /** One row of the per-bin table: the bin's bounds, its frequency, the
      ground truth's trip weight in it and its score. */
  datatype BinScore = BinScore(lo: real, hi: real, freq: int, weight: real, score: real)

  function BinRecord(bin: (real, real), freq: int, score: (real, real) -> real, weight: (real, real) -> real): BinScore
  {
    BinScore(bin.0, bin.1, freq, weight(bin.0, bin.1), score(bin.0, bin.1))
  }

  /** The bin loop as written: bins k.. with `bin_count` = count. The
      frequency is read at `bin_count`, which only advances on a nonzero
      frequency; reading past the histogram is an IndexError. */
  function BinsAsWritten(bins: seq<(real, real)>, hist: seq<int>, score: (real, real) -> real,
                         weight: (real, real) -> real, k: nat, count: nat): Result<seq<BinScore>>
    requires k <= |bins|
    decreases |bins| - k
  {
    if k == |bins| then Ok([])
    else if count >= |hist| then Err("histogram index out of range")
    else if hist[count] == 0 then BinsAsWritten(bins, hist, score, weight, k + 1, count)
    else
      var rest := BinsAsWritten(bins, hist, score, weight, k + 1, count + 1);
      if rest.Err? then rest else Ok([BinRecord(bins[k], hist[count], score, weight)] + rest.value)
  }

  /** Once the frequency at `bin_count` is 0, every later bin reads the
      same 0 and is skipped: nothing after the first empty bin is
      scored. */
  lemma {:induction false} StuckAfterEmptyBin(bins: seq<(real, real)>, hist: seq<int>, score: (real, real) -> real,
                                              weight: (real, real) -> real, k: nat, count: nat)
    requires k <= |bins| && count < |hist| && hist[count] == 0
    ensures BinsAsWritten(bins, hist, score, weight, k, count) == Ok([])
    decreases |bins| - k
  {
    if k < |bins| {
      StuckAfterEmptyBin(bins, hist, score, weight, k + 1, count);
    }
  }

  /** The bin loop as evidently intended: bin k is scored when its own
      frequency `hist[k]` is nonzero. */
  function BinsIntended(bins: seq<(real, real)>, hist: seq<int>, score: (real, real) -> real,
                        weight: (real, real) -> real, k: nat): (r: Result<seq<BinScore>>)
    requires k <= |bins|
    ensures r.Err? <==> |hist| < |bins|
    ensures r.Ok? ==> forall t :: 0 <= t < |r.value| ==> r.value[t].freq != 0
    ensures r.Ok? ==> |r.value| == NonzeroCount(hist, k, |bins|)
    decreases |bins| - k
  {
    if |hist| < |bins| then Err("histogram index out of range")
    else if k == |bins| then Ok([])
    else
      var rest := BinsIntended(bins, hist, score, weight, k + 1);
      if hist[k] == 0 then rest
      else Ok([BinRecord(bins[k], hist[k], score, weight)] + rest.value)
  }

  /** Number of nonzero entries of hist at positions k..e-1. */
  function NonzeroCount(hist: seq<int>, k: nat, e: nat): nat
    requires k <= e <= |hist|
    decreases e - k
  {
    if k == e then 0 else (if hist[k] != 0 then 1 else 0) + NonzeroCount(hist, k + 1, e)
  }

  /** While the histogram has no zero, the loop as written scores the
      same bins as the intended one. */
  lemma {:induction false} AsWrittenAgreesWithoutEmptyBins(bins: seq<(real, real)>, hist: seq<int>, score: (real, real) -> real,
                                                           weight: (real, real) -> real, k: nat)
    requires k <= |bins| <= |hist|
    requires forall t :: k <= t < |bins| ==> hist[t] != 0
    ensures BinsAsWritten(bins, hist, score, weight, k, k) == BinsIntended(bins, hist, score, weight, k)
    decreases |bins| - k
  {
    if k < |bins| {
      AsWrittenAgreesWithoutEmptyBins(bins, hist, score, weight, k + 1);
    }
  }

  /** The result of `OD2simi`: mean score, demand-weighted score and the
      per-bin table. */
  datatype Simi = Simi(mean: real, shareMean: real, table: seq<BinScore>)

  function Scores(t: seq<BinScore>): (s: seq<real>)
    ensures |s| == |t| && forall i :: 0 <= i < |t| ==> s[i] == t[i].score
  {
    seq(|t|, i requires 0 <= i < |t| => t[i].score)
  }

  function WeightedScores(t: seq<BinScore>): (s: seq<real>)
    ensures |s| == |t| && forall i :: 0 <= i < |t| ==> s[i] == t[i].score * t[i].weight
  {
    seq(|t|, i requires 0 <= i < |t| => t[i].score * t[i].weight)
  }

  /** The mean is the scores' sum over the number of scored bins; with no
      scored bin it is the ZeroDivisionError of line 180. */
  function Summarise(table: Result<seq<BinScore>>): (r: Result<Simi>)
    ensures r.Err? <==> table.Err? || |table.value| == 0
    ensures r.Ok? ==> r.value.table == table.value
    ensures r.Ok? ==> r.value.mean * (|table.value| as real) == Sum(Scores(table.value))
    ensures r.Ok? ==> r.value.shareMean == Sum(WeightedScores(table.value))
  {
    if table.Err? then Err(table.msg)
    else if |table.value| == 0 then Err("division by zero scored bins")
    else
      var n := |table.value| as real;
      var m := Sum(Scores(table.value)) / n;
      assert m * n == Sum(Scores(table.value));
      Ok(Simi(m, Sum(WeightedScores(table.value)), table.value))
  }

  /** `OD2simi` as written. An empty first bin makes it fail; without
      empty bins it agrees with the intended `Od2Simi`. */
  function Od2SimiAsWritten(bins: seq<(real, real)>, hist: seq<int>, score: (real, real) -> real,
                            weight: (real, real) -> real): (r: Result<Simi>)
    ensures |hist| > 0 && hist[0] == 0 ==> r.Err?
    ensures |bins| <= |hist| && (forall t :: 0 <= t < |bins| ==> hist[t] != 0) ==> r == Od2Simi(bins, hist, score, weight)
  {
    AsWrittenCases(bins, hist, score, weight);
    Summarise(BinsAsWritten(bins, hist, score, weight, 0, 0))
  }

  lemma {:induction false} AsWrittenCases(bins: seq<(real, real)>, hist: seq<int>, score: (real, real) -> real,
                                          weight: (real, real) -> real)
    ensures |hist| > 0 && hist[0] == 0 ==> BinsAsWritten(bins, hist, score, weight, 0, 0) == Ok([])
    ensures |bins| <= |hist| && (forall t :: 0 <= t < |bins| ==> hist[t] != 0) ==>
              BinsAsWritten(bins, hist, score, weight, 0, 0) == BinsIntended(bins, hist, score, weight, 0)
  {
    if |hist| > 0 && hist[0] == 0 {
      StuckAfterEmptyBin(bins, hist, score, weight, 0, 0);
    }
    if |bins| <= |hist| && (forall t :: 0 <= t < |bins| ==> hist[t] != 0) {
      AsWrittenAgreesWithoutEmptyBins(bins, hist, score, weight, 0);
    }
  }

  /** `OD2simi` with each bin read at its own frequency: it fails only
      when the histogram is short or every frequency is 0. */
  function Od2Simi(bins: seq<(real, real)>, hist: seq<int>, score: (real, real) -> real,
                   weight: (real, real) -> real): (r: Result<Simi>)
    ensures r.Err? <==> |hist| < |bins| || NonzeroCount(hist, 0, |bins|) == 0
    ensures r.Ok? ==> |r.value.table| == NonzeroCount(hist, 0, |bins|)
  {
    Summarise(BinsIntended(bins, hist, score, weight, 0))
  }

  /** An empty first bin silences every later one: with frequencies
      [0, 5] the loop as written scores nothing and divides by zero,
      where the second bin should have been scored. */
  lemma {:induction false} EmptyFirstBinSilencesRest(score: (real, real) -> real, weight: (real, real) -> real)
    ensures Od2SimiAsWritten([(0.0, 1.0), (1.0, 2.0)], [0, 5], score, weight).Err?
    ensures Od2Simi([(0.0, 1.0), (1.0, 2.0)], [0, 5], score, weight).Ok?
    ensures |Od2Simi([(0.0, 1.0), (1.0, 2.0)], [0, 5], score, weight).value.table| == 1
  {
    StuckAfterEmptyBin([(0.0, 1.0), (1.0, 2.0)], [0, 5], score, weight, 0, 0);
    assert NonzeroCount([0, 5], 0, 2) == 1 by {
      assert NonzeroCount([0, 5], 2, 2) == 0;
      assert NonzeroCount([0, 5], 1, 2) == 1;
    }
  }

  // Normalisation in similarity

  /** The national filter: cells closer than 100 km are zeroed on the
      national scale; otherwise the matrix is left alone. */
  function DistanceFilter(M: Matrix, W: Matrix, national: bool): (R: Matrix)
    requires |W| == |M| && forall i :: 0 <= i < |M| ==> |W[i]| == |M[i]|
    ensures |R| == |M| && forall i :: 0 <= i < |M| ==> |R[i]| == |M[i]|
    ensures forall i, j :: 0 <= i < |M| && 0 <= j < |M[i]| ==>
              R[i][j] == (if national && W[i][j] < 100.0 then 0.0 else M[i][j])
  {
    seq(|M|, i requires 0 <= i < |M| =>
      seq(|M[i]|, j requires 0 <= j < |M[i]| => if national && W[i][j] < 100.0 then 0.0 else M[i][j]))
  }

  /** The Twitter matrix over max(total, 1): a total above 1 is brought to
      1, and a total of at most 1 (the all-zero matrix included) is left
      as it is, never divided by zero. */
  function NormaliseTwitter(M: Matrix): (R: Matrix)
    ensures |R| == |M| && forall i :: 0 <= i < |M| ==> |R[i]| == |M[i]|
    ensures MatrixSum(M) >= 1.0 ==> MatrixSum(R) == 1.0
    ensures MatrixSum(M) <= 1.0 ==> forall i, j :: 0 <= i < |M| && 0 <= j < |M[i]| ==> R[i][j] == M[i][j]
  {
    var d := Max(MatrixSum(M), 1.0);
    MatrixSumScale(M, 1.0 / d);
    ScaleMatrix(M, 1.0 / d)
  }

  /** The ground-truth matrix over its total; numpy would return NaN or
      inf for a zero total, reported here as an error. */
  function NormaliseGroundTruth(M: Matrix): (r: Result<Matrix>)
    ensures r.Err? <==> MatrixSum(M) == 0.0
    ensures r.Ok? ==> |r.value| == |M| && forall i :: 0 <= i < |M| ==> |r.value[i]| == |M[i]|
    ensures r.Ok? ==> MatrixSum(r.value) == 1.0
    ensures r.Ok? ==> forall i, j :: 0 <= i < |M| && 0 <= j < |M[i]| ==> r.value[i][j] * MatrixSum(M) == M[i][j]
  {
    var total := MatrixSum(M);
    if total == 0.0 then Err("division by a zero total")
    else
      MatrixSumScale(M, 1.0 / total);
      var R := ScaleMatrix(M, 1.0 / total);
      forall i, j | 0 <= i < |M| && 0 <= j < |M[i]| ensures R[i][j] * total == M[i][j] {
        BalancedEntry(M[i][j], total, 1.0);
      }
      Ok(R)
  }
}

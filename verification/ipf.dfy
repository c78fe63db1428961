/** Iterative proportional fitting (`ipf`) and the margin preparation of
    `GravityModel.gravitate` in src/py/validation.py.

    A matrix is a sequence of rows. numpy divides by a zero row or column
    sum without raising and carries NaN from then on; the model reports
    that as an error instead. `np.amax` of an empty array raises, which is
    the error of an iteration over an empty matrix. */
module Gravity {
  import opened Common

  type Matrix = seq<seq<real>>

  /** n rows of m entries each. */
  predicate IsMatrix(M: Matrix, n: nat, m: nat)
  {
    |M| == n && forall i :: 0 <= i < n ==> |M[i]| == m
  }

  predicate PositiveMatrix(M: Matrix)
  {
    forall i, j :: 0 <= i < |M| && 0 <= j < |M[i]| ==> M[i][j] > 0.0
  }

  /** Column j of a matrix. A row too short to reach column j contributes
      0; `IpfStep` rejects such ragged input before any column is read. */
  function Column(M: Matrix, j: nat): (c: seq<real>)
    ensures |c| == |M|
    ensures forall i :: 0 <= i < |M| && j < |M[i]| ==> c[i] == M[i][j]
  {
    seq(|M|, i requires 0 <= i < |M| => if j < |M[i]| then M[i][j] else 0.0)
  }

  /** `np.sum(M, axis=1)`. */
  function RowSums(M: Matrix): (r: seq<real>)
    ensures |r| == |M|
    ensures forall i :: 0 <= i < |M| ==> r[i] == Sum(M[i])
  {
    seq(|M|, i requires 0 <= i < |M| => Sum(M[i]))
  }

  /** `np.sum(M, axis=0)` for a matrix of m columns. */
  function ColSums(M: Matrix, m: nat): (r: seq<real>)
    ensures |r| == m
    ensures forall j :: 0 <= j < m ==> r[j] == Sum(Column(M, j))
  {
    seq(m, j requires 0 <= j < m => Sum(Column(M, j)))
  }

  /** The row step on the first k rows: row i multiplied by
      `row_margin[i]` over its sum. */
  function RowStep(M: Matrix, rm: seq<real>, k: nat): (R: Matrix)
    requires k <= |M| == |rm|
    requires !ZeroRowSum(M, k)
    ensures |R| == k
    ensures forall i :: 0 <= i < k ==> |R[i]| == |M[i]|
  {
    if k == 0 then []
    else RowStep(M, rm, k - 1) + [Scale(M[k - 1], rm[k - 1] / Sum(M[k - 1]))]
  }

  /** The factors of the first k columns: `column_margin[j]` over the sum of
      column j. */
  function ColFactors(M: Matrix, cm: seq<real>, k: nat): (f: seq<real>)
    requires k <= |cm| && !ZeroColSum(M, k)
    ensures |f| == k
  {
    if k == 0 then []
    else ColFactors(M, cm, k - 1) + [cm[k - 1] / Sum(Column(M, k - 1))]
  }

  /** A row multiplied entry by entry by the column factors (a missing
      entry of a short row counts as 0, as in `Column`). */
  function Times(row: seq<real>, f: seq<real>): (r: seq<real>)
    ensures |r| == |f|
    ensures forall j :: 0 <= j < |f| && j < |row| ==> r[j] == row[j] * f[j]
  {
    seq(|f|, j requires 0 <= j < |f| => if j < |row| then row[j] * f[j] else 0.0)
  }

  /** The column step on the first k rows. */
  function ColStep(M: Matrix, f: seq<real>, k: nat): (C: Matrix)
    requires k <= |M|
    ensures IsMatrix(C, k, |f|)
  {
    if k == 0 then []
    else ColStep(M, f, k - 1) + [Times(M[k - 1], f)]
  }

  /** Some row among the first k sums to zero. */
  predicate ZeroRowSum(M: Matrix, k: nat)
    requires k <= |M|
  {
    k > 0 && (ZeroRowSum(M, k - 1) || Sum(M[k - 1]) == 0.0)
  }

  lemma {:induction false} ZeroRowSumMeans(M: Matrix, k: nat)
    requires k <= |M|
    ensures ZeroRowSum(M, k) <==> exists i :: 0 <= i < k && Sum(M[i]) == 0.0
  {
    if k > 0 {
      ZeroRowSumMeans(M, k - 1);
    }
  }

  /** Some column among the first k sums to zero. */
  predicate ZeroColSum(M: Matrix, k: nat)
  {
    k > 0 && (ZeroColSum(M, k - 1) || Sum(Column(M, k - 1)) == 0.0)
  }

  lemma {:induction false} ZeroColSumMeans(M: Matrix, k: nat)
    ensures ZeroColSum(M, k) <==> exists j :: 0 <= j < k && Sum(Column(M, j)) == 0.0
  {
    if k > 0 {
      ZeroColSumMeans(M, k - 1);
    }
  }

  /** One iteration of the `for` loop: the row step, then the column step.
      Margins whose lengths do not match the matrix are an error (numpy's
      broadcasting of a length-1 operand is not modelled); a zero sum to
      divide by is an error. */
  function IpfStep(M: Matrix, cm: seq<real>, rm: seq<real>): (r: Result<Matrix>)
    ensures r.Ok? ==> IsMatrix(r.value, |rm|, |cm|)
  {
    if !IsMatrix(M, |rm|, |cm|) then Err("operands could not be broadcast together")
    else if ZeroRowSum(M, |M|) then Err("division by a zero row sum")
    else
      var R := RowStep(M, rm, |M|);
      if ZeroColSum(R, |cm|) then Err("division by a zero column sum")
      else Ok(ColStep(R, ColFactors(R, cm, |cm|), |R|))
  }

  /** The iteration of `ipf` as a step function. */
  function Stepper(cm: seq<real>, rm: seq<real>): Matrix -> Result<Matrix>
  {
    M => IpfStep(M, cm, rm)
  }

  /** The matrix after k applications of `step`; an error ends the run. */
  function Iterate(step: Matrix -> Result<Matrix>, seed: Matrix, k: nat): Result<Matrix>
  {
    if k == 0 then Ok(seed)
    else
      match Iterate(step, seed, k - 1)
      case Err(e) => Err(e)
      case Ok(M) => step(M)
  }

  /** `step` keeps every n-by-m matrix n-by-m. */
  ghost predicate KeepsShape(step: Matrix -> Result<Matrix>, n: nat, m: nat)
  {
    forall M :: IsMatrix(M, n, m) && step(M).Ok? ==> IsMatrix(step(M).value, n, m)
  }

  lemma {:induction false} StepperKeepsShape(cm: seq<real>, rm: seq<real>)
    ensures KeepsShape(Stepper(cm, rm), |rm|, |cm|)
  {
    forall M | IsMatrix(M, |rm|, |cm|) && Stepper(cm, rm)(M).Ok?
      ensures IsMatrix(Stepper(cm, rm)(M).value, |rm|, |cm|)
    {
      assert Stepper(cm, rm)(M) == IpfStep(M, cm, rm);
    }
  }

  lemma {:induction false} IterateKeepsShape(step: Matrix -> Result<Matrix>, seed: Matrix, n: nat, m: nat, k: nat)
    requires IsMatrix(seed, n, m) && KeepsShape(step, n, m)
    ensures Iterate(step, seed, k).Ok? ==> IsMatrix(Iterate(step, seed, k).value, n, m)
  {
    if k > 0 {
      IterateKeepsShape(step, seed, n, m, k - 1);
    }
  }

  function Abs(x: real): real
  {
    if x < 0.0 then -x else x
  }

  function Max(x: real, y: real): real
  {
    if x < y then y else x
  }

  function Min(x: nat, y: nat): nat
  {
    if x < y then x else y
  }

  /** The largest absolute difference among the first j > 0 entries of two
      rows. */
  function MaxAbsRow(a: seq<real>, b: seq<real>, j: nat): real
    requires 0 < j <= |a| && j <= |b|
  {
    if j == 1 then Abs(a[0] - b[0])
    else Max(MaxAbsRow(a, b, j - 1), Abs(a[j - 1] - b[j - 1]))
  }

  /** `np.amax(np.absolute(np.subtract(A, B)))` over the first k > 0 rows of
      two matrices of m > 0 columns. */
  function MaxAbsDiff(A: Matrix, B: Matrix, k: nat, m: nat): real
    requires 0 < k <= |A| == |B| && 0 < m
    requires IsMatrix(A, |A|, m) && IsMatrix(B, |A|, m)
  {
    if k == 1 then MaxAbsRow(A[0], B[0], m)
    else Max(MaxAbsDiff(A, B, k - 1, m), MaxAbsRow(A[k - 1], B[k - 1], m))
  }

  /** Every one of the first j paired entries differs by less than `tolerance`. */
  predicate RowClose(a: seq<real>, b: seq<real>, j: nat, tolerance: real)
    requires j <= |a| && j <= |b|
  {
    j == 0 || (RowClose(a, b, j - 1, tolerance) && Abs(a[j - 1] - b[j - 1]) < tolerance)
  }

  /** Every entry of the first k rows differs by less than `tolerance`. */
  predicate Close(A: Matrix, B: Matrix, k: nat, tolerance: real)
    requires k <= |A| && k <= |B|
  {
    k == 0
    || (Close(A, B, k - 1, tolerance)
        && RowClose(A[k - 1], B[k - 1], Min(|A[k - 1]|, |B[k - 1]|), tolerance))
  }

  /** Two matrices with the same rows count whose entries all differ by less
      than `tolerance`. */
  predicate Within(A: Matrix, B: Matrix, tolerance: real)
  {
    |A| == |B| && Close(A, B, |A|, tolerance)
  }

  /** The largest difference is below the tolerance exactly when every
      difference is. */
  lemma {:induction false} RowCloseIffMax(a: seq<real>, b: seq<real>, j: nat, tolerance: real)
    requires 0 < j <= |a| && j <= |b|
    ensures RowClose(a, b, j, tolerance) <==> MaxAbsRow(a, b, j) < tolerance
  {
    if j > 1 {
      RowCloseIffMax(a, b, j - 1, tolerance);
    }
  }

  lemma {:induction false} CloseIffMax(A: Matrix, B: Matrix, k: nat, m: nat, tolerance: real)
    requires 0 < k <= |A| == |B| && 0 < m
    requires IsMatrix(A, |A|, m) && IsMatrix(B, |A|, m)
    ensures Close(A, B, k, tolerance) <==> MaxAbsDiff(A, B, k, m) < tolerance
  {
    RowCloseIffMax(A[k - 1], B[k - 1], m, tolerance);
    if k > 1 {
      CloseIffMax(A, B, k - 1, m, tolerance);
    }
  }

  /** The loop stops after iteration k when k is a multiple of 10 and that
      iteration changed no entry by `tolerance` or more. */
  predicate StopsAfter(step: Matrix -> Result<Matrix>, seed: Matrix, tolerance: real, k: nat)
  {
    k % 10 == 0
    && Iterate(step, seed, k + 1).Ok?
    && Iterate(step, seed, k).Ok?
    && Within(Iterate(step, seed, k + 1).value, Iterate(step, seed, k).value, tolerance)
  }

  /** No iteration before the k-th ended the loop. */
  predicate RunsPast(step: Matrix -> Result<Matrix>, seed: Matrix, tolerance: real, k: nat)
  {
    k == 0 || (RunsPast(step, seed, tolerance, k - 1) && !StopsAfter(step, seed, tolerance, k - 1))
  }

  lemma {:induction false} RunsPastNoStop(step: Matrix -> Result<Matrix>, seed: Matrix, tolerance: real, k: nat)
    requires RunsPast(step, seed, tolerance, k)
    ensures forall j :: 0 <= j < k ==> !StopsAfter(step, seed, tolerance, j)
  {
    if k > 0 {
      RunsPastNoStop(step, seed, tolerance, k - 1);
    }
  }

  /** The `for` loop of `ipf` over a non-empty n-by-m matrix, for any step
      that keeps the shape: it runs until an iteration with a checked index
      changes no entry by `tolerance` or more, or `max_iter` iterations are
      done. A failing step ends it with that error. */
  method Fit(step: Matrix -> Result<Matrix>, seed: Matrix, n: nat, m: nat, maxIter: nat, tolerance: real)
    returns (r: Result<Matrix>, iterations: nat)
    requires IsMatrix(seed, n, m) && n > 0 && m > 0 && maxIter > 0
    requires KeepsShape(step, n, m)
    ensures 0 < iterations <= maxIter
    ensures r.Ok? == Iterate(step, seed, iterations).Ok?
    ensures r.Ok? ==> r.value == Iterate(step, seed, iterations).value
    ensures r.Ok? && iterations < maxIter ==> StopsAfter(step, seed, tolerance, iterations - 1)
    ensures forall k :: 0 <= k < iterations - 1 ==> !StopsAfter(step, seed, tolerance, k)
  {
    var curr := seed;
    var i := 0;
    while i < maxIter
      invariant i <= maxIter && IsMatrix(curr, n, m)
      invariant Iterate(step, seed, i).Ok? && curr == Iterate(step, seed, i).value
      invariant RunsPast(step, seed, tolerance, i)
    {
      var next := step(curr);
      if next.Err? {
        RunsPastNoStop(step, seed, tolerance, i);
        return next, i + 1;
      }
      var diff := MaxAbsDiff(next.value, curr, n, m);
      CloseIffMax(next.value, curr, n, m, tolerance);
      curr := next.value;
      if i % 10 == 0 && diff < tolerance {
        RunsPastNoStop(step, seed, tolerance, i);
        return Ok(curr), i + 1;
      }
      i := i + 1;
    }
    RunsPastNoStop(step, seed, tolerance, i);
    return Ok(curr), maxIter;
  }

  predicate NonNegativeMatrix(M: Matrix)
  {
    forall i, j :: 0 <= i < |M| && 0 <= j < |M[i]| ==> M[i][j] >= 0.0
  }

  lemma {:induction false} RowStepRow(M: Matrix, rm: seq<real>, k: nat, i: nat)
    requires k <= |M| == |rm| && !ZeroRowSum(M, k) && i < k
    ensures Sum(M[i]) != 0.0
    ensures RowStep(M, rm, k)[i] == Scale(M[i], rm[i] / Sum(M[i]))
  {
    if i < k - 1 {
      RowStepRow(M, rm, k - 1, i);
    }
  }

  lemma {:induction false} ColFactorAt(M: Matrix, cm: seq<real>, k: nat, j: nat)
    requires k <= |cm| && !ZeroColSum(M, k) && j < k
    ensures Sum(Column(M, j)) != 0.0
    ensures ColFactors(M, cm, k)[j] == cm[j] / Sum(Column(M, j))
  {
    if j < k - 1 {
      ColFactorAt(M, cm, k - 1, j);
    }
  }

  lemma {:induction false} ColStepRow(M: Matrix, f: seq<real>, k: nat, i: nat)
    requires k <= |M| && i < k
    ensures ColStep(M, f, k)[i] == Times(M[i], f)
  {
    if i < k - 1 {
      ColStepRow(M, f, k - 1, i);
    }
  }

  /** Scaling by a margin over a non-zero total reaches the margin. */
  lemma {:induction false} MarginCancel(total: real, margin: real)
    requires total != 0.0
    ensures total * (margin / total) == margin
  {
  }

  lemma {:induction false} QuotientSign(x: real, y: real)
    requires x > 0.0
    ensures y >= 0.0 ==> y / x >= 0.0
    ensures y > 0.0 ==> y / x > 0.0
  {
  }

  /** Scaling masses by a margin over their total makes them sum to the
      margin. */
  lemma {:induction false} ScaledToMargin(s: seq<real>, margin: real)
    requires Sum(s) != 0.0
    ensures Sum(Scale(s, margin / Sum(s))) == margin
  {
    SumScale(s, margin / Sum(s));
    MarginCancel(Sum(s), margin);
  }

  lemma {:induction false} RowFitted(M: Matrix, rm: seq<real>, i: nat)
    requires |M| == |rm| && !ZeroRowSum(M, |M|) && i < |M|
    ensures Sum(RowStep(M, rm, |M|)[i]) == rm[i]
  {
    RowStepRow(M, rm, |M|, i);
    ScaledToMargin(M[i], rm[i]);
  }

  /** After the row step, row i sums to `row_margin[i]`. */
  lemma {:induction false} RowStepMargins(M: Matrix, rm: seq<real>)
    requires |M| == |rm| && !ZeroRowSum(M, |M|)
    ensures RowSums(RowStep(M, rm, |M|)) == rm
  {
    forall i | 0 <= i < |M| ensures RowSums(RowStep(M, rm, |M|))[i] == rm[i] {
      RowFitted(M, rm, i);
    }
  }

  lemma {:induction false} ColStepEntry(R: Matrix, f: seq<real>, i: nat, j: nat)
    requires i < |R| && j < |f| && j < |R[i]|
    ensures ColStep(R, f, |R|)[i][j] == R[i][j] * f[j]
  {
    ColStepRow(R, f, |R|, i);
  }

  lemma {:induction false} ColStepColumnEntry(R: Matrix, f: seq<real>, i: nat, j: nat)
    requires IsMatrix(R, |R|, |f|) && i < |R| && j < |f|
    ensures Column(ColStep(R, f, |R|), j)[i] == R[i][j] * f[j]
  {
    ColStepEntry(R, f, i, j);
  }

  lemma {:induction false} ScaledColumnEntry(R: Matrix, c: real, i: nat, j: nat)
    requires i < |R| && j < |R[i]|
    ensures Scale(Column(R, j), c)[i] == R[i][j] * c
  {
  }

  lemma {:induction false} ColumnScaledEntry(R: Matrix, f: seq<real>, i: nat, j: nat)
    requires IsMatrix(R, |R|, |f|) && i < |R| && j < |f|
    ensures Column(ColStep(R, f, |R|), j)[i] == Scale(Column(R, j), f[j])[i]
  {
    ColStepColumnEntry(R, f, i, j);
    ScaledColumnEntry(R, f[j], i, j);
  }

  /** Column j after the column step is column j before it times factor j. */
  lemma {:induction false} ColumnScaled(R: Matrix, f: seq<real>, j: nat)
    requires IsMatrix(R, |R|, |f|) && j < |f|
    ensures Column(ColStep(R, f, |R|), j) == Scale(Column(R, j), f[j])
  {
    forall i | 0 <= i < |R| ensures Column(ColStep(R, f, |R|), j)[i] == Scale(Column(R, j), f[j])[i] {
      ColumnScaledEntry(R, f, i, j);
    }
  }

  lemma {:induction false} ColumnFitted(R: Matrix, cm: seq<real>, j: nat)
    requires IsMatrix(R, |R|, |cm|) && !ZeroColSum(R, |cm|) && j < |cm|
    ensures Sum(Column(ColStep(R, ColFactors(R, cm, |cm|), |R|), j)) == cm[j]
  {
    var f := ColFactors(R, cm, |cm|);
    ColFactorAt(R, cm, |cm|, j);
    ColumnScaled(R, f, j);
    ScaledToMargin(Column(R, j), cm[j]);
  }

  /** After the column step, column j sums to `column_margin[j]`. */
  lemma {:induction false} ColStepMargins(R: Matrix, cm: seq<real>)
    requires IsMatrix(R, |R|, |cm|) && !ZeroColSum(R, |cm|)
    ensures ColSums(ColStep(R, ColFactors(R, cm, |cm|), |R|), |cm|) == cm
  {
    var C := ColStep(R, ColFactors(R, cm, |cm|), |R|);
    forall j | 0 <= j < |cm| ensures ColSums(C, |cm|)[j] == cm[j] {
      ColumnFitted(R, cm, j);
    }
  }

  /** One iteration that succeeds fits the row margins after its row step
      and the column margins exactly at its end. */
  lemma {:induction false} IpfStepMargins(M: Matrix, cm: seq<real>, rm: seq<real>)
    requires IpfStep(M, cm, rm).Ok?
    ensures IsMatrix(M, |rm|, |cm|) && !ZeroRowSum(M, |M|)
    ensures RowSums(RowStep(M, rm, |M|)) == rm
    ensures ColSums(IpfStep(M, cm, rm).value, |cm|) == cm
  {
    RowStepMargins(M, rm);
    ColStepMargins(RowStep(M, rm, |M|), cm);
  }

  /** Every iterate after the first one meets the column margins. */
  lemma {:induction false} IterateColumnMargins(seed: Matrix, cm: seq<real>, rm: seq<real>, k: nat)
    requires k > 0 && Iterate(Stepper(cm, rm), seed, k).Ok?
    ensures IsMatrix(Iterate(Stepper(cm, rm), seed, k).value, |rm|, |cm|)
    ensures ColSums(Iterate(Stepper(cm, rm), seed, k).value, |cm|) == cm
  {
    var M := Iterate(Stepper(cm, rm), seed, k - 1).value;
    assert Iterate(Stepper(cm, rm), seed, k) == IpfStep(M, cm, rm);
    IpfStepMargins(M, cm, rm);
  }

  lemma {:induction false} ProductSign(x: real, y: real)
    ensures x >= 0.0 && y >= 0.0 ==> x * y >= 0.0
    ensures x > 0.0 && y > 0.0 ==> x * y > 0.0
  {
  }

  lemma {:induction false} ScaleEntry(s: seq<real>, c: real, j: nat)
    requires j < |s|
    ensures Scale(s, c)[j] == s[j] * c
  {
  }

  lemma {:induction false} RowStepEntry(M: Matrix, rm: seq<real>, i: nat, j: nat)
    requires |M| == |rm| && !ZeroRowSum(M, |M|) && i < |M| && j < |M[i]|
    ensures Sum(M[i]) != 0.0
    ensures RowStep(M, rm, |M|)[i][j] == M[i][j] * (rm[i] / Sum(M[i]))
  {
    RowStepRow(M, rm, |M|, i);
    ScaleEntry(M[i], rm[i] / Sum(M[i]), j);
  }

  lemma {:induction false} RowEntrySign(M: Matrix, rm: seq<real>, i: nat, j: nat)
    requires |M| == |rm| && !ZeroRowSum(M, |M|) && i < |M| && j < |M[i]| && NonNegativeMatrix(M)
    ensures rm[i] >= 0.0 ==> RowStep(M, rm, |M|)[i][j] >= 0.0
    ensures rm[i] > 0.0 && M[i][j] > 0.0 ==> RowStep(M, rm, |M|)[i][j] > 0.0
  {
    RowStepEntry(M, rm, i, j);
    RowFactorSign(M, rm, i);
    ProductSign(M[i][j], rm[i] / Sum(M[i]));
  }

  lemma {:induction false} ColEntrySign(R: Matrix, cm: seq<real>, i: nat, j: nat)
    requires !ZeroColSum(R, |cm|) && i < |R| && j < |cm| && j < |R[i]| && NonNegativeMatrix(R)
    ensures cm[j] >= 0.0 ==> ColStep(R, ColFactors(R, cm, |cm|), |R|)[i][j] >= 0.0
    ensures cm[j] > 0.0 && R[i][j] > 0.0 ==> ColStep(R, ColFactors(R, cm, |cm|), |R|)[i][j] > 0.0
  {
    var f := ColFactors(R, cm, |cm|);
    ColStepEntry(R, f, i, j);
    ColFactorSign(R, cm, j);
    ProductSign(R[i][j], f[j]);
  }

  /** The row factor has the sign of the margin: the row sum is positive. */
  lemma {:induction false} RowFactorSign(M: Matrix, rm: seq<real>, i: nat)
    requires i < |M| && i < |rm| && Sum(M[i]) != 0.0 && NonNegativeMatrix(M)
    ensures rm[i] >= 0.0 ==> rm[i] / Sum(M[i]) >= 0.0
    ensures rm[i] > 0.0 ==> rm[i] / Sum(M[i]) > 0.0
  {
    assert AllNonNegative(M[i]) by {
      forall j | 0 <= j < |M[i]| ensures M[i][j] >= 0.0 {
        assert M[i][j] >= 0.0;
      }
    }
    SumNonNegative(M[i]);
    QuotientSign(Sum(M[i]), rm[i]);
  }

  lemma {:induction false} ColFactorSign(R: Matrix, cm: seq<real>, j: nat)
    requires j < |cm| && !ZeroColSum(R, |cm|) && NonNegativeMatrix(R)
    ensures cm[j] >= 0.0 ==> ColFactors(R, cm, |cm|)[j] >= 0.0
    ensures cm[j] > 0.0 ==> ColFactors(R, cm, |cm|)[j] > 0.0
  {
    ColFactorAt(R, cm, |cm|, j);
    assert AllNonNegative(Column(R, j)) by {
      forall i | 0 <= i < |R| ensures Column(R, j)[i] >= 0.0 {
        if j < |R[i]| {
          assert R[i][j] >= 0.0;
        }
      }
    }
    SumNonNegative(Column(R, j));
    QuotientSign(Sum(Column(R, j)), cm[j]);
  }

  lemma {:induction false} NonNegativeFromPositive(M: Matrix)
    requires PositiveMatrix(M)
    ensures NonNegativeMatrix(M)
  {
  }

  lemma {:induction false} RowStepNonNegative(M: Matrix, rm: seq<real>)
    requires |M| == |rm| && !ZeroRowSum(M, |M|)
    requires NonNegativeMatrix(M) && AllNonNegative(rm)
    ensures NonNegativeMatrix(RowStep(M, rm, |M|))
  {
    var R := RowStep(M, rm, |M|);
    forall i, j | 0 <= i < |R| && 0 <= j < |R[i]| ensures R[i][j] >= 0.0 {
      RowEntrySign(M, rm, i, j);
    }
  }

  lemma {:induction false} ColStepNonNegative(R: Matrix, cm: seq<real>)
    requires IsMatrix(R, |R|, |cm|) && !ZeroColSum(R, |cm|)
    requires NonNegativeMatrix(R) && AllNonNegative(cm)
    ensures NonNegativeMatrix(ColStep(R, ColFactors(R, cm, |cm|), |R|))
  {
    var f := ColFactors(R, cm, |cm|);
    var C := ColStep(R, f, |R|);
    forall i, j | 0 <= i < |C| && 0 <= j < |C[i]| ensures C[i][j] >= 0.0 {
      ColEntrySign(R, cm, i, j);
    }
  }

  /** Non-negative entries and margins stay non-negative. */
  lemma {:induction false} IpfStepNonNegative(M: Matrix, cm: seq<real>, rm: seq<real>)
    requires NonNegativeMatrix(M) && AllNonNegative(cm) && AllNonNegative(rm)
    requires IpfStep(M, cm, rm).Ok?
    ensures NonNegativeMatrix(IpfStep(M, cm, rm).value)
  {
    RowStepNonNegative(M, rm);
    ColStepNonNegative(RowStep(M, rm, |M|), cm);
  }

  /** Positive rows have positive sums, so the row step does not fail. */
  lemma {:induction false} NoZeroRowSum(M: Matrix, m: nat)
    requires IsMatrix(M, |M|, m) && m > 0 && PositiveMatrix(M)
    ensures !ZeroRowSum(M, |M|)
  {
    forall i | 0 <= i < |M| ensures Sum(M[i]) != 0.0 {
      assert AllPositive(M[i]) by {
        forall j | 0 <= j < |M[i]| ensures M[i][j] > 0.0 {
          assert M[i][j] > 0.0;
        }
      }
      SumPositive(M[i]);
    }
    ZeroRowSumMeans(M, |M|);
  }

  lemma {:induction false} NoZeroColSum(R: Matrix, m: nat)
    requires IsMatrix(R, |R|, m) && |R| > 0 && PositiveMatrix(R)
    ensures !ZeroColSum(R, m)
  {
    forall j | 0 <= j < m ensures Sum(Column(R, j)) != 0.0 {
      assert AllPositive(Column(R, j)) by {
        forall i | 0 <= i < |R| ensures Column(R, j)[i] > 0.0 {
          assert R[i][j] > 0.0;
        }
      }
      SumPositive(Column(R, j));
    }
    ZeroColSumMeans(R, m);
  }

  lemma {:induction false} RowStepPositive(M: Matrix, rm: seq<real>, m: nat)
    requires |M| == |rm| && IsMatrix(M, |M|, m) && m > 0 && PositiveMatrix(M) && AllPositive(rm)
    ensures !ZeroRowSum(M, |M|)
    ensures PositiveMatrix(RowStep(M, rm, |M|))
  {
    NoZeroRowSum(M, m);
    NonNegativeFromPositive(M);
    var R := RowStep(M, rm, |M|);
    forall i, j | 0 <= i < |R| && 0 <= j < |R[i]| ensures R[i][j] > 0.0 {
      RowEntrySign(M, rm, i, j);
    }
  }

  lemma {:induction false} ColStepPositive(R: Matrix, cm: seq<real>)
    requires IsMatrix(R, |R|, |cm|) && |R| > 0 && PositiveMatrix(R) && AllPositive(cm)
    ensures !ZeroColSum(R, |cm|)
    ensures PositiveMatrix(ColStep(R, ColFactors(R, cm, |cm|), |R|))
  {
    NoZeroColSum(R, |cm|);
    NonNegativeFromPositive(R);
    var f := ColFactors(R, cm, |cm|);
    var C := ColStep(R, f, |R|);
    forall i, j | 0 <= i < |C| && 0 <= j < |C[i]| ensures C[i][j] > 0.0 {
      ColEntrySign(R, cm, i, j);
    }
  }

  /** A positive matrix with positive margins never meets a zero sum, and
      the iteration keeps it positive. */
  lemma {:induction false} IpfStepPositive(M: Matrix, cm: seq<real>, rm: seq<real>)
    requires IsMatrix(M, |rm|, |cm|) && |rm| > 0 && |cm| > 0 && PositiveMatrix(M)
    requires AllPositive(cm) && AllPositive(rm)
    ensures IpfStep(M, cm, rm).Ok?
    ensures PositiveMatrix(IpfStep(M, cm, rm).value)
  {
    RowStepPositive(M, rm, |cm|);
    ColStepPositive(RowStep(M, rm, |M|), cm);
  }

  /** From a positive seed with positive margins no iteration fails. */
  lemma {:induction false} IterateNeverFails(seed: Matrix, cm: seq<real>, rm: seq<real>, k: nat)
    requires IsMatrix(seed, |rm|, |cm|) && |rm| > 0 && |cm| > 0 && PositiveMatrix(seed)
    requires AllPositive(cm) && AllPositive(rm)
    ensures Iterate(Stepper(cm, rm), seed, k).Ok?
    ensures IsMatrix(Iterate(Stepper(cm, rm), seed, k).value, |rm|, |cm|)
    ensures PositiveMatrix(Iterate(Stepper(cm, rm), seed, k).value)
  {
    if k > 0 {
      IterateNeverFails(seed, cm, rm, k - 1);
      var M := Iterate(Stepper(cm, rm), seed, k - 1).value;
      assert Iterate(Stepper(cm, rm), seed, k) == IpfStep(M, cm, rm);
      IpfStepPositive(M, cm, rm);
    }
  }

  /** `ipf(seed, column_margin, row_margin, max_iter, tolerance)`, returning
      the fitted matrix and the number of iterations run. With
      `max_iter = 0` the seed comes back unchanged; an empty matrix fails
      at the first convergence check. */
  method Ipf(seed: Matrix, cm: seq<real>, rm: seq<real>, maxIter: nat, tolerance: real)
    returns (r: Result<Matrix>, iterations: nat)
    ensures iterations <= maxIter
    ensures maxIter == 0 ==> r == Ok(seed) && iterations == 0
    ensures maxIter > 0 && (|rm| == 0 || |cm| == 0 || !IsMatrix(seed, |rm|, |cm|)) ==> r.Err?
    ensures maxIter > 0 && |rm| > 0 && |cm| > 0 ==>
              0 < iterations
              && r.Ok? == Iterate(Stepper(cm, rm), seed, iterations).Ok?
              && (r.Ok? ==> r.value == Iterate(Stepper(cm, rm), seed, iterations).value)
              && (r.Ok? && iterations < maxIter ==> StopsAfter(Stepper(cm, rm), seed, tolerance, iterations - 1))
              && forall k :: 0 <= k < iterations - 1 ==> !StopsAfter(Stepper(cm, rm), seed, tolerance, k)
    ensures maxIter > 0 && r.Ok? ==> IsMatrix(r.value, |rm|, |cm|) && ColSums(r.value, |cm|) == cm
    ensures (maxIter > 0 && IsMatrix(seed, |rm|, |cm|) && |rm| > 0 && |cm| > 0 && PositiveMatrix(seed)
             && AllPositive(cm) && AllPositive(rm)) ==> r.Ok? && PositiveMatrix(r.value)
  {
    if maxIter == 0 {
      return Ok(seed), 0;
    }
    if |rm| == 0 || |cm| == 0 {
      return Err("zero-size array to reduction operation maximum"), 0;
    }
    if !IsMatrix(seed, |rm|, |cm|) {
      assert Iterate(Stepper(cm, rm), seed, 1) == IpfStep(seed, cm, rm);
      return Err("operands could not be broadcast together"), 1;
    }
    StepperKeepsShape(cm, rm);
    r, iterations := Fit(Stepper(cm, rm), seed, |rm|, |cm|, maxIter, tolerance);
    if r.Ok? {
      IterateColumnMargins(seed, cm, rm, iterations);
    }
    if PositiveMatrix(seed) && AllPositive(cm) && AllPositive(rm) {
      IterateNeverFails(seed, cm, rm, iterations);
    }
  }

  // `GravityModel`

  /** The defaults of `GravityModel.__init__`. */
  const DefaultBeta: real := 0.03
  const DefaultMaxIter: nat := 5000
  const DefaultTolerance: real := 0.00000001

  /** The constant added to every margin so that no zone has zero mass. */
  const Pad: real := 0.0000001

  /** `GravityModel.seed`: `exp(-beta * d)` for every distance. The
      exponential is a parameter of the model. */
  function GravitySeed(exp: real -> real, beta: real, D: Matrix): (S: Matrix)
    ensures |S| == |D|
    ensures forall i :: 0 <= i < |D| ==> |S[i]| == |D[i]|
    ensures forall i, j :: 0 <= i < |D| && 0 <= j < |D[i]| ==> S[i][j] == exp(-beta * D[i][j])
  {
    seq(|D|, i requires 0 <= i < |D| => SeedRow(exp, beta, D[i]))
  }

  function SeedRow(exp: real -> real, beta: real, d: seq<real>): (s: seq<real>)
    ensures |s| == |d|
    ensures forall j :: 0 <= j < |d| ==> s[j] == exp(-beta * d[j])
  {
    seq(|d|, j requires 0 <= j < |d| => Weight(exp, beta, d[j]))
  }

  /** The seed weight of one distance. */
  function Weight(exp: real -> real, beta: real, x: real): real
  {
    exp(-beta * x)
  }

  /** An exponential that is positive everywhere gives a positive seed,
      so that `ipf` never meets a zero sum on it. */
  lemma {:induction false} GravitySeedPositive(exp: real -> real, beta: real, D: Matrix)
    requires forall x :: exp(x) > 0.0
    ensures PositiveMatrix(GravitySeed(exp, beta, D))
  {
  }

  /** A larger distance gets a smaller seed weight when beta is positive
      and the exponential increases. */
  lemma {:induction false} GravitySeedDecays(exp: real -> real, beta: real, D: Matrix, i: nat, j: nat, k: nat, l: nat)
    requires forall x, y :: x < y ==> exp(x) < exp(y)
    requires beta > 0.0
    requires i < |D| && j < |D[i]| && k < |D| && l < |D[k]|
    requires D[i][j] < D[k][l]
    ensures GravitySeed(exp, beta, D)[k][l] < GravitySeed(exp, beta, D)[i][j]
  {
    ProductLess(beta, D[i][j], D[k][l]);
  }

  lemma {:induction false} ProductLess(c: real, x: real, y: real)
    requires c > 0.0 && x < y
    ensures -c * y < -c * x
  {
  }

  /** Every entry plus `Pad`. */
  function Padded(s: seq<real>): (r: seq<real>)
    ensures |r| == |s|
    ensures forall i :: 0 <= i < |s| ==> r[i] == s[i] + Pad
  {
    seq(|s|, i requires 0 <= i < |s| => s[i] + Pad)
  }

  /** The margins `gravitate` prepares from an n-by-m travel demand
      matrix (origins are rows, destinations columns): production is the
      padded origin totals, attraction the padded destination totals
      rescaled to the same total. A zero attraction total is a division
      by zero. */
  function GravityMargins(D: Matrix, n: nat, m: nat): (r: Result<(seq<real>, seq<real>)>)
    requires IsMatrix(D, n, m)
    ensures r.Err? <==> Sum(Padded(ColSums(D, m))) == 0.0
    ensures r.Ok? ==> |r.value.0| == n && |r.value.1| == m
    ensures r.Ok? ==> forall i :: 0 <= i < n ==> r.value.0[i] == Sum(D[i]) + Pad
    ensures r.Ok? ==> Sum(r.value.1) == Sum(r.value.0)
  {
    var production := Padded(RowSums(D));
    var attraction := Padded(ColSums(D, m));
    if Sum(attraction) == 0.0 then Err("division by a zero attraction total")
    else
      ScaledToMargin(attraction, Sum(production));
      Ok((production, Scale(attraction, Sum(production) / Sum(attraction))))
  }

  /** The rescaling keeps the destinations' proportions: each attraction
      is its padded destination total times the same positive factor. */
  lemma {:induction false} AttractionProportional(D: Matrix, n: nat, m: nat, j: nat, k: nat)
    requires IsMatrix(D, n, m) && GravityMargins(D, n, m).Ok? && j < m && k < m
    ensures GravityMargins(D, n, m).value.1[j] * (Sum(Column(D, k)) + Pad)
            == GravityMargins(D, n, m).value.1[k] * (Sum(Column(D, j)) + Pad)
  {
    var attraction := Padded(ColSums(D, m));
    var c := Sum(Padded(RowSums(D))) / Sum(attraction);
    var a := GravityMargins(D, n, m).value.1;
    assert a == Scale(attraction, c);
    CrossRatio(a[j], a[k], Sum(Column(D, j)) + Pad, Sum(Column(D, k)) + Pad, c);
  }

  lemma {:induction false} CrossRatio(aj: real, ak: real, x: real, y: real, c: real)
    requires aj == x * c && ak == y * c
    ensures aj * y == ak * x
  {
  }

  /** A non-negative demand matrix gives positive margins. */
  lemma {:induction false} MarginsPositive(D: Matrix, n: nat, m: nat)
    requires IsMatrix(D, n, m) && NonNegativeMatrix(D) && n > 0 && m > 0
    ensures GravityMargins(D, n, m).Ok?
    ensures AllPositive(GravityMargins(D, n, m).value.0)
    ensures AllPositive(GravityMargins(D, n, m).value.1)
  {
    var production := Padded(RowSums(D));
    var attraction := Padded(ColSums(D, m));
    forall i | 0 <= i < n
      ensures production[i] > 0.0
    {
      assert AllNonNegative(D[i]);
      SumNonNegative(D[i]);
    }
    forall j | 0 <= j < m
      ensures attraction[j] > 0.0
    {
      assert AllNonNegative(Column(D, j));
      SumNonNegative(Column(D, j));
    }
    SumPositive(production);
    SumPositive(attraction);
    var c := Sum(production) / Sum(attraction);
    QuotientSign(Sum(attraction), Sum(production));
    var scaled := Scale(attraction, c);
    forall j | 0 <= j < m
      ensures scaled[j] > 0.0
    {
      ProductSign(attraction[j], c);
    }
  }

  /** `GravityModel.gravitate` as written: the production margin goes into
      the column-margin slot of `ipf` and the attraction margin into the
      row-margin slot. The fitted matrix's column (destination) totals are
      therefore the origins' productions, and a demand matrix that is not
      square fails (numpy would broadcast one with a single origin or
      destination). */
  method GravitateAsWritten(D: Matrix, n: nat, m: nat, seed: Matrix, maxIter: nat, tolerance: real)
    returns (r: Result<Matrix>)
    requires IsMatrix(D, n, m)
    ensures GravityMargins(D, n, m).Err? ==> r.Err?
    ensures maxIter > 0 && r.Ok? ==>
              IsMatrix(r.value, m, n) && ColSums(r.value, n) == GravityMargins(D, n, m).value.0
    ensures (maxIter > 0 && n != m && GravityMargins(D, n, m).Ok? && IsMatrix(seed, n, m)) ==> r.Err?
  {
    var margins := GravityMargins(D, n, m);
    if margins.Err? {
      return Err(margins.msg);
    }
    var production, attraction := margins.value.0, margins.value.1;
    var iterations;
    r, iterations := Ipf(seed, production, attraction, maxIter, tolerance);
  }

  /** `gravitate` with the margins in the slots the seed's orientation
      asks for: rows (origins) are fitted to production and columns
      (destinations) to attraction. On a non-negative demand matrix and a
      positive seed it always succeeds. */
  method Gravitate(D: Matrix, n: nat, m: nat, seed: Matrix, maxIter: nat, tolerance: real)
    returns (r: Result<Matrix>)
    requires IsMatrix(D, n, m)
    ensures GravityMargins(D, n, m).Err? ==> r.Err?
    ensures maxIter > 0 && r.Ok? ==>
              IsMatrix(r.value, n, m) && ColSums(r.value, m) == GravityMargins(D, n, m).value.1
    ensures (maxIter > 0 && n > 0 && m > 0 && NonNegativeMatrix(D) && IsMatrix(seed, n, m) && PositiveMatrix(seed)) ==>
              GravityMargins(D, n, m).Ok? && r.Ok? && PositiveMatrix(r.value)
  {
    if NonNegativeMatrix(D) && n > 0 && m > 0 {
      MarginsPositive(D, n, m);
    }
    var margins := GravityMargins(D, n, m);
    if margins.Err? {
      return Err(margins.msg);
    }
    var production, attraction := margins.value.0, margins.value.1;
    var iterations;
    r, iterations := Ipf(seed, attraction, production, maxIter, tolerance);
  }

  /** Every step of the corrected iteration first fits the rows to
      production exactly. */
  lemma {:induction false} GravitateRowStepFitsProduction(D: Matrix, n: nat, m: nat, M: Matrix)
    requires IsMatrix(D, n, m) && GravityMargins(D, n, m).Ok?
    requires IpfStep(M, GravityMargins(D, n, m).value.1, GravityMargins(D, n, m).value.0).Ok?
    ensures RowSums(RowStep(M, GravityMargins(D, n, m).value.0, |M|)) == GravityMargins(D, n, m).value.0
  {
    IpfStepMargins(M, GravityMargins(D, n, m).value.1, GravityMargins(D, n, m).value.0);
  }

  /** Two zones, all the demand going from zone 0 to zone 1. */
  const OneWayDemand: Matrix := [[0.0, 1.0], [0.0, 0.0]]

  /** On `OneWayDemand` production and attraction differ: zone 0 produces
      almost everything and attracts almost nothing. */
  lemma {:induction false} OneWayMargins()
    ensures GravityMargins(OneWayDemand, 2, 2).Ok?
    ensures GravityMargins(OneWayDemand, 2, 2).value.0[0] == 1.0 + Pad
    ensures GravityMargins(OneWayDemand, 2, 2).value.1[0] == Pad
  {
    var D := OneWayDemand;
    assert Sum(D[0]) == 1.0 by { SumTwo(D[0]); }
    assert Sum(D[1]) == 0.0 by { SumTwo(D[1]); }
    assert Column(D, 0) == [0.0, 0.0];
    assert Column(D, 1) == [1.0, 0.0];
    SumTwo(Column(D, 0));
    SumTwo(Column(D, 1));
    var production := Padded(RowSums(D));
    var attraction := Padded(ColSums(D, 2));
    SumTwo(production);
    SumTwo(attraction);
    assert Sum(production) == Sum(attraction);
    MarginCancel(Sum(attraction), Sum(attraction));
  }

  lemma {:induction false} SumTwo(s: seq<real>)
    requires |s| == 2
    ensures Sum(s) == s[0] + s[1]
  {
    assert s[..1] == [s[0]];
    SumSingleton(s[0]);
  }

  /** The as-written gravitation on `OneWayDemand` gives destination 0 the
      production of origin 0 as its total, not its attraction. */
  lemma {:induction false} GravitateAsWrittenMissesAttraction(seed: Matrix, k: nat)
    requires IsMatrix(seed, 2, 2) && PositiveMatrix(seed) && k > 0
    ensures GravityMargins(OneWayDemand, 2, 2).Ok?
    ensures var margins := GravityMargins(OneWayDemand, 2, 2).value;
            Iterate(Stepper(margins.0, margins.1), seed, k).Ok?
            && ColSums(Iterate(Stepper(margins.0, margins.1), seed, k).value, 2)[0] != margins.1[0]
  {
    OneWayMargins();
    MarginsPositive(OneWayDemand, 2, 2);
    var margins := GravityMargins(OneWayDemand, 2, 2).value;
    IterateNeverFails(seed, margins.0, margins.1, k);
    IterateColumnMargins(seed, margins.0, margins.1, k);
  }

  /** The corrected gravitation on any non-negative demand matrix and
      positive seed: every iterate exists and its destination totals are
      the attractions. */
  lemma {:induction false} GravitateMeetsAttraction(D: Matrix, n: nat, m: nat, seed: Matrix, k: nat)
    requires IsMatrix(D, n, m) && NonNegativeMatrix(D) && n > 0 && m > 0
    requires IsMatrix(seed, n, m) && PositiveMatrix(seed) && k > 0
    ensures GravityMargins(D, n, m).Ok?
    ensures var margins := GravityMargins(D, n, m).value;
            Iterate(Stepper(margins.1, margins.0), seed, k).Ok?
            && ColSums(Iterate(Stepper(margins.1, margins.0), seed, k).value, m) == margins.1
  {
    MarginsPositive(D, n, m);
    var margins := GravityMargins(D, n, m).value;
    IterateNeverFails(seed, margins.1, margins.0, k);
    IterateColumnMargins(seed, margins.1, margins.0, k);
  }
}

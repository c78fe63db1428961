/** The radiation model of lib/radiation.py: the flow from zone i to zone
    j falls with the population living closer to i than j is (the
    intervening population). Distances come in as a matrix; the haversine
    that fills it is not part of this model. A division by zero, which
    numpy turns into inf or NaN, is a missing value here. */
module Radiation {
  import opened Common

  /** d is an n-by-n distance matrix for n zones. */
  predicate Square(d: seq<seq<real>>, n: nat)
  {
    |d| == n && forall i :: 0 <= i < n ==> |d[i]| == n
  }

  /** The population of zones k < n outside `skip` with row[k] <= t. */
  function Within(row: seq<real>, pop: seq<real>, t: real, skip: set<int>, n: nat): real
    requires n <= |row| && n <= |pop|
  {
    if n == 0 then 0.0
    else Within(row, pop, t, skip, n - 1) + (if row[n - 1] <= t && n - 1 !in skip then pop[n - 1] else 0.0)
  }

  /** Python's `int` of a float: the integer part, rounding toward zero. */
  function Truncate(x: real): (t: int)
    ensures x >= 0.0 ==> 0 <= t && t as real <= x < t as real + 1.0
    ensures x < 0.0 ==> t <= 0 && t as real - 1.0 < x <= t as real
  {
    if x >= 0.0 then x.Floor else -((-x).Floor)
  }

  /** What the body of `pij` computes off the diagonal: everything within
      distance d[i][j] of i, less the populations of i and of j. */
  function Intervening(d: seq<seq<real>>, pop: seq<real>, i: nat, j: nat): real
    requires Square(d, |pop|) && i < |pop| && j < |pop|
  {
    Within(d[i], pop, d[i][j], {}, |pop|) - pop[i] - pop[j]
  }

  /** The entry `p[i][j]`. `np.vectorize` without `otypes` takes its
      output type from the first call, which `np.fromfunction` makes at
      (0, 0), where `pij` returns the integer 0; so every entry is stored
      as an integer, the integer part of `Intervening`. */
  function Pij(d: seq<seq<real>>, pop: seq<real>, i: nat, j: nat): (p: real)
    requires Square(d, |pop|) && i < |pop| && j < |pop|
    ensures i == j ==> p == 0.0
    ensures i != j ==> p == Truncate(Intervening(d, pop, i, j)) as real
  {
    if i != j then Truncate(Intervening(d, pop, i, j)) as real else 0.0
  }

  /** Adding a zone to `skip` removes its population once if it lies
      within the distance. */
  lemma {:induction false} WithinSkip(row: seq<real>, pop: seq<real>, t: real, skip: set<int>, k: nat, n: nat)
    requires n <= |row| && n <= |pop| && k < n && k !in skip
    ensures Within(row, pop, t, skip, n) == Within(row, pop, t, skip + {k}, n) + (if row[k] <= t then pop[k] else 0.0)
    decreases n
  {
    if k < n - 1 {
      WithinSkip(row, pop, t, skip, k, n - 1);
    } else {
      WithinSame(row, pop, t, skip, skip + {k}, n - 1);
    }
  }

  /** Zones at or beyond n do not matter to the sum. */
  lemma {:induction false} WithinSame(row: seq<real>, pop: seq<real>, t: real, a: set<int>, b: set<int>, n: nat)
    requires n <= |row| && n <= |pop|
    requires forall k :: 0 <= k < n ==> (k in a <==> k in b)
    ensures Within(row, pop, t, a, n) == Within(row, pop, t, b, n)
    decreases n
  {
    if n > 0 {
      WithinSame(row, pop, t, a, b, n - 1);
    }
  }

  /** Off the diagonal, when a zone is no farther from itself than from j
      (true when d[i][i] = 0 and distances are non-negative), pij is the
      integer part of the population of the other zones no farther from i
      than j is. */
  lemma {:induction false} PijIsIntervening(d: seq<seq<real>>, pop: seq<real>, i: nat, j: nat)
    requires Square(d, |pop|) && i < |pop| && j < |pop| && i != j
    requires d[i][i] <= d[i][j]
    ensures Intervening(d, pop, i, j) == Within(d[i], pop, d[i][j], {i, j}, |pop|)
    ensures Pij(d, pop, i, j) == Truncate(Within(d[i], pop, d[i][j], {i, j}, |pop|)) as real
  {
    WithinSkip(d[i], pop, d[i][j], {}, i, |pop|);
    WithinSkip(d[i], pop, d[i][j], {i}, j, |pop|);
    assert {i} + {j} == {i, j};
    assert {} + {i} == {i};
  }

  /** With non-negative populations the intervening population is never
      negative. */
  lemma {:induction false} PijNonNegative(d: seq<seq<real>>, pop: seq<real>, i: nat, j: nat)
    requires Square(d, |pop|) && i < |pop| && j < |pop|
    requires d[i][i] == 0.0 && AllNonNegative(d[i]) && AllNonNegative(pop)
    ensures Pij(d, pop, i, j) >= 0.0
  {
    if i != j {
      PijIsIntervening(d, pop, i, j);
      WithinNonNegative(d[i], pop, d[i][j], {i, j}, |pop|);
    }
  }

  /** Three zones of population 0.5 on a line, one apart: half a person
      lies between zones 0 and 2, and the integer entry drops it, so the
      flow from 0 to 2 is 375 rather than the 125 of the exact value. */
  lemma {:induction false} FractionalPopulationTruncated()
    ensures var d := [[0.0, 1.0, 2.0], [1.0, 0.0, 1.0], [2.0, 1.0, 0.0]];
      var pop := [0.5, 0.5, 0.5];
      && Intervening(d, pop, 0, 2) == 0.5
      && Pij(d, pop, 0, 2) == 0.0
      && Flows(d, pop)[0][2] == Some(375.0)
      && FlowValue(0.5, 0.5, 1.5, Intervening(d, pop, 0, 2)) == Some(125.0)
  {
    var d := [[0.0, 1.0, 2.0], [1.0, 0.0, 1.0], [2.0, 1.0, 0.0]];
    var pop := [0.5, 0.5, 0.5];
    assert Within(d[0], pop, 2.0, {}, 3) == 1.5;
    assert pop[..2][..1] == [0.5] && pop[..1] == [0.5];
    assert Sum([0.5]) == 0.5;
    assert Sum(pop[..2]) == 1.0;
    assert Sum(pop) == 1.5;
  }

  lemma {:induction false} WithinNonNegative(row: seq<real>, pop: seq<real>, t: real, skip: set<int>, n: nat)
    requires n <= |row| && n <= |pop| && AllNonNegative(pop)
    ensures Within(row, pop, t, skip, n) >= 0.0
    decreases n
  {
    if n > 0 {
      WithinNonNegative(row, pop, t, skip, n - 1);
    }
  }

  /** Line 89 for one pair: the source's population times 1000 over one
      minus its share of the total, times popI * popJ over
      (s + popJ + popI) * (s + popI), where s is the intervening
      population. A zero divisor gives no value. */
  function FlowValue(popI: real, popJ: real, total: real, s: real): (f: Option<real>)
    ensures f.Some? <==> total != 0.0 && 1.0 - popI / total != 0.0 && Denominator(popI, popJ, s) != 0.0
    ensures f.Some? ==> f.value == Numerator(popI, popJ, total) / Denominator(popI, popJ, s)
  {
    if total == 0.0 then None
    else
      var share := popI / total;
      if 1.0 - share == 0.0 then None
      else
        var den := (s + popJ + popI) * (s + popI);
        if den == 0.0 then None
        else Some(popI * 1000.0 / (1.0 - share) * (popI * popJ) / den)
  }

  /** The numerator of the flow, which does not depend on s. */
  function Numerator(popI: real, popJ: real, total: real): real
    requires total != 0.0 && 1.0 - popI / total != 0.0
  {
    popI * 1000.0 / (1.0 - popI / total) * (popI * popJ)
  }

  /** The denominator of the flow. */
  function Denominator(popI: real, popJ: real, s: real): real
  {
    (s + popJ + popI) * (s + popI)
  }

  /** `radiation`: the n-by-n flow matrix. */
  function Flows(d: seq<seq<real>>, pop: seq<real>): (f: seq<seq<Option<real>>>)
    requires Square(d, |pop|)
    ensures |f| == |pop| && forall i :: 0 <= i < |f| ==> |f[i]| == |pop|
    ensures forall i, j :: 0 <= i < |pop| && 0 <= j < |pop| ==> f[i][j] == FlowValue(pop[i], pop[j], Sum(pop), Pij(d, pop, i, j))
  {
    seq(|pop|, i requires 0 <= i < |pop| =>
      seq(|pop|, j requires 0 <= j < |pop| => FlowValue(pop[i], pop[j], Sum(pop), Pij(d, pop, i, j))))
  }

  /** With positive populations, at least two zones and a proper distance
      matrix, every flow is defined and positive, the diagonal included. */
  lemma {:induction false} FlowsPositive(d: seq<seq<real>>, pop: seq<real>, i: nat, j: nat)
    requires Square(d, |pop|) && |pop| >= 2 && i < |pop| && j < |pop|
    requires d[i][i] == 0.0 && AllNonNegative(d[i]) && AllPositive(pop)
    ensures Flows(d, pop)[i][j].Some? && Flows(d, pop)[i][j].value > 0.0
  {
    var total := Sum(pop);
    var other := if i == 0 then 1 else 0;
    SumAboveEntry(pop, i, other);
    PijNonNegative(d, pop, i, j);
    FlowValuePositive(pop[i], pop[j], total, Pij(d, pop, i, j));
  }

  /** A positive sequence sums to more than any one of its entries. */
  lemma {:induction false} SumAboveEntry(s: seq<real>, i: nat, k: nat)
    requires AllPositive(s) && i < |s| && k < |s| && i != k
    ensures Sum(s) > s[i]
    decreases |s|
  {
    var init := s[..|s| - 1];
    assert AllPositive(init);
    if i == |s| - 1 {
      SumPositive(init);
    } else if k == |s| - 1 {
      SumNonNegative(init);
      SumEntryBound(init, i);
    } else {
      SumAboveEntry(init, i, k);
    }
  }

  lemma {:induction false} SumEntryBound(s: seq<real>, i: nat)
    requires AllNonNegative(s) && i < |s|
    ensures Sum(s) >= s[i]
    decreases |s|
  {
    var init := s[..|s| - 1];
    assert AllNonNegative(init);
    if i == |s| - 1 {
      SumNonNegative(init);
    } else {
      SumEntryBound(init, i);
    }
  }

  lemma {:induction false} FlowValuePositive(popI: real, popJ: real, total: real, s: real)
    requires popI > 0.0 && popJ > 0.0 && total > popI && s >= 0.0
    ensures FlowValue(popI, popJ, total, s).Some? && FlowValue(popI, popJ, total, s).value > 0.0
  {
    NumeratorPositive(popI, popJ, total);
    ProductPositive(s + popJ + popI, s + popI);
    DivPositive(Numerator(popI, popJ, total), Denominator(popI, popJ, s));
  }

  lemma {:induction false} NumeratorPositive(popI: real, popJ: real, total: real)
    requires popI > 0.0 && popJ > 0.0 && total > popI
    ensures 1.0 - popI / total > 0.0 && Numerator(popI, popJ, total) > 0.0
  {
    ShareBelowOne(popI, total);
    DivPositive(popI * 1000.0, 1.0 - popI / total);
    ProductPositive(popI, popJ);
    ProductPositive(popI * 1000.0 / (1.0 - popI / total), popI * popJ);
  }

  lemma {:induction false} ShareBelowOne(x: real, total: real)
    requires 0.0 < x < total
    ensures 0.0 < x / total < 1.0
  {
    var q := x / total;
    assert q * total == x;
    assert (1.0 - q) * total == total - x;
    StrictSignOfFactor(q, total);
    StrictSignOfFactor(1.0 - q, total);
  }

  /** A positive product with a positive factor has a positive other
      factor. */
  lemma {:induction false} StrictSignOfFactor(a: real, t: real)
    requires 0.0 < t
    ensures a * t > 0.0 ==> a > 0.0
  {
  }

  /** The more population lies between two zones, the smaller the flow
      between them. */
  lemma {:induction false} FlowFallsWithIntervening(popI: real, popJ: real, total: real, s1: real, s2: real)
    requires popI > 0.0 && popJ > 0.0 && total > popI && 0.0 <= s1 <= s2
    ensures FlowValue(popI, popJ, total, s1).Some? && FlowValue(popI, popJ, total, s2).Some?
    ensures FlowValue(popI, popJ, total, s1).value >= FlowValue(popI, popJ, total, s2).value
  {
    NumeratorPositive(popI, popJ, total);
    DenominatorGrows(popI, popJ, s1, s2);
    DivAntitone(Numerator(popI, popJ, total), Denominator(popI, popJ, s1), Denominator(popI, popJ, s2));
  }

  lemma {:induction false} DenominatorGrows(popI: real, popJ: real, s1: real, s2: real)
    requires popI > 0.0 && popJ > 0.0 && 0.0 <= s1 <= s2
    ensures 0.0 < Denominator(popI, popJ, s1) <= Denominator(popI, popJ, s2)
  {
    MulMonotone(s1 + popJ + popI, s2 + popJ + popI, s1 + popI, s2 + popI);
    assert Denominator(popI, popJ, s1) == (s1 + popJ + popI) * (s1 + popI);
    assert Denominator(popI, popJ, s2) == (s2 + popJ + popI) * (s2 + popI);
  }

  lemma {:induction false} MulMonotone(a1: real, a2: real, b1: real, b2: real)
    requires 0.0 < a1 <= a2 && 0.0 < b1 <= b2
    ensures 0.0 < a1 * b1 <= a2 * b2
  {
    assert a1 * b1 <= a2 * b1;
    assert a2 * b1 <= a2 * b2;
  }

  lemma {:induction false} DivAntitone(c: real, x: real, y: real)
    requires c > 0.0 && 0.0 < x <= y
    ensures c / x >= c / y
  {
    assert c / x * x == c;
    assert c / y * y == c;
    DivPositive(c, y);
    MulWeak(x, y, c / y);
    MulCancel(c / y, c / x, x);
  }

  lemma {:induction false} MulCancel(a: real, b: real, x: real)
    requires x > 0.0 && a * x <= b * x
    ensures a <= b
  {
    assert (b - a) * x == b * x - a * x;
    SignOfFactor(b - a, x);
  }
}

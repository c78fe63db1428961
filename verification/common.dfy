/** Shared vocabulary of the model: failure-carrying results, sums of real
    masses, normalisation and a stable ordering of integer keys. */
module Common {

  /** A value that may be absent (a pandas NaN, a Go nil). */
  datatype Option<T> = None | Some(value: T)

  /** The outcome of an operation that the source can abort with an
      exception, a panic or an error return. */
  datatype Result<T> = Ok(value: T) | Err(msg: string)

  /** Sum of a sequence of real masses, folded from the left as numpy does. */
  function Sum(s: seq<real>): real
  {
    if |s| == 0 then 0.0 else Sum(s[..|s| - 1]) + s[|s| - 1]
  }

  /** Sum of a sequence of integer counts. */
  function SumInts(s: seq<int>): int
  {
    if |s| == 0 then 0 else SumInts(s[..|s| - 1]) + s[|s| - 1]
  }

  predicate AllNonNegative(s: seq<real>)
  {
    forall i :: 0 <= i < |s| ==> s[i] >= 0.0
  }

  predicate AllPositive(s: seq<real>)
  {
    forall i :: 0 <= i < |s| ==> s[i] > 0.0
  }

  lemma {:induction false} SumConcat(a: seq<real>, b: seq<real>)
    ensures Sum(a + b) == Sum(a) + Sum(b)
    decreases |b|
  {
    if |b| == 0 {
      assert a + b == a;
    } else {
      assert (a + b)[..|a + b| - 1] == a + b[..|b| - 1];
      SumConcat(a, b[..|b| - 1]);
    }
  }

  lemma {:induction false} SumIntsConcat(a: seq<int>, b: seq<int>)
    ensures SumInts(a + b) == SumInts(a) + SumInts(b)
    decreases |b|
  {
    if |b| == 0 {
      assert a + b == a;
    } else {
      assert (a + b)[..|a + b| - 1] == a + b[..|b| - 1];
      SumIntsConcat(a, b[..|b| - 1]);
    }
  }

  lemma SumSingleton(x: real)
    ensures Sum([x]) == x
  {
    assert [x][..0] == [];
  }

  /** Splitting off the first element, the other direction of the fold. */
  lemma SumCons(x: real, s: seq<real>)
    ensures Sum([x] + s) == x + Sum(s)
  {
    SumConcat([x], s);
    SumSingleton(x);
  }

  lemma {:induction false} SumNonNegative(s: seq<real>)
    requires AllNonNegative(s)
    ensures Sum(s) >= 0.0
    decreases |s|
  {
    if |s| > 0 {
      SumNonNegative(s[..|s| - 1]);
    }
  }

  lemma {:induction false} SumPositive(s: seq<real>)
    requires |s| > 0 && AllPositive(s)
    ensures Sum(s) > 0.0
    decreases |s|
  {
    if |s| > 1 {
      SumPositive(s[..|s| - 1]);
    }
  }

  /** A sum of non-negative masses is zero only when every mass is zero. */
  lemma {:induction false} SumZeroIffAllZero(s: seq<real>)
    requires AllNonNegative(s)
    ensures Sum(s) == 0.0 <==> forall i :: 0 <= i < |s| ==> s[i] == 0.0
    decreases |s|
  {
    if |s| > 0 {
      var init := s[..|s| - 1];
      SumZeroIffAllZero(init);
      SumNonNegative(init);
      if Sum(s) == 0.0 {
        forall i | 0 <= i < |s| ensures s[i] == 0.0 {
          if i < |s| - 1 { assert s[i] == init[i]; }
        }
      }
      if forall i :: 0 <= i < |s| ==> s[i] == 0.0 {
        assert forall i :: 0 <= i < |init| ==> init[i] == 0.0 by {
          forall i | 0 <= i < |init| ensures init[i] == 0.0 { assert init[i] == s[i]; }
        }
      }
    }
  }

  /** Every element scaled by the same factor. */
  function Scale(s: seq<real>, c: real): (r: seq<real>)
    ensures |r| == |s|
    ensures forall i :: 0 <= i < |s| ==> r[i] == s[i] * c
  {
    seq(|s|, i requires 0 <= i < |s| => s[i] * c)
  }

  lemma {:induction false} SumScale(s: seq<real>, c: real)
    ensures Sum(Scale(s, c)) == Sum(s) * c
    decreases |s|
  {
    if |s| > 0 {
      var init := s[..|s| - 1];
      var r := Scale(s, c);
      assert r[..|s| - 1] == Scale(init, c) by {
        forall i | 0 <= i < |s| - 1 ensures r[..|s| - 1][i] == Scale(init, c)[i] {
          assert init[i] == s[i];
        }
      }
      SumScale(init, c);
      calc {
        Sum(r);
        Sum(r[..|s| - 1]) + r[|s| - 1];
        Sum(init) * c + s[|s| - 1] * c;
        (Sum(init) + s[|s| - 1]) * c;
        Sum(s) * c;
      }
    }
  }

  /** Element-wise sum of two equally long sequences. */
  lemma {:induction false} SumPointwiseAdd(a: seq<real>, b: seq<real>, r: seq<real>)
    requires |a| == |b| == |r|
    requires forall i :: 0 <= i < |r| ==> r[i] == a[i] + b[i]
    ensures Sum(r) == Sum(a) + Sum(b)
    decreases |r|
  {
    if |r| > 0 {
      SumPointwiseAdd(a[..|a| - 1], b[..|b| - 1], r[..|r| - 1]);
    }
  }

  /** Two sequences that agree element-wise have the same sum. */
  lemma {:induction false} SumPointwiseEqual(a: seq<real>, b: seq<real>)
    requires |a| == |b|
    requires forall i :: 0 <= i < |a| ==> a[i] == b[i]
    ensures Sum(a) == Sum(b)
  {
    assert a == b;
  }

  /** Division of every mass by the total, the pandas `x / x.sum()` idiom. */
  function Normalize(s: seq<real>): (r: seq<real>)
    requires Sum(s) != 0.0
    ensures |r| == |s|
    ensures Sum(r) == 1.0
    ensures forall i :: 0 <= i < |s| ==> r[i] * Sum(s) == s[i]
  {
    var r := Scale(s, 1.0 / Sum(s));
    SumScale(s, 1.0 / Sum(s));
    r
  }

  /** Normalising keeps the zero masses zero. */
  lemma {:induction false} NormalizeKeepsZeros(s: seq<real>)
    requires Sum(s) != 0.0
    ensures forall i :: 0 <= i < |s| && s[i] == 0.0 ==> Normalize(s)[i] == 0.0
  {
    var r := Normalize(s);
    forall i | 0 <= i < |s| && s[i] == 0.0
      ensures r[i] == 0.0
    {
      assert r[i] * Sum(s) == 0.0;
    }
  }

  /** Number of elements of `s` equal to `x`. */
  function Count<T(==)>(s: seq<T>, x: T): nat
  {
    if |s| == 0 then 0 else Count(s[..|s| - 1], x) + (if s[|s| - 1] == x then 1 else 0)
  }

  lemma {:induction false} CountConcat<T>(a: seq<T>, b: seq<T>, x: T)
    ensures Count(a + b, x) == Count(a, x) + Count(b, x)
    decreases |b|
  {
    if |b| == 0 {
      assert a + b == a;
    } else {
      assert (a + b)[..|a + b| - 1] == a + b[..|b| - 1];
      CountConcat(a, b[..|b| - 1], x);
    }
  }

  lemma {:induction false} CountPositiveIffIn<T>(s: seq<T>, x: T)
    ensures Count(s, x) > 0 <==> x in s
    decreases |s|
  {
    if |s| > 0 {
      CountPositiveIffIn(s[..|s| - 1], x);
      assert s == s[..|s| - 1] + [s[|s| - 1]];
    }
  }

  /** No two positions hold the same element. */
  predicate Distinct<T(==)>(s: seq<T>)
  {
    forall i, j :: 0 <= i < j < |s| ==> s[i] != s[j]
  }

  /** A sequence without repeats holds each of its elements once. */
  lemma {:induction false} CountDistinctMember<T>(s: seq<T>, x: T)
    requires Distinct(s) && x in s
    ensures Count(s, x) == 1
    decreases |s|
  {
    var init := s[..|s| - 1];
    if s[|s| - 1] == x {
      forall i | 0 <= i < |init| ensures init[i] != x {
        assert s[i] != s[|s| - 1];
      }
      CountPositiveIffIn(init, x);
    } else {
      assert x in init by {
        var i :| 0 <= i < |s| && s[i] == x;
        assert init[i] == x;
      }
      CountDistinctMember(init, x);
    }
  }

  /** Strictly increasing integer keys: what a pandas groupby index looks like. */
  predicate StrictlyIncreasing(s: seq<int>)
  {
    forall i, j :: 0 <= i < j < |s| ==> s[i] < s[j]
  }

  /** The distinct values of `s` in ascending order (the index of a groupby). */
  function SortedDistinct(s: seq<int>): (r: seq<int>)
    ensures StrictlyIncreasing(r)
    ensures forall x :: x in r <==> x in s
  {
    if |s| == 0 then [] else InsertSorted(SortedDistinct(s[..|s| - 1]), s[|s| - 1])
  }

  /** Inserts `x` into a strictly increasing sequence unless already present. */
  function InsertSorted(r: seq<int>, x: int): (out: seq<int>)
    requires StrictlyIncreasing(r)
    ensures StrictlyIncreasing(out)
    ensures forall y :: y in out <==> y in r || y == x
  {
    if |r| == 0 then [x]
    else if x < r[0] then
      PrependIncreasing(x, r);
      [x] + r
    else if x == r[0] then r
    else
      var rest := InsertSorted(r[1..], x);
      PrependIncreasing(r[0], rest);
      [r[0]] + rest
  }

  /** A key below every key of an increasing sequence can be put in front. */
  lemma {:induction false} PrependIncreasing(x: int, s: seq<int>)
    requires StrictlyIncreasing(s)
    requires forall y :: y in s ==> x < y
    ensures StrictlyIncreasing([x] + s)
  {
    var q := [x] + s;
    forall i, j | 0 <= i < j < |q| ensures q[i] < q[j] {
      assert q[j] == s[j - 1] && q[j] in s;
      if i > 0 { assert q[i] == s[i - 1]; }
    }
  }

  /** Distinct elements of `s` in order of first appearance. */
  function FirstAppearances<T(==,!new)>(s: seq<T>): (r: seq<T>)
    ensures forall x :: x in r <==> x in s
    ensures Distinct(r)
  {
    if |s| == 0 then []
    else
      var prior := FirstAppearances(s[..|s| - 1]);
      if s[|s| - 1] in prior then prior else prior + [s[|s| - 1]]
  }

  /** The elements satisfying `keep`, in their original order: a boolean
      mask applied to a frame. */
  function Filter<T(!new)>(s: seq<T>, keep: T -> bool): (r: seq<T>)
    ensures |r| <= |s|
    ensures forall x :: x in r <==> x in s && keep(x)
    decreases |s|
  {
    if |s| == 0 then []
    else Filter(s[..|s| - 1], keep) + (if keep(s[|s| - 1]) then [s[|s| - 1]] else [])
  }

  /** Filtering a concatenation filters each part. */
  lemma {:induction false} FilterConcat<T(!new)>(a: seq<T>, b: seq<T>, keep: T -> bool)
    ensures Filter(a + b, keep) == Filter(a, keep) + Filter(b, keep)
    decreases |b|
  {
    if |b| == 0 {
      assert a + b == a;
    } else {
      assert (a + b)[..|a + b| - 1] == a + b[..|b| - 1];
      FilterConcat(a, b[..|b| - 1], keep);
    }
  }

  /** Filtering with a mask every element passes keeps everything. */
  lemma {:induction false} FilterKeepsAll<T(!new)>(s: seq<T>, keep: T -> bool)
    requires forall x :: x in s ==> keep(x)
    ensures Filter(s, keep) == s
    decreases |s|
  {
    if |s| > 0 {
      FilterKeepsAll(s[..|s| - 1], keep);
      assert s[..|s| - 1] + [s[|s| - 1]] == s;
    }
  }

  /** No element passes a mask that rejects every element. */
  lemma {:induction false} FilterNone<T(!new)>(s: seq<T>, keep: T -> bool)
    requires forall x :: x in s ==> !keep(x)
    ensures Filter(s, keep) == []
    decreases |s|
  {
    if |s| > 0 {
      FilterNone(s[..|s| - 1], keep);
      assert s[|s| - 1] in s;
    }
  }

  /** Two masks that agree everywhere filter alike. */
  lemma {:induction false} FilterSameMask<T(!new)>(s: seq<T>, f: T -> bool, g: T -> bool)
    requires forall x :: f(x) == g(x)
    ensures Filter(s, f) == Filter(s, g)
    decreases |s|
  {
    if |s| > 0 {
      FilterSameMask(s[..|s| - 1], f, g);
    }
  }

  /** The concatenation of a sequence of sequences. */
  function Concat<T>(ss: seq<seq<T>>): seq<T>
  {
    if |ss| == 0 then [] else Concat(ss[..|ss| - 1]) + ss[|ss| - 1]
  }

  // Facts about real multiplication and division the solver needs spelled
  // out.

  lemma {:induction false} ProductPositive(x: real, y: real)
    requires x > 0.0 && y > 0.0
    ensures x * y > 0.0
  {
  }

  lemma {:induction false} MulStrict(a: real, b: real, n: real)
    requires n > 0.0 && a > b
    ensures a * n > b * n
  {
  }

  lemma {:induction false} MulWeak(a: real, b: real, n: real)
    requires n > 0.0 && a <= b
    ensures a * n <= b * n
  {
  }

  lemma {:induction false} DivPositive(n: real, d: real)
    requires n > 0.0 && d > 0.0
    ensures n / d > 0.0
  {
    var q := n / d;
    assert q * d == n;
    if q <= 0.0 {
      MulWeak(q, 0.0, d);
    }
  }

  /** `float64(count) / float64(total)`; a zero total gives Go's NaN or
      infinity, here None. */
  function Share(count: nat, total: nat): (p: Option<real>)
    ensures p.None? <==> total == 0
    ensures p.Some? ==> p.value * (total as real) == count as real
  {
    if total == 0 then None else Some(count as real / total as real)
  }

  /** The share of a count no larger than its total lies in [0, 1]. */
  lemma {:induction false} ShareWithin(count: nat, total: nat)
    requires count <= total
    ensures Share(count, total).Some? ==> 0.0 <= Share(count, total).value <= 1.0
  {
    if total > 0 {
      DivUnit(count as real, total as real);
    }
  }

  /** A quotient of a part by its positive whole lies in [0, 1]. */
  lemma {:induction false} DivUnit(c: real, t: real)
    requires 0.0 <= c <= t && 0.0 < t
    ensures 0.0 <= c / t <= 1.0
  {
    var v := c / t;
    assert v * t == c;
    SignOfFactor(v, t);
    SignOfFactor(1.0 - v, t);
  }

  /** A product with a positive factor has the sign of the other. */
  lemma {:induction false} SignOfFactor(a: real, t: real)
    requires 0.0 < t
    ensures a * t >= 0.0 ==> a >= 0.0
  {
  }

}

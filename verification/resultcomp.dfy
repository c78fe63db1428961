/** `string_range` of src/py/resultcomp.py and lib/resultcomp.py: the
    result directories from the first one named like `start`, each range
    closing after a directory named like `end`. The library version also
    keeps every 'baseline' directory. */
module ResultComp {
  import opened Common

  /** Python's `s.startswith(p)`. */
  predicate HasPrefix(s: string, p: string)
  {
    |p| <= |s| && s[..|p|] == p
  }

  /** The string closes the range. */
  predicate Closes(s: string, end: Option<string>)
  {
    end.Some? && HasPrefix(s, end.value)
  }

  /** A range is open after the first n strings: some string before n
      opened it and none from there up to n closed it. */
  predicate OpenAfter(ss: seq<string>, start: string, end: Option<string>, n: nat)
    requires n <= |ss|
  {
    exists m :: 0 <= m < n && HasPrefix(ss[m], start) && forall l :: m <= l < n ==> !Closes(ss[l], end)
  }

  /** String i is inside a range: it opens one, or one is open before it. */
  predicate InRange(ss: seq<string>, start: string, end: Option<string>, i: nat)
    requires i < |ss|
  {
    exists m :: 0 <= m <= i && HasPrefix(ss[m], start) && forall l :: m <= l < i ==> !Closes(ss[l], end)
  }

  lemma {:induction false} InRangeIff(ss: seq<string>, start: string, end: Option<string>, i: nat)
    requires i < |ss|
    ensures InRange(ss, start, end, i) <==> OpenAfter(ss, start, end, i) || HasPrefix(ss[i], start)
  {
    if OpenAfter(ss, start, end, i) {
      var m :| 0 <= m < i && HasPrefix(ss[m], start) && forall l :: m <= l < i ==> !Closes(ss[l], end);
      assert 0 <= m <= i;
    }
    if InRange(ss, start, end, i) && !HasPrefix(ss[i], start) {
      var m :| 0 <= m <= i && HasPrefix(ss[m], start) && forall l :: m <= l < i ==> !Closes(ss[l], end);
      assert m < i;
    }
  }

  /** After string i the range is open exactly when string i was inside
      one and did not close it. */
  lemma {:induction false} OpenStep(ss: seq<string>, start: string, end: Option<string>, i: nat)
    requires i < |ss|
    ensures OpenAfter(ss, start, end, i + 1) <==> InRange(ss, start, end, i) && !Closes(ss[i], end)
  {
    if InRange(ss, start, end, i) && !Closes(ss[i], end) {
      var m :| 0 <= m <= i && HasPrefix(ss[m], start) && forall l :: m <= l < i ==> !Closes(ss[l], end);
      assert forall l :: m <= l < i + 1 ==> !Closes(ss[l], end);
    }
    if OpenAfter(ss, start, end, i + 1) {
      var m :| 0 <= m < i + 1 && HasPrefix(ss[m], start) && forall l :: m <= l < i + 1 ==> !Closes(ss[l], end);
      assert !Closes(ss[i], end);
    }
  }

  /** The strings inside a range among the first n, in input order. */
  function Ranged(ss: seq<string>, start: string, end: Option<string>, n: nat): seq<string>
    requires n <= |ss|
  {
    if n == 0 then [] else Ranged(ss, start, end, n - 1) + (if InRange(ss, start, end, n - 1) then [ss[n - 1]] else [])
  }

  /** The same with every 'baseline' string added before its own entry. */
  function RangedWithBaseline(ss: seq<string>, start: string, end: Option<string>, n: nat): seq<string>
    requires n <= |ss|
  {
    if n == 0 then []
    else
      RangedWithBaseline(ss, start, end, n - 1)
      + (if HasPrefix(ss[n - 1], "baseline") then [ss[n - 1]] else [])
      + (if InRange(ss, start, end, n - 1) then [ss[n - 1]] else [])
  }

  /** src/py/resultcomp.py `string_range`. A missing `start` makes the
      first `startswith` fail. */
  method StringRange(ss: seq<string>, start: Option<string>, end: Option<string>) returns (r: Result<seq<string>>)
    ensures r.Err? <==> start.None? && |ss| > 0
    ensures r.Ok? && start.Some? ==> r.value == Ranged(ss, start.value, end, |ss|)
    ensures r.Ok? && start.None? ==> r.value == []
  {
    if |ss| == 0 {
      return Ok([]);
    }
    if start.None? {
      return Err("startswith first arg must be str or a tuple of str, not NoneType");
    }
    var keep: seq<string> := [];
    var open := false;
    var i := 0;
    while i < |ss|
      invariant 0 <= i <= |ss|
      invariant open <==> OpenAfter(ss, start.value, end, i)
      invariant keep == Ranged(ss, start.value, end, i)
    {
      InRangeIff(ss, start.value, end, i);
      OpenStep(ss, start.value, end, i);
      if HasPrefix(ss[i], start.value) {
        open := true;
      }
      if open {
        keep := keep + [ss[i]];
      }
      if end.Some? && HasPrefix(ss[i], end.value) {
        open := false;
      }
      i := i + 1;
    }
    return Ok(keep);
  }

  /** lib/resultcomp.py `string_range`: the same, with every 'baseline'
      string appended as it is met. */
  method StringRangeWithBaseline(ss: seq<string>, start: Option<string>, end: Option<string>) returns (r: Result<seq<string>>)
    ensures r.Err? <==> start.None? && |ss| > 0
    ensures r.Ok? && start.Some? ==> r.value == RangedWithBaseline(ss, start.value, end, |ss|)
    ensures r.Ok? && start.None? ==> r.value == []
  {
    if |ss| == 0 {
      return Ok([]);
    }
    if start.None? {
      return Err("startswith first arg must be str or a tuple of str, not NoneType");
    }
    var keep: seq<string> := [];
    var open := false;
    var i := 0;
    while i < |ss|
      invariant 0 <= i <= |ss|
      invariant open <==> OpenAfter(ss, start.value, end, i)
      invariant keep == RangedWithBaseline(ss, start.value, end, i)
    {
      InRangeIff(ss, start.value, end, i);
      OpenStep(ss, start.value, end, i);
      if HasPrefix(ss[i], "baseline") {
        keep := keep + [ss[i]];
      }
      if HasPrefix(ss[i], start.value) {
        open := true;
      }
      if open {
        keep := keep + [ss[i]];
      }
      if end.Some? && HasPrefix(ss[i], end.value) {
        open := false;
      }
      i := i + 1;
    }
    return Ok(keep);
  }

  // Properties of the ranges

  /** Every kept string comes from the input, and no more than once per
      input position. */
  lemma {:induction false} RangedFromInput(ss: seq<string>, start: string, end: Option<string>, n: nat)
    requires n <= |ss|
    ensures |Ranged(ss, start, end, n)| <= n
    ensures forall x :: x in Ranged(ss, start, end, n) ==> x in ss[..n]
    decreases n
  {
    if n > 0 {
      RangedFromInput(ss, start, end, n - 1);
      assert ss[..n] == ss[..n - 1] + [ss[n - 1]];
    }
  }

  /** With no string before n opening a range, nothing before n is kept;
      in particular no match at all keeps nothing. */
  lemma {:induction false} NothingBeforeStart(ss: seq<string>, start: string, end: Option<string>, n: nat)
    requires n <= |ss| && forall m :: 0 <= m < n ==> !HasPrefix(ss[m], start)
    ensures Ranged(ss, start, end, n) == []
    decreases n
  {
    if n > 0 {
      NothingBeforeStart(ss, start, end, n - 1);
      assert !InRange(ss, start, end, n - 1);
    }
  }

  /** A string that closes an open range is kept itself, and the string
      after it is dropped unless it opens a new range. */
  lemma {:induction false} EndClosesRange(ss: seq<string>, start: string, end: Option<string>, i: nat)
    requires i + 1 < |ss| && InRange(ss, start, end, i) && Closes(ss[i], end)
    ensures Ranged(ss, start, end, i + 1) == Ranged(ss, start, end, i) + [ss[i]]
    ensures InRange(ss, start, end, i + 1) <==> HasPrefix(ss[i + 1], start)
  {
    OpenStep(ss, start, end, i);
    InRangeIff(ss, start, end, i + 1);
  }

  /** Without `end` the result is the whole suffix from the first string
      that opens a range. */
  lemma {:induction false} NoEndKeepsSuffix(ss: seq<string>, start: string, f: nat, n: nat)
    requires f <= n <= |ss| && f < |ss| && HasPrefix(ss[f], start)
    requires forall m :: 0 <= m < f ==> !HasPrefix(ss[m], start)
    ensures Ranged(ss, start, None, n) == ss[f..n]
    decreases n
  {
    if n == f {
      NothingBeforeStart(ss, start, None, f);
    } else {
      NoEndKeepsSuffix(ss, start, f, n - 1);
      assert InRange(ss, start, None, n - 1) by {
        assert forall l :: f <= l < n - 1 ==> !Closes(ss[l], None);
      }
      assert ss[f..n] == ss[f..n - 1] + [ss[n - 1]];
    }
  }

  /** Every 'baseline' string is kept by the library version, inside a
      range or not. */
  lemma {:induction false} BaselineKept(ss: seq<string>, start: string, end: Option<string>, i: nat, n: nat)
    requires i < n <= |ss| && HasPrefix(ss[i], "baseline")
    ensures ss[i] in RangedWithBaseline(ss, start, end, n)
    decreases n
  {
    if i < n - 1 {
      BaselineKept(ss, start, end, i, n - 1);
    }
  }

  /** Inside a range a 'baseline' string is appended twice. */
  lemma {:induction false} BaselineInRangeTwice(ss: seq<string>, start: string, end: Option<string>, i: nat)
    requires i < |ss| && HasPrefix(ss[i], "baseline") && InRange(ss, start, end, i)
    ensures Count(RangedWithBaseline(ss, start, end, i + 1), ss[i]) >= 2
  {
    var before := RangedWithBaseline(ss, start, end, i);
    CountConcat(before, [ss[i]] + [ss[i]], ss[i]);
    var x := ss[i];
    assert Count([x] + [x], x) == 2 by {
      assert [x][..0] == [];
      assert Count([x], x) == 1;
      assert ([x] + [x])[..1] == [x];
    }
    assert RangedWithBaseline(ss, start, end, i + 1) == before + ([ss[i]] + [ss[i]]);
  }

  /** Before the first string that opens a range, the library version
      keeps only 'baseline' strings. */
  lemma {:induction false} OnlyBaselineBeforeStart(ss: seq<string>, start: string, end: Option<string>, n: nat)
    requires n <= |ss| && forall m :: 0 <= m < n ==> !HasPrefix(ss[m], start)
    ensures forall x :: x in RangedWithBaseline(ss, start, end, n) ==> HasPrefix(x, "baseline")
    decreases n
  {
    if n > 0 {
      OnlyBaselineBeforeStart(ss, start, end, n - 1);
      assert !InRange(ss, start, end, n - 1);
    }
  }

  /** Dropping the 'baseline' additions from the library version leaves
      the other version's result. */
  lemma {:induction false} BaselineOnTop(ss: seq<string>, start: string, end: Option<string>, n: nat)
    requires n <= |ss| && forall k :: 0 <= k < |ss| ==> !HasPrefix(ss[k], "baseline")
    ensures RangedWithBaseline(ss, start, end, n) == Ranged(ss, start, end, n)
    decreases n
  {
    if n > 0 {
      BaselineOnTop(ss, start, end, n - 1);
    }
  }
}

/** Grouping as the Go programs do it: a map from a key to the list of
    elements with that key, appended in input order, then read out group
    by group. Go visits a map in no fixed order; here the groups come in
    the order their keys first appear, which is one of the orders Go can
    produce. */
module Grouping {
  import opened Common

  // Splitting names on a separator

  /** `strings.Split(s, sep)` for a one-character separator: the pieces
      between separators, one more than there are separators. */
  function Split(s: string, sep: char): (ps: seq<string>)
    ensures |ps| >= 1
    ensures |ps| == 1 <==> sep !in s
    ensures forall i :: 0 <= i < |ps| ==> sep !in ps[i]
    decreases |s|
  {
    if |s| == 0 then [""]
    else
      var rest := Split(s[1..], sep);
      assert sep in s <==> s[0] == sep || sep in s[1..] by {
        assert s == [s[0]] + s[1..];
      }
      if s[0] == sep then [""] + rest
      else
        var ps := [[s[0]] + rest[0]] + rest[1..];
        assert forall i :: 1 <= i < |ps| ==> ps[i] == rest[i];
        ps
  }

  /** `strings.Join(ps, sep)`. */
  function Join(ps: seq<string>, sep: char): string
    requires |ps| >= 1
    decreases |ps|
  {
    if |ps| == 1 then ps[0] else ps[0] + [sep] + Join(ps[1..], sep)
  }

  /** Joining the pieces gives back the string. */
  lemma {:induction false} SplitJoin(s: string, sep: char)
    ensures Join(Split(s, sep), sep) == s
    decreases |s|
  {
    if |s| > 0 {
      var rest := Split(s[1..], sep);
      SplitJoin(s[1..], sep);
      if s[0] == sep {
        assert ([""] + rest)[1..] == rest;
      } else {
        var ps := [[s[0]] + rest[0]] + rest[1..];
        if |rest| > 1 {
          assert ps[1..] == rest[1..];
        }
      }
    }
  }

  /** Splitting pieces joined with a separator none of them holds gives
      back the pieces. */
  lemma {:induction false} JoinSplit(ps: seq<string>, sep: char)
    requires |ps| >= 1 && forall i :: 0 <= i < |ps| ==> sep !in ps[i]
    ensures Split(Join(ps, sep), sep) == ps
    decreases |ps|
  {
    if |ps| == 1 {
      SplitNoSep(ps[0], sep);
    } else {
      JoinSplit(ps[1..], sep);
      SplitPrefix(ps[0], Join(ps[1..], sep), sep);
      assert ps == [ps[0]] + ps[1..];
    }
  }

  lemma {:induction false} SplitNoSep(a: string, sep: char)
    requires sep !in a
    ensures Split(a, sep) == [a]
    decreases |a|
  {
    if |a| > 0 {
      SplitNoSep(a[1..], sep);
      assert a == [a[0]] + a[1..];
    }
  }

  /** A piece without the separator, the separator, then the rest. */
  lemma {:induction false} SplitPrefix(a: string, t: string, sep: char)
    requires sep !in a
    ensures Split(a + [sep] + t, sep) == [a] + Split(t, sep)
    decreases |a|
  {
    var s := a + [sep] + t;
    if |a| == 0 {
      assert s[1..] == t;
    } else {
      assert s[1..] == a[1..] + [sep] + t;
      SplitPrefix(a[1..], t, sep);
      var rest := Split(s[1..], sep);
      assert rest[0] == a[1..] && rest[1..] == Split(t, sep);
      assert Split(s, sep) == [[s[0]] + rest[0]] + rest[1..];
      assert [a[0]] + a[1..] == a;
    }
  }

  /** The user id in a file name of the form "UserID_<id>_<period>.json":
      its second '_'-separated field. A name without '_' has no second
      field, and indexing it is a panic in Go. */
  function NameKey(name: string): (k: Option<string>)
    ensures k.Some? <==> '_' in name
    ensures k.Some? ==> '_' !in k.value
  {
    var parts := Split(name, '_');
    if |parts| >= 2 then Some(parts[1]) else None
  }

  /** The key of a name built from the parts is the second part. */
  lemma {:induction false} NameKeyOfParts(front: string, id: string, tail: string)
    requires '_' !in front && '_' !in id
    requires tail == "" || tail[0] == '_'
    ensures NameKey(front + "_" + id + tail) == Some(id)
  {
    assert front + "_" + id + tail == front + ['_'] + (id + tail);
    SplitPrefix(front, id + tail, '_');
    if tail == "" {
      assert id + tail == id;
      SplitNoSep(id, '_');
    } else {
      assert id + tail == id + ['_'] + tail[1..];
      SplitPrefix(id, tail[1..], '_');
    }
  }

  // Grouping by a key

  /** The elements of s with key k, in input order: one map entry's list. */
  function Members<S(!new), K(==)>(s: seq<S>, key: S -> K, k: K): (m: seq<S>)
    ensures forall x :: x in m <==> x in s && key(x) == k
    decreases |s|
  {
    if |s| == 0 then []
    else Members(s[..|s| - 1], key, k) + (if key(s[|s| - 1]) == k then [s[|s| - 1]] else [])
  }

  /** The elements of s whose key is among ks, in input order. */
  function InKeys<S, K(==)>(s: seq<S>, key: S -> K, ks: seq<K>): (m: seq<S>)
    decreases |s|
  {
    if |s| == 0 then []
    else InKeys(s[..|s| - 1], key, ks) + (if key(s[|s| - 1]) in ks then [s[|s| - 1]] else [])
  }

  /** The distinct keys of s, in order of first appearance. */
  function Keys<S(!new), K(==,!new)>(s: seq<S>, key: S -> K): (ks: seq<K>)
    ensures Distinct(ks)
    ensures forall x :: x in s ==> key(x) in ks
    ensures forall k :: k in ks ==> exists x :: x in s && key(x) == k
  {
    var mapped := seq(|s|, i requires 0 <= i < |s| => key(s[i]));
    var ks := FirstAppearances(mapped);
    assert forall x :: x in s ==> key(x) in ks by {
      forall x | x in s ensures key(x) in ks {
        var i :| 0 <= i < |s| && s[i] == x;
        assert mapped[i] == key(x);
      }
    }
    assert forall k :: k in ks ==> exists x :: x in s && key(x) == k by {
      forall k | k in ks ensures exists x :: x in s && key(x) == k {
        var i :| 0 <= i < |mapped| && mapped[i] == k;
        assert s[i] in s;
      }
    }
    ks
  }

  /** One group per key of ks. */
  function Parts<S(!new), K(==)>(s: seq<S>, key: S -> K, ks: seq<K>): (g: seq<seq<S>>)
    ensures |g| == |ks|
    ensures forall i :: 0 <= i < |ks| ==> g[i] == Members(s, key, ks[i])
  {
    seq(|ks|, i requires 0 <= i < |ks| => Members(s, key, ks[i]))
  }

  /** Go's `groups[k] = append(groups[k], x)` over the input, then the
      groups read out of the map: every group is non-empty, its elements
      share a key no other group has, and the group of every element's key
      is among them. */
  function GroupBy<S(!new), K(==,!new)>(s: seq<S>, key: S -> K): (g: seq<seq<S>>)
    ensures forall i :: 0 <= i < |g| ==> |g[i]| > 0
    ensures forall i, x :: 0 <= i < |g| && x in g[i] ==> x in s && key(x) == key(g[i][0])
    ensures forall i, j :: 0 <= i < j < |g| ==> key(g[i][0]) != key(g[j][0])
    ensures forall x :: x in s ==> Members(s, key, key(x)) in g
    ensures forall i :: 0 <= i < |g| ==> g[i] == Members(s, key, key(g[i][0]))
  {
    KeyGroups(s, key);
    Parts(s, key, Keys(s, key))
  }

  /** The groups of the keys of s, as GroupBy states them. */
  lemma {:induction false} KeyGroups<S(!new), K(!new)>(s: seq<S>, key: S -> K)
    ensures var g := Parts(s, key, Keys(s, key));
      && (forall i :: 0 <= i < |g| ==> |g[i]| > 0)
      && (forall i, x :: 0 <= i < |g| && x in g[i] ==> x in s && key(x) == key(g[i][0]))
      && (forall i, j :: 0 <= i < j < |g| ==> key(g[i][0]) != key(g[j][0]))
      && (forall x :: x in s ==> Members(s, key, key(x)) in g)
      && (forall i :: 0 <= i < |g| ==> g[i] == Members(s, key, key(g[i][0])))
  {
    var ks := Keys(s, key);
    var g := Parts(s, key, ks);
    PartsShape(s, key, ks);
    forall i | 0 <= i < |g|
      ensures key(g[i][0]) == ks[i] && g[i] == Members(s, key, key(g[i][0]))
    {
    }
    forall i, j | 0 <= i < j < |g|
      ensures key(g[i][0]) != key(g[j][0])
    {
      assert key(g[i][0]) == ks[i] && key(g[j][0]) == ks[j];
    }
  }

  /** The groups of the keys of s are non-empty, each headed by an element
      of its own key, and cover s. */
  lemma {:induction false} PartsShape<S(!new), K(!new)>(s: seq<S>, key: S -> K, ks: seq<K>)
    requires Distinct(ks)
    requires forall x :: x in s ==> key(x) in ks
    requires forall k :: k in ks ==> exists x :: x in s && key(x) == k
    ensures forall i :: 0 <= i < |ks| ==> |Parts(s, key, ks)[i]| > 0 && key(Parts(s, key, ks)[i][0]) == ks[i]
    ensures forall x :: x in s ==> exists i :: 0 <= i < |ks| && x in Parts(s, key, ks)[i]
  {
    var g := Parts(s, key, ks);
    forall i | 0 <= i < |ks| ensures |g[i]| > 0 && key(g[i][0]) == ks[i] {
      assert ks[i] in ks;
      var x :| x in s && key(x) == ks[i];
      assert x in g[i];
      assert g[i][0] in g[i];
    }
    forall x | x in s ensures exists i :: 0 <= i < |ks| && x in g[i] {
      var i :| 0 <= i < |ks| && ks[i] == key(x);
      assert x in g[i];
    }
  }

  // Nothing is lost or duplicated: any weight summed over the groups is
  // the weight of the input. With the weight 1 on one element and 0
  // elsewhere this says each element occurs as often in the groups as in
  // the input.

  /** The total weight of the elements of s. */
  function Weigh<S>(s: seq<S>, w: S -> int): int
    decreases |s|
  {
    if |s| == 0 then 0 else Weigh(s[..|s| - 1], w) + w(s[|s| - 1])
  }

  lemma {:induction false} WeighConcat<S>(a: seq<S>, b: seq<S>, w: S -> int)
    ensures Weigh(a + b, w) == Weigh(a, w) + Weigh(b, w)
    decreases |b|
  {
    if |b| == 0 {
      assert a + b == a;
    } else {
      assert (a + b)[..|a + b| - 1] == a + b[..|b| - 1];
      WeighConcat(a, b[..|b| - 1], w);
    }
  }

  /** The elements keyed among ks weigh as those keyed among all but the
      last key plus those keyed by the last key. */
  lemma {:induction false} WeighLastKey<S(!new), K>(s: seq<S>, key: S -> K, ks: seq<K>, w: S -> int)
    requires |ks| > 0 && Distinct(ks)
    ensures Weigh(InKeys(s, key, ks), w)
            == Weigh(InKeys(s, key, ks[..|ks| - 1]), w) + Weigh(Members(s, key, ks[|ks| - 1]), w)
    decreases |s|
  {
    if |s| > 0 {
      var init := s[..|s| - 1];
      var x := s[|s| - 1];
      var front := ks[..|ks| - 1];
      WeighLastKey(init, key, ks, w);
      assert InKeys(s, key, ks) == InKeys(init, key, ks) + (if key(x) in ks then [x] else []);
      assert InKeys(s, key, front) == InKeys(init, key, front) + (if key(x) in front then [x] else []);
      assert Members(s, key, ks[|ks| - 1]) == Members(init, key, ks[|ks| - 1]) + (if key(x) == ks[|ks| - 1] then [x] else []);
      WeighConcat(InKeys(init, key, ks), if key(x) in ks then [x] else [], w);
      WeighConcat(InKeys(init, key, front), if key(x) in front then [x] else [], w);
      WeighConcat(Members(init, key, ks[|ks| - 1]), if key(x) == ks[|ks| - 1] then [x] else [], w);
      assert key(x) in ks <==> key(x) in front || key(x) == ks[|ks| - 1] by {
        assert ks == front + [ks[|ks| - 1]];
      }
      if key(x) in front {
        var i :| 0 <= i < |front| && front[i] == key(x);
        assert ks[i] != ks[|ks| - 1];
      }
    }
  }

  lemma {:induction false} InKeysNone<S, K>(s: seq<S>, key: S -> K)
    ensures InKeys(s, key, []) == []
    decreases |s|
  {
    if |s| > 0 {
      InKeysNone(s[..|s| - 1], key);
    }
  }

  lemma {:induction false} InKeysAll<S, K>(s: seq<S>, key: S -> K, ks: seq<K>)
    requires forall x :: x in s ==> key(x) in ks
    ensures InKeys(s, key, ks) == s
    decreases |s|
  {
    if |s| > 0 {
      InKeysAll(s[..|s| - 1], key, ks);
      assert s[..|s| - 1] + [s[|s| - 1]] == s;
    }
  }

  /** The groups of distinct keys weigh as the elements keyed among them. */
  lemma {:induction false} WeighParts<S(!new), K>(s: seq<S>, key: S -> K, ks: seq<K>, w: S -> int)
    requires Distinct(ks)
    ensures Weigh(Concat(Parts(s, key, ks)), w) == Weigh(InKeys(s, key, ks), w)
    decreases |ks|
  {
    if |ks| == 0 {
      InKeysNone(s, key);
    } else {
      var front := ks[..|ks| - 1];
      var g := Parts(s, key, ks);
      assert g[..|g| - 1] == Parts(s, key, front);
      WeighParts(s, key, front, w);
      WeighConcat(Concat(g[..|g| - 1]), g[|g| - 1], w);
      WeighLastKey(s, key, ks, w);
    }
  }

  /** Grouping neither loses nor repeats an element. */
  lemma {:induction false} GroupWeights<S(!new), K(!new)>(s: seq<S>, key: S -> K, w: S -> int)
    ensures Weigh(Concat(GroupBy(s, key)), w) == Weigh(s, w)
  {
    var ks := Keys(s, key);
    WeighParts(s, key, ks, w);
    InKeysAll(s, key, ks);
  }

  /** The weight of the groups, group by group. */
  function GroupTotals<S>(g: seq<seq<S>>, w: S -> int): (r: seq<int>)
    ensures |r| == |g|
  {
    seq(|g|, i requires 0 <= i < |g| => Weigh(g[i], w))
  }

  /** Summing the groups' weights gives the weight of their concatenation. */
  lemma {:induction false} SumGroupWeights<S>(g: seq<seq<S>>, w: S -> int)
    ensures SumInts(GroupTotals(g, w)) == Weigh(Concat(g), w)
    decreases |g|
  {
    if |g| > 0 {
      var front := g[..|g| - 1];
      SumGroupWeights(front, w);
      assert GroupTotals(g, w)[..|g| - 1] == GroupTotals(front, w);
      WeighConcat(Concat(front), g[|g| - 1], w);
    }
  }

  /** `groupByUser` of the ingest packages: group names by the user id in
      the name. Go panics at a name without '_'. */
  function GroupByName<S(!new)>(srcs: seq<S>, name: S -> string): (r: Result<seq<seq<S>>>)
    ensures r.Err? <==> exists i :: 0 <= i < |srcs| && '_' !in name(srcs[i])
    ensures r.Ok? ==> forall i :: 0 <= i < |r.value| ==> |r.value[i]| > 0
    ensures r.Ok? ==> forall i, x :: 0 <= i < |r.value| && x in r.value[i] ==>
              x in srcs && NameKey(name(x)) == NameKey(name(r.value[i][0]))
    ensures r.Ok? ==> forall i, j :: 0 <= i < j < |r.value| ==>
              NameKey(name(r.value[i][0])) != NameKey(name(r.value[j][0]))
    ensures r.Ok? ==> forall x :: x in srcs ==> exists i :: 0 <= i < |r.value| && x in r.value[i]
  {
    if exists i :: 0 <= i < |srcs| && '_' !in name(srcs[i]) then
      Err("index out of range [1] with length 1")
    else
      Ok(GroupBy(srcs, x => NameKey(name(x))))
  }
}

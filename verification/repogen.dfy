/** The table description of src/go/internal/repogen/table.go, from which
    repository code is generated: the primary column, the indexes, and the
    Go type of each column type. */
module Repogen {
  import opened Common

  /** A column type is its SQL type name. */
  type ColumnType = string

  const StringType: ColumnType := "STRING"
  const IntType: ColumnType := "INTEGER"
  const Float64Type: ColumnType := "FLOAT"
  const TimeType: ColumnType := "TIMESTAMP"
  const MonthType: ColumnType := "INTEGER"
  const WeekdayType: ColumnType := "INTEGER"

  datatype Column = Column(name: string, ctype: ColumnType, primary: bool, indexes: seq<string>, notNull: bool)

  datatype Table = Table(name: string, package: string, filePrefix: string, columns: seq<Column>)

  /** Go's zero `Column{}`. */
  const ZeroColumn := Column("", "", false, [], false)

  // The primary column

  /** The first primary column of cs, if any. */
  function FirstPrimary(cs: seq<Column>): (r: (Column, bool))
    ensures r.1 <==> exists i :: 0 <= i < |cs| && cs[i].primary
    ensures r.1 ==> exists i :: 0 <= i < |cs| && r.0 == cs[i] && r.0.primary && forall j :: 0 <= j < i ==> !cs[j].primary
    ensures !r.1 ==> r.0 == ZeroColumn
    decreases |cs|
  {
    if |cs| == 0 then (ZeroColumn, false)
    else if cs[0].primary then (cs[0], true)
    else
      var r := FirstPrimary(cs[1..]);
      assert forall i :: 1 <= i < |cs| ==> cs[i] == cs[1..][i - 1];
      r
  }

  /** `Table.PrimaryColumn`: the first column marked primary with true,
      or the zero column with false. */
  function PrimaryColumn(t: Table): (r: (Column, bool))
    ensures r.1 <==> exists c :: c in t.columns && c.primary
    ensures r.1 ==> r.0 in t.columns && r.0.primary
    ensures !r.1 ==> r.0 == ZeroColumn
  {
    var r := FirstPrimary(t.columns);
    PrimaryWitness(t.columns, r);
    r
  }

  lemma {:induction false} PrimaryWitness(cs: seq<Column>, r: (Column, bool))
    requires r == FirstPrimary(cs)
    ensures r.1 <==> exists c :: c in cs && c.primary
    ensures r.1 ==> r.0 in cs
  {
    if exists c :: c in cs && c.primary {
      var c :| c in cs && c.primary;
      var i :| 0 <= i < |cs| && cs[i] == c;
    }
  }

  /** Every column before the primary one is not primary, so moving a
      non-primary column to the front does not change the answer. */
  lemma {:induction false} PrimaryAfterPlain(c: Column, cs: seq<Column>)
    requires !c.primary
    ensures FirstPrimary([c] + cs) == FirstPrimary(cs)
  {
    assert ([c] + cs)[1..] == cs;
  }

  // The indexes

  /** n copies of the column. */
  function Copies(c: Column, n: nat): (s: seq<Column>)
    ensures |s| == n && forall i :: 0 <= i < n ==> s[i] == c
  {
    seq(n, _ => c)
  }

  /** The columns listing index k, in column order, once per time a
      column lists it. */
  function Listing(cs: seq<Column>, k: string): seq<Column>
    decreases |cs|
  {
    if |cs| == 0 then []
    else Listing(cs[..|cs| - 1], k) + Copies(cs[|cs| - 1], Count(cs[|cs| - 1].indexes, k))
  }

  /** The entry of a map, or Go's nil for a missing key. */
  function Get(m: map<string, seq<Column>>, k: string): seq<Column>
  {
    if k in m then m[k] else []
  }

  /** `inds[ind] = append(inds[ind], c)`, after a missing name was set
      to nil. */
  function Append(m: map<string, seq<Column>>, ind: string, c: Column): (r: map<string, seq<Column>>)
    ensures ind in r && forall k :: Get(r, k) == Get(m, k) + (if k == ind then [c] else [])
    ensures forall k :: k in r <==> k in m || k == ind
  {
    m[ind := Get(m, ind) + [c]]
  }

  /** The entries are the listings of the columns before, followed by
      the current column once per time it lists the name among names. */
  ghost predicate Tracks(m: map<string, seq<Column>>, before: seq<Column>, c: Column, names: seq<string>)
  {
    forall k :: Get(m, k) == Listing(before, k) + Copies(c, Count(names, k))
  }

  /** The entries are exactly the listings of cs. */
  ghost predicate Lists(m: map<string, seq<Column>>, cs: seq<Column>)
  {
    forall k :: Get(m, k) == Listing(cs, k)
  }

  /** No name present has an empty entry. */
  ghost predicate NonEmptyEntries(m: map<string, seq<Column>>)
  {
    forall k :: k in m ==> |m[k]| > 0
  }

  /** One name of a column's index list: the entries keep the columns
      before it plus the names of this column seen so far. */
  lemma {:induction false} IndexStep(m: map<string, seq<Column>>, before: seq<Column>, c: Column, j: nat)
    requires j < |c.indexes|
    requires Tracks(m, before, c, c.indexes[..j]) && NonEmptyEntries(m)
    ensures Tracks(Append(m, c.indexes[j], c), before, c, c.indexes[..j + 1])
    ensures NonEmptyEntries(Append(m, c.indexes[j], c))
  {
    var names := c.indexes[..j + 1];
    assert names[..j] == c.indexes[..j];
    var r := Append(m, c.indexes[j], c);
    forall k
      ensures Get(r, k) == Listing(before, k) + Copies(c, Count(names, k))
    {
      NameStep(m, before, c, names, k);
    }
    forall k | k in r
      ensures |r[k]| > 0
    {
      if k != c.indexes[j] {
        assert k in m && r[k] == m[k];
      }
    }
  }

  /** The entry of one name after appending the column under the last
      name of names. */
  lemma {:induction false} NameStep(m: map<string, seq<Column>>, before: seq<Column>, c: Column, names: seq<string>, k: string)
    requires |names| > 0
    requires Get(m, k) == Listing(before, k) + Copies(c, Count(names[..|names| - 1], k))
    ensures Get(Append(m, names[|names| - 1], c), k) == Listing(before, k) + Copies(c, Count(names, k))
  {
    var n := Count(names[..|names| - 1], k);
    assert Copies(c, n) + [c] == Copies(c, n + 1);
  }

  /** `Table.Indexes`: each index name is mapped to the columns that list
      it, in column order; a column listing a name twice is added twice. */
  method Indexes(t: Table) returns (inds: map<string, seq<Column>>)
    ensures forall k :: k in inds <==> exists c :: c in t.columns && k in c.indexes
    ensures forall k :: k in inds ==> inds[k] == Listing(t.columns, k)
  {
    var cs := t.columns;
    inds := map[];
    var i := 0;
    while i < |cs|
      invariant 0 <= i <= |cs|
      invariant Lists(inds, cs[..i]) && NonEmptyEntries(inds)
    {
      var c := cs[i];
      ColumnStart(inds, cs[..i], c);
      var j := 0;
      while j < |c.indexes|
        invariant 0 <= j <= |c.indexes|
        invariant Tracks(inds, cs[..i], c, c.indexes[..j]) && NonEmptyEntries(inds)
      {
        IndexStep(inds, cs[..i], c, j);
        inds := Append(inds, c.indexes[j], c);
        j := j + 1;
      }
      ColumnDone(inds, cs, i);
      i := i + 1;
    }
    assert cs[..i] == cs;
    IndexesCover(inds, cs);
  }

  /** Before a column's first index name the entries hold the columns
      before it. */
  lemma {:induction false} ColumnStart(m: map<string, seq<Column>>, before: seq<Column>, c: Column)
    requires Lists(m, before)
    ensures Tracks(m, before, c, c.indexes[..0])
  {
    assert c.indexes[..0] == [];
    forall k
      ensures Get(m, k) == Listing(before, k) + Copies(c, Count(c.indexes[..0], k))
    {
      assert Listing(before, k) + [] == Listing(before, k);
    }
  }

  /** After a column's last index name the entries hold the columns up to
      and including it. */
  lemma {:induction false} ColumnDone(m: map<string, seq<Column>>, cs: seq<Column>, i: nat)
    requires i < |cs|
    requires Tracks(m, cs[..i], cs[i], cs[i].indexes[..|cs[i].indexes|])
    ensures Lists(m, cs[..i + 1])
  {
    assert cs[i].indexes[..|cs[i].indexes|] == cs[i].indexes;
    assert cs[..i + 1][..i] == cs[..i];
  }

  /** Entries equal to the listings and never empty: the names present
      are those some column lists. */
  lemma {:induction false} IndexesCover(m: map<string, seq<Column>>, cs: seq<Column>)
    requires Lists(m, cs) && NonEmptyEntries(m)
    ensures forall k :: k in m <==> exists c :: c in cs && k in c.indexes
    ensures forall k :: k in m ==> m[k] == Listing(cs, k)
  {
    forall k
      ensures k in m <==> exists c :: c in cs && k in c.indexes
    {
      ListingMembers(cs, k);
      if k in m {
        assert m[k][0] in Listing(cs, k);
      }
    }
  }

  /** A column is in the listing of k exactly when it lists k. */
  lemma {:induction false} ListingMembers(cs: seq<Column>, k: string)
    ensures forall c :: c in Listing(cs, k) <==> c in cs && k in c.indexes
    decreases |cs|
  {
    if |cs| > 0 {
      var init := cs[..|cs| - 1];
      var last := cs[|cs| - 1];
      ListingMembers(init, k);
      CountPositiveIffIn(last.indexes, k);
      assert cs == init + [last];
      forall c
        ensures c in Listing(cs, k) <==> c in cs && k in c.indexes
      {
        var n := Count(last.indexes, k);
        assert c in Copies(last, n) <==> n > 0 && c == last by {
          if n > 0 {
            assert Copies(last, n)[0] == last;
          }
        }
      }
    }
  }

  /** When no column lists an index name twice, its listing is exactly
      the columns that list it, each once, in column order. */
  lemma {:induction false} ListingOnce(cs: seq<Column>, k: string)
    requires forall c :: c in cs ==> Count(c.indexes, k) <= 1
    ensures Listing(cs, k) == Filter(cs, (c: Column) => k in c.indexes)
    decreases |cs|
  {
    if |cs| > 0 {
      var init := cs[..|cs| - 1];
      var last := cs[|cs| - 1];
      assert forall c :: c in init ==> c in cs;
      ListingOnce(init, k);
      CountPositiveIffIn(last.indexes, k);
      if k in last.indexes {
        assert Copies(last, 1) == [last];
      } else {
        assert Copies(last, 0) == [];
      }
    }
  }

  /** A column listing an index name twice appears twice in its entry. */
  lemma {:induction false} ListedTwice(c: Column, k: string)
    requires c.indexes == [k, k]
    ensures Listing([c], k) == [c, c]
  {
    assert [c][..0] == [];
    assert Count([k], k) == 1 by {
      assert [k][..0] == [];
    }
    assert [k, k][..1] == [k];
    assert Copies(c, 2) == [c, c];
  }

  // Go types

  /** `astType` of parse.go on a field's Go type name. */
  function ColumnTypeOf(goType: string): Result<ColumnType>
  {
    match goType
    case "int" => Ok(IntType)
    case "string" => Ok(StringType)
    case "float64" => Ok(Float64Type)
    case "time.Time" => Ok(TimeType)
    case "time.Month" => Ok(MonthType)
    case "time.Weekday" => Ok(WeekdayType)
    case _ => Err("unknown column type")
  }

  /** `ColumnType.GoType` as written: a type matching no case panics. */
  function GoType(ct: ColumnType): Result<string>
  {
    match ct
    case "STRING" => Ok("string")
    case "INTEGER" => Ok("int")
    case "FLOAT" => Ok("float64")
    case "TIME" => Ok("time.Time")
    case "MONTH" => Ok("time.Month")
    case "WEEKDAY" => Ok("time.Weekday")
    case _ => Err("unknown column type")
  }

  /** `GoType` with the type the Time constant actually carries. */
  function GoTypeFixed(ct: ColumnType): Result<string>
  {
    if ct == TimeType then Ok("time.Time") else GoType(ct)
  }

  /** The scalar types survive the trip from Go type to column type and
      back; the Month and Weekday constants share "INTEGER" and come back
      as "int". */
  lemma {:induction false} GoTypeRoundTrip(g: string)
    requires ColumnTypeOf(g).Ok?
    ensures g in {"int", "string", "float64"} ==> GoType(ColumnTypeOf(g).value) == Ok(g)
    ensures g in {"time.Month", "time.Weekday"} ==> GoType(ColumnTypeOf(g).value) == Ok("int")
  {
    assert g in {"int", "string", "float64", "time.Time", "time.Month", "time.Weekday"};
  }

  /** As written, a `time.Time` field gets the column type "TIMESTAMP",
      on which `GoType` panics. */
  lemma {:induction false} TimeColumnPanics()
    ensures ColumnTypeOf("time.Time") == Ok(TimeType) && GoType(TimeType).Err?
  {
  }

  /** With the fix every Go type `astType` accepts comes back as a Go type:
      itself, or "int" for the two types stored as integers; and where
      `GoType` answered it still answers the same. */
  lemma {:induction false} GoTypeFixedRoundTrip(g: string, ct: ColumnType)
    requires ColumnTypeOf(g).Ok?
    ensures g !in {"time.Month", "time.Weekday"} ==> GoTypeFixed(ColumnTypeOf(g).value) == Ok(g)
    ensures g in {"time.Month", "time.Weekday"} ==> GoTypeFixed(ColumnTypeOf(g).value) == Ok("int")
    ensures GoType(ct).Ok? ==> GoTypeFixed(ct) == GoType(ct)
  {
    assert g in {"int", "string", "float64", "time.Time", "time.Month", "time.Weekday"};
  }
}

/** The experiment configurations of lib/pipeline.py: every visit factory
    paired with every file of home locations. Factories and their
    `describe` are parameters. */
module Pipeline {
  import opened Common

  datatype Config<V, H> = Config(visitFactory: V, homeLocationsPath: H)

  /** The configurations list every factory with every path, factory by
      factory, paths in their order within each. */
  predicate IsProduct<V(==), H(==)>(r: seq<Config<V, H>>, vs: seq<V>, hs: seq<H>)
  {
    ProductPrefix(r, vs, hs, |vs|)
  }

  /** r holds the configurations of the first n factories. */
  predicate ProductPrefix<V(==), H(==)>(r: seq<Config<V, H>>, vs: seq<V>, hs: seq<H>, n: nat)
    requires n <= |vs|
  {
    |r| == n * |hs|
    && forall i, j :: 0 <= i < n && 0 <= j < |hs| ==> PairAt(r, vs, hs, i, j)
  }

  /** Position i * |hs| + j of r exists and pairs factory i with path j. */
  predicate PairAt<V(==), H(==)>(r: seq<Config<V, H>>, vs: seq<V>, hs: seq<H>, i: nat, j: nat)
    requires i < |vs| && j < |hs|
  {
    i * |hs| + j < |r| && r[i * |hs| + j] == Config(vs[i], hs[j])
  }

  /** Appending the row of factory n extends the prefix by one factory. */
  lemma {:induction false} ProductExtend<V, H>(r: seq<Config<V, H>>, row: seq<Config<V, H>>, vs: seq<V>, hs: seq<H>, n: nat)
    requires n < |vs| && ProductPrefix(r, vs, hs, n)
    requires |row| == |hs| && forall j :: 0 <= j < |hs| ==> row[j] == Config(vs[n], hs[j])
    ensures ProductPrefix(r + row, vs, hs, n + 1)
  {
    assert (n + 1) * |hs| == n * |hs| + |hs|;
    forall i, j | 0 <= i < n + 1 && 0 <= j < |hs| ensures PairAt(r + row, vs, hs, i, j) {
      ProductEntry(r, row, vs, hs, n, i, j);
    }
  }

  /** One entry of the extended prefix: an old entry, or one of the new
      row. */
  lemma {:induction false} ProductEntry<V, H>(r: seq<Config<V, H>>, row: seq<Config<V, H>>, vs: seq<V>, hs: seq<H>, n: nat, i: nat, j: nat)
    requires n < |vs| && ProductPrefix(r, vs, hs, n)
    requires |row| == |hs| && forall j :: 0 <= j < |hs| ==> row[j] == Config(vs[n], hs[j])
    requires i <= n && j < |hs|
    ensures PairAt(r + row, vs, hs, i, j)
  {
    if i < n {
      assert PairAt(r, vs, hs, i, j);
    } else {
      assert i * |hs| + j == |r| + j;
      assert row[j] == Config(vs[n], hs[j]);
    }
  }

  /** `config_product`: both lists are required, the factories checked
      first. */
  method ConfigProduct<V(==), H(==)>(vs: Option<seq<V>>, hs: Option<seq<H>>) returns (r: Result<seq<Config<V, H>>>)
    ensures r.Err? <==> vs.None? || hs.None?
    ensures vs.None? ==> r == Err("visit_factories must be set")
    ensures r.Ok? ==> IsProduct(r.value, vs.value, hs.value)
    ensures r.Ok? ==> forall c :: c in r.value <==> c.visitFactory in vs.value && c.homeLocationsPath in hs.value
  {
    if vs.None? {
      return Err("visit_factories must be set");
    }
    if hs.None? {
      return Err("home_locations_paths must be set");
    }
    var V, H := vs.value, hs.value;
    var cfgs: seq<Config<V, H>> := [];
    var i := 0;
    while i < |V|
      invariant 0 <= i <= |V| && ProductPrefix(cfgs, V, H, i)
      invariant forall c :: c in cfgs ==> c.visitFactory in V && c.homeLocationsPath in H
    {
      var row: seq<Config<V, H>> := [];
      var j := 0;
      while j < |H|
        invariant 0 <= j <= |H| && |row| == j
        invariant forall b :: 0 <= b < j ==> row[b] == Config(V[i], H[b])
      {
        row := row + [Config(V[i], H[j])];
        j := j + 1;
      }
      ProductExtend(cfgs, row, V, H, i);
      cfgs := cfgs + row;
      i := i + 1;
    }
    forall c: Config<V, H> | c.visitFactory in V && c.homeLocationsPath in H ensures c in cfgs {
      var a :| 0 <= a < |V| && V[a] == c.visitFactory;
      var b :| 0 <= b < |H| && H[b] == c.homeLocationsPath;
      assert PairAt(cfgs, V, H, a, b);
    }
    return Ok(cfgs);
  }

  /** `Config.describe`: the factory's description under "visits" and the
      path under "home_locations". */
  datatype Description<D, H> = Description(visits: D, homeLocations: H)

  function Describe<V, D, H>(c: Config<V, H>, describe: V -> D): Description<D, H>
  {
    Description(describe(c.visitFactory), c.homeLocationsPath)
  }

  /** Describing the configurations lists every factory's description with
      every path, in the order of the product. */
  lemma {:induction false} DescribedProduct<V, D, H>(r: seq<Config<V, H>>, vs: seq<V>, hs: seq<H>, describe: V -> D)
    requires IsProduct(r, vs, hs)
    ensures forall i, j :: 0 <= i < |vs| && 0 <= j < |hs| ==>
              (PairAt(r, vs, hs, i, j) && Describe(r[i * |hs| + j], describe) == Description(describe(vs[i]), hs[j]))
  {
  }
}

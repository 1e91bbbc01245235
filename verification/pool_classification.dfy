/** Build outputs are partitioned into pools: the first pool, in config order, with a matching route wins. */
module PoolClassification {
  import opened Wrappers

  datatype Output = Output(id: string, pathname: string)

  datatype Prerender = Prerender(pathname: string, parentOutputId: Option<string>)

  datatype Outputs = Outputs(
    appPages: seq<Output>, appRoutes: seq<Output>, pages: seq<Output>, pagesApi: seq<Output>,
    prerenders: seq<Prerender>, staticFiles: seq<string>, middleware: Option<string>)

  datatype PoolConfig = PoolConfig(name: string, routes: seq<string>)

  datatype Pool = Pool(name: string, outputs: seq<Output>)

  /** `glob(pathname, routeSpec)`: minimatch on the normalised selector. */
  type Glob = (string, string) -> bool

  function Functional(outputs: Outputs): seq<Output> {
    outputs.appPages + outputs.appRoutes + outputs.pages + outputs.pagesApi
  }

  function Filter(candidates: seq<Output>, glob: Glob, spec: string): (kept: seq<Output>)
    ensures forall output :: output in kept <==> output in candidates && glob(output.pathname, spec)
  {
    if candidates == [] then
      []
    else
      (if glob(candidates[0].pathname, spec) then [candidates[0]] else []) + Filter(candidates[1..], glob, spec)
  }

  /** A type key names a whole list of outputs; any other spec is a selector over pathnames. */
  function Candidates(outputs: Outputs, glob: Glob, spec: string): seq<Output> {
    if spec == "appPages" then outputs.appPages
    else if spec == "appRoutes" then outputs.appRoutes
    else if spec == "pages" then outputs.pages
    else if spec == "pagesApi" then outputs.pagesApi
    else Filter(Functional(outputs), glob, spec)
  }

  lemma CandidatesAreFunctional(outputs: Outputs, glob: Glob, spec: string)
    ensures forall output :: output in Candidates(outputs, glob, spec) ==> output in Functional(outputs)
  {
  }

  /** A route spec that names no list of outputs is a selector over the pathnames of all of them. */
  predicate IsSelector(spec: string) {
    spec != "appPages" && spec != "appRoutes" && spec != "pages" && spec != "pagesApi"
  }

  /** Some route names the list the output is in, or selects its pathname. */
  predicate MatchesSome(outputs: Outputs, glob: Glob, specs: seq<string>, output: Output) {
    || ("appPages" in specs && output in outputs.appPages)
    || ("appRoutes" in specs && output in outputs.appRoutes)
    || ("pages" in specs && output in outputs.pages)
    || ("pagesApi" in specs && output in outputs.pagesApi)
    || ((output in outputs.appPages || output in outputs.appRoutes || output in outputs.pages || output in outputs.pagesApi)
        && exists spec <- specs :: IsSelector(spec) && glob(output.pathname, spec))
  }

  lemma MatchesSomeIff(outputs: Outputs, glob: Glob, specs: seq<string>, output: Output)
    ensures MatchesSome(outputs, glob, specs, output)
       <==> exists i :: 0 <= i < |specs| && output in Candidates(outputs, glob, specs[i])
  {
    if MatchesSome(outputs, glob, specs, output) {
      var spec := MatchingSpec(outputs, glob, specs, output);
      var i :| 0 <= i < |specs| && specs[i] == spec;
    }
    if i :| 0 <= i < |specs| && output in Candidates(outputs, glob, specs[i]) {
      assert specs[i] in specs;
    }
  }

  lemma MatchingSpec(outputs: Outputs, glob: Glob, specs: seq<string>, output: Output) returns (spec: string)
    requires MatchesSome(outputs, glob, specs, output)
    ensures spec in specs && output in Candidates(outputs, glob, spec)
  {
    if "appPages" in specs && output in outputs.appPages {
      spec := "appPages";
    } else if "appRoutes" in specs && output in outputs.appRoutes {
      spec := "appRoutes";
    } else if "pages" in specs && output in outputs.pages {
      spec := "pages";
    } else if "pagesApi" in specs && output in outputs.pagesApi {
      spec := "pagesApi";
    } else {
      spec :| spec in specs && IsSelector(spec) && glob(output.pathname, spec);
    }
  }

  /** The ids these routes match. */
  ghost function Matched(outputs: Outputs, glob: Glob, specs: seq<string>): set<string> {
    set output | output in Functional(outputs) && MatchesSome(outputs, glob, specs, output) :: output.id
  }

  /** The ids some pool's routes match. */
  ghost function Claimed(outputs: Outputs, glob: Glob, config: seq<PoolConfig>): set<string> {
    if config == [] then {}
    else Claimed(outputs, glob, config[..|config| - 1]) + Matched(outputs, glob, config[|config| - 1].routes)
  }

  predicate DistinctIds(outputs: seq<Output>) {
    forall i, j :: 0 <= i < j < |outputs| ==> outputs[i].id != outputs[j].id
  }

  ghost function IdSet(outputs: seq<Output>): set<string> {
    set output | output in outputs :: output.id
  }

  /** What one pool receives: once each, the ids its routes match and no earlier pool's do. */
  ghost predicate PoolReceives(outputs: Outputs, glob: Glob, config: seq<PoolConfig>, k: nat, pool: Pool)
    requires k < |config|
  {
    && pool.name == config[k].name
    && DistinctIds(pool.outputs)
    && (forall output :: output in pool.outputs ==> MatchesSome(outputs, glob, config[k].routes, output))
    && (forall output :: output in pool.outputs ==> output in Functional(outputs))
    && IdSet(pool.outputs) == Matched(outputs, glob, config[k].routes) - Claimed(outputs, glob, config[..k])
  }

  lemma IdSetSnoc(outputs: seq<Output>, output: Output)
    ensures IdSet(outputs + [output]) == IdSet(outputs) + {output.id}
  {
    assert forall o :: o in outputs + [output] <==> o in outputs || o == output;
  }

  lemma MatchedSnoc(outputs: Outputs, glob: Glob, specs: seq<string>, spec: string)
    ensures Matched(outputs, glob, specs + [spec]) == Matched(outputs, glob, specs) + IdSet(Candidates(outputs, glob, spec))
    ensures forall output :: MatchesSome(outputs, glob, specs, output) || output in Candidates(outputs, glob, spec)
                         ==> MatchesSome(outputs, glob, specs + [spec], output)
  {
    var more := specs + [spec];
    CandidatesAreFunctional(outputs, glob, spec);
    forall output
      ensures MatchesSome(outputs, glob, more, output)
         <==> MatchesSome(outputs, glob, specs, output) || output in Candidates(outputs, glob, spec)
    {
      MatchesSomeIff(outputs, glob, specs, output);
      MatchesSomeIff(outputs, glob, more, output);
      if MatchesSome(outputs, glob, specs, output) {
        var i :| 0 <= i < |specs| && output in Candidates(outputs, glob, specs[i]);
        assert more[i] == specs[i];
      }
      if output in Candidates(outputs, glob, spec) {
        assert more[|specs|] == spec;
      }
    }
  }

  /** The loops for one pool; `taken` holds the ids of the pools before it. */
  method MatchPool(outputs: Outputs, glob: Glob, routes: seq<string>, takenBefore: set<string>)
    returns (matched: seq<Output>, taken: set<string>)
    ensures taken == takenBefore + Matched(outputs, glob, routes)
    ensures IdSet(matched) == Matched(outputs, glob, routes) - takenBefore && DistinctIds(matched)
    ensures forall output :: output in matched ==> output in Functional(outputs) && MatchesSome(outputs, glob, routes, output)
  {
    hide Candidates, MatchesSome, Matched;
    matched, taken := [], takenBefore;
    NoRoutesMatchNothing(outputs, glob);
    for r := 0 to |routes|
      invariant taken == takenBefore + Matched(outputs, glob, routes[..r])
      invariant IdSet(matched) == taken - takenBefore && DistinctIds(matched)
      invariant forall output :: output in matched ==> output in Functional(outputs)
      invariant forall output :: output in matched ==> MatchesSome(outputs, glob, routes[..r], output)
    {
      var candidates := Candidates(outputs, glob, routes[r]);
      CandidatesAreFunctional(outputs, glob, routes[r]);
      MatchedSnoc(outputs, glob, routes[..r], routes[r]);
      assert routes[..r + 1] == routes[..r] + [routes[r]];
      ghost var takenSoFar := taken;
      for i := 0 to |candidates|
        invariant taken == takenSoFar + IdSet(candidates[..i])
        invariant IdSet(matched) == taken - takenBefore && DistinctIds(matched)
        invariant takenBefore <= taken
        invariant forall output :: output in matched ==> output in Functional(outputs)
        invariant forall output :: output in matched ==> MatchesSome(outputs, glob, routes[..r + 1], output)
      {
        var output := candidates[i];
        assert candidates[..i + 1] == candidates[..i] + [output];
        IdSetSnoc(candidates[..i], output);
        if output.id !in taken {
          taken := taken + {output.id};
          IdSetSnoc(matched, output);
          AppendKeepsDistinct(matched, output);
          matched := matched + [output];
        }
      }
      assert candidates[..|candidates|] == candidates;
    }
    assert routes[..|routes|] == routes;
  }

  lemma NoRoutesMatchNothing(outputs: Outputs, glob: Glob)
    ensures Matched(outputs, glob, []) == {}
  {
  }

  lemma AppendKeepsDistinct(outputs: seq<Output>, output: Output)
    requires DistinctIds(outputs) && output.id !in IdSet(outputs)
    ensures DistinctIds(outputs + [output])
  {
    assert forall i :: 0 <= i < |outputs| ==> outputs[i] in outputs && outputs[i].id in IdSet(outputs);
  }

  /** A classification that returned: every pool received its share, and nothing is left over. */
  ghost predicate Classified(outputs: Outputs, glob: Glob, config: seq<PoolConfig>, pools: seq<Pool>) {
    && |pools| == |config|
    && (forall k :: 0 <= k < |config| ==> PoolReceives(outputs, glob, config, k, pools[k]))
    && (forall output :: output in Functional(outputs) ==> output.id in Claimed(outputs, glob, config))
  }

  /** The id of the first functional output that no pool claims. */
  ghost predicate FirstUnclaimed(outputs: Outputs, glob: Glob, config: seq<PoolConfig>, id: string, i: int) {
    && 0 <= i < |Functional(outputs)| && Functional(outputs)[i].id == id
    && id !in Claimed(outputs, glob, config)
    && forall j :: 0 <= j < i ==> Functional(outputs)[j].id in Claimed(outputs, glob, config)
  }

  /** Pools in config order, or the first output no pool claims. */
  method ClassifyIntoPools(outputs: Outputs, config: seq<PoolConfig>, glob: Glob)
    returns (result: Result<seq<Pool>, string>)
    ensures result.Ok? <==> forall output :: output in Functional(outputs) ==> output.id in Claimed(outputs, glob, config)
    ensures result.Ok? ==> Classified(outputs, glob, config, result.value)
    ensures result.Err? ==> exists i :: FirstUnclaimed(outputs, glob, config, result.error, i)
  {
    hide Functional, MatchesSome, Matched, DistinctIds, IdSet;
    var pools: seq<Pool> := [];
    var taken: set<string> := {};
    for k := 0 to |config|
      invariant |pools| == k && taken == Claimed(outputs, glob, config[..k])
      invariant forall j :: 0 <= j < k ==> PoolReceives(outputs, glob, config, j, pools[j])
    {
      var matched;
      ghost var before := config[..k];
      assert config[..k + 1] == before + [config[k]];
      assert (before + [config[k]])[..k] == before;
      matched, taken := MatchPool(outputs, glob, config[k].routes, taken);
      pools := pools + [Pool(config[k].name, matched)];
    }
    assert config[..|config|] == config;
    var all := Functional(outputs);
    for i := 0 to |all|
      invariant forall j :: 0 <= j < i ==> all[j].id in taken
    {
      if all[i].id !in taken {
        assert FirstUnclaimed(outputs, glob, config, all[i].id, i);
        return Err(all[i].id);
      }
    }
    return Ok(pools);
  }

  // ---- The partition ------------------------------------------------------------------------

  /** The first pool, in config order, with a route that matches the output. */
  ghost predicate FirstMatching(outputs: Outputs, glob: Glob, config: seq<PoolConfig>, output: Output, k: int) {
    && 0 <= k < |config|
    && MatchesSome(outputs, glob, config[k].routes, output)
    && forall j :: 0 <= j < k ==> !MatchesSome(outputs, glob, config[j].routes, output)
  }

  lemma {:induction false} ClaimedBySome(outputs: Outputs, glob: Glob, config: seq<PoolConfig>, id: string)
    ensures id in Claimed(outputs, glob, config)
       <==> exists k :: 0 <= k < |config| && id in Matched(outputs, glob, config[k].routes)
  {
    hide Matched;
    if config != [] {
      var last := |config| - 1;
      var front := config[..last];
      ClaimedBySome(outputs, glob, front, id);
      if id in Claimed(outputs, glob, front) {
        var k :| 0 <= k < |front| && id in Matched(outputs, glob, front[k].routes);
        assert config[k] == front[k];
      } else {
        assert forall k :: 0 <= k < last ==> config[k] == front[k];
      }
    }
  }

  /** With unique ids an id stands for its output. */
  lemma MatchedMeansMatches(outputs: Outputs, glob: Glob, specs: seq<string>, output: Output)
    requires DistinctIds(Functional(outputs)) && output in Functional(outputs)
    ensures output.id in Matched(outputs, glob, specs) <==> MatchesSome(outputs, glob, specs, output)
  {
    if output.id in Matched(outputs, glob, specs) {
      var other :| other in Functional(outputs) && MatchesSome(outputs, glob, specs, other) && other.id == output.id;
      SameIdSameOutput(Functional(outputs), output, other);
    }
  }

  lemma SameIdSameOutput(all: seq<Output>, a: Output, b: Output)
    requires DistinctIds(all) && a in all && b in all && a.id == b.id
    ensures a == b
  {
    var i :| 0 <= i < |all| && all[i] == a;
    var j :| 0 <= j < |all| && all[j] == b;
    assert !(i < j) && !(j < i);
  }

  lemma PoolHoldsIff(outputs: Outputs, glob: Glob, config: seq<PoolConfig>, k: nat, pool: Pool, output: Output)
    requires DistinctIds(Functional(outputs)) && output in Functional(outputs)
    requires k < |config| && PoolReceives(outputs, glob, config, k, pool)
    ensures output in pool.outputs <==> FirstMatching(outputs, glob, config, output, k)
  {
    hide MatchesSome, Matched, Claimed, Functional, DistinctIds;
    ClaimedBySome(outputs, glob, config[..k], output.id);
    forall j | 0 <= j <= k
      ensures output.id in Matched(outputs, glob, config[j].routes) <==> MatchesSome(outputs, glob, config[j].routes, output)
    {
      MatchedMeansMatches(outputs, glob, config[j].routes, output);
    }
    assert forall j :: 0 <= j < k ==> config[..k][j] == config[j];
    assert output.id in IdSet(pool.outputs) <==> FirstMatching(outputs, glob, config, output, k);
    if output.id in IdSet(pool.outputs) {
      var held :| held in pool.outputs && held.id == output.id;
      SameIdSameOutput(Functional(outputs), output, held);
    }
  }

  predicate OnlyAt(held: seq<Output>, output: Output, i: int) {
    0 <= i < |held| && forall j :: 0 <= j < |held| ==> (held[j] == output <==> j == i)
  }

  /**
   * When classification returns, every functional output is in exactly one pool, once, and that
   * pool is the first in config order with a matching route.
   */
  lemma ClassificationPartitions(outputs: Outputs, glob: Glob, config: seq<PoolConfig>, pools: seq<Pool>, output: Output)
    returns (k: nat)
    requires DistinctIds(Functional(outputs)) && output in Functional(outputs)
    requires Classified(outputs, glob, config, pools)
    ensures k < |pools| && FirstMatching(outputs, glob, config, output, k)
    ensures forall j :: 0 <= j < |pools| ==> (output in pools[j].outputs <==> j == k)
    ensures exists i :: OnlyAt(pools[k].outputs, output, i)
  {
    hide MatchesSome, Matched, Claimed, Functional, IdSet;
    ClaimedBySome(outputs, glob, config, output.id);
    k :| 0 <= k < |config| && output.id in Matched(outputs, glob, config[k].routes);
    MatchedMeansMatches(outputs, glob, config[k].routes, output);
    k := Earliest(outputs, glob, config, output, k);
    forall j | 0 <= j < |pools|
      ensures output in pools[j].outputs <==> FirstMatching(outputs, glob, config, output, j)
    {
      PoolHoldsIff(outputs, glob, config, j, pools[j], output);
    }
    var i :| 0 <= i < |pools[k].outputs| && pools[k].outputs[i] == output;
    assert OnlyAt(pools[k].outputs, output, i);
  }

  lemma Earliest(outputs: Outputs, glob: Glob, config: seq<PoolConfig>, output: Output, some: nat) returns (k: nat)
    requires some < |config| && MatchesSome(outputs, glob, config[some].routes, output)
    ensures FirstMatching(outputs, glob, config, output, k)
  {
    k := 0;
    while !MatchesSome(outputs, glob, config[k].routes, output)
      invariant k <= some
      invariant forall j :: 0 <= j < k ==> !MatchesSome(outputs, glob, config[j].routes, output)
      decreases some - k
    {
      k := k + 1;
    }
  }
}

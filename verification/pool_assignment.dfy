/** Every pathname of a build is assigned the pool that serves it. */
module PoolAssignment {
  import opened Wrappers
  import opened PoolClassification
  import HeaderNames

  type Assignments = map<string, string>

  function Lookup(assignments: Assignments, key: string): Option<string> {
    if key in assignments then Some(assignments[key]) else None
  }

  // ---- The pathnames of a build -------------------------------------------------------------

  /** The pathnames of everything that has one, in the order they are added. */
  function Pathnames(outputs: Outputs): seq<string> {
    PathnamesOf(outputs.pages) + PathnamesOf(outputs.pagesApi) + PathnamesOf(outputs.appPages)
      + PathnamesOf(outputs.appRoutes) + PrerenderPathnames(outputs.prerenders) + outputs.staticFiles
  }

  function PathnamesOf(outputs: seq<Output>): seq<string> {
    seq(|outputs|, i requires 0 <= i < |outputs| => outputs[i].pathname)
  }

  function PrerenderPathnames(prerenders: seq<Prerender>): seq<string> {
    seq(|prerenders|, i requires 0 <= i < |prerenders| => prerenders[i].pathname)
  }

  /** A pathname of the build: one of an output, the public alias of `/index`, or the middleware's. */
  predicate IsPathname(outputs: Outputs, pathname: string) {
    || HasPathname(outputs, pathname)
    || (pathname == "/" && HasPathname(outputs, "/index"))
    || outputs.middleware == Some(pathname)
  }

  /** Some page, route, prerender or static file has this pathname. */
  predicate HasPathname(outputs: Outputs, pathname: string) {
    || ServesAt(outputs.pages, pathname) || ServesAt(outputs.pagesApi, pathname)
    || ServesAt(outputs.appPages, pathname) || ServesAt(outputs.appRoutes, pathname)
    || (exists i :: 0 <= i < |outputs.prerenders| && outputs.prerenders[i].pathname == pathname)
    || pathname in outputs.staticFiles
  }

  predicate ServesAt(outputs: seq<Output>, pathname: string) {
    exists i :: 0 <= i < |outputs| && outputs[i].pathname == pathname
  }

  lemma ServesAtIff(outputs: seq<Output>, pathname: string)
    ensures pathname in PathnamesOf(outputs) <==> ServesAt(outputs, pathname)
  {
    if ServesAt(outputs, pathname) {
      var i :| 0 <= i < |outputs| && outputs[i].pathname == pathname;
      assert PathnamesOf(outputs)[i] == pathname;
    }
  }

  lemma PathnamesIff(outputs: Outputs, pathname: string)
    ensures pathname in Pathnames(outputs) <==> HasPathname(outputs, pathname)
  {
    ServesAtIff(outputs.pages, pathname);
    ServesAtIff(outputs.pagesApi, pathname);
    ServesAtIff(outputs.appPages, pathname);
    ServesAtIff(outputs.appRoutes, pathname);
    PrerenderedIff(outputs.prerenders, pathname);
    hide PathnamesOf, PrerenderPathnames, ServesAt;
  }

  lemma PrerenderedIff(prerenders: seq<Prerender>, pathname: string)
    ensures pathname in PrerenderPathnames(prerenders)
       <==> exists i :: 0 <= i < |prerenders| && prerenders[i].pathname == pathname
  {
    if i :| 0 <= i < |prerenders| && prerenders[i].pathname == pathname {
      assert PrerenderPathnames(prerenders)[i] == pathname;
    }
  }

  /** Sorted and duplicate-free, whatever the order and repetition of the outputs. */
  method CollectOutputPathnames(outputs: Outputs) returns (pathnames: seq<string>)
    ensures HeaderNames.StrictlySorted(pathnames)
    ensures forall pathname :: pathname in pathnames <==> IsPathname(outputs, pathname)
  {
    hide Pathnames;
    var all := Pathnames(outputs);
    var collected: seq<string> := [];
    for i := 0 to |all|
      invariant forall pathname :: pathname in collected
                  <==> pathname in all[..i] || (pathname == "/" && "/index" in all[..i])
    {
      assert all[..i + 1] == all[..i] + [all[i]];
      collected := collected + [all[i]];
      if all[i] == "/index" {
        collected := collected + ["/"];
      }
    }
    assert all[..|all|] == all;
    forall pathname ensures pathname in all <==> HasPathname(outputs, pathname) {
      PathnamesIff(outputs, pathname);
    }
    hide HasPathname;
    if outputs.middleware.Some? {
      collected := collected + [outputs.middleware.value];
    }
    HeaderNames.SortUniqueCorrect(collected);
    pathnames := HeaderNames.SortUnique(collected);
    assert forall pathname :: pathname in pathnames <==> pathname in HeaderNames.Elements(pathnames);
    assert forall pathname :: pathname in collected <==> pathname in HeaderNames.Elements(collected);
  }

  // ---- What the assignment means ------------------------------------------------------------

  predicate HoldsPathname(pool: Pool, pathname: string) {
    exists i :: 0 <= i < |pool.outputs| && pool.outputs[i].pathname == pathname
  }

  predicate HoldsId(pool: Pool, id: string) {
    exists i :: 0 <= i < |pool.outputs| && pool.outputs[i].id == id
  }

  /** The last pool holding a function output with this pathname. */
  function PoolServing(pools: seq<Pool>, pathname: string): Option<string> {
    if pools == [] then None
    else if HoldsPathname(pools[|pools| - 1], pathname) then Some(pools[|pools| - 1].name)
    else PoolServing(pools[..|pools| - 1], pathname)
  }

  /** The last pool holding an output with this id. */
  function PoolHolding(pools: seq<Pool>, id: string): Option<string> {
    if pools == [] then None
    else if HoldsId(pools[|pools| - 1], id) then Some(pools[|pools| - 1].name)
    else PoolHolding(pools[..|pools| - 1], id)
  }

  function ParentPool(pools: seq<Pool>, prerender: Prerender): Option<string> {
    if prerender.parentOutputId.None? || prerender.parentOutputId.value == "" then None
    else PoolHolding(pools, prerender.parentOutputId.value)
  }

  /** The parent's pool of the first prerender at this pathname whose parent is known. */
  function Inherited(pools: seq<Pool>, prerenders: seq<Prerender>, pathname: string): Option<string> {
    if prerenders == [] then None
    else
      var last := prerenders[|prerenders| - 1];
      var before := Inherited(pools, prerenders[..|prerenders| - 1], pathname);
      if before.Some? then before
      else if last.pathname == pathname then ParentPool(pools, last)
      else None
  }

  function Or(first: Option<string>, second: Option<string>): Option<string> {
    if first.Some? then first else second
  }

  function Assigned(pools: seq<Pool>, outputs: Outputs, pathname: string): Option<string> {
    var served := Or(PoolServing(pools, pathname), Inherited(pools, outputs.prerenders, pathname));
    if served.Some? then served
    else if pools != [] && IsPathname(outputs, pathname) then Some(pools[0].name)
    else None
  }

  /** Kubernetes names: the configuration is validated before the manifest is built. */
  predicate Named(pools: seq<Pool>) {
    forall k :: 0 <= k < |pools| ==> pools[k].name != ""
  }

  lemma {:induction false} ServedNamesAreNamed(pools: seq<Pool>, key: string)
    requires Named(pools)
    ensures PoolServing(pools, key) != Some("") && PoolHolding(pools, key) != Some("")
  {
    if pools != [] {
      ServedNamesAreNamed(pools[..|pools| - 1], key);
    }
  }

  /** One more output in the pool being read. */
  lemma PoolGrows(before: seq<Pool>, name: string, outputs: seq<Output>, output: Output, key: string)
    ensures PoolServing(before + [Pool(name, outputs + [output])], key)
         == if key == output.pathname then Some(name) else PoolServing(before + [Pool(name, outputs)], key)
    ensures PoolHolding(before + [Pool(name, outputs + [output])], key)
         == if key == output.id then Some(name) else PoolHolding(before + [Pool(name, outputs)], key)
  {
    var smaller, larger := Pool(name, outputs), Pool(name, outputs + [output]);
    assert (before + [smaller])[..|before|] == before && (before + [larger])[..|before|] == before;
    assert larger.outputs[|outputs|] == output;
    assert forall i :: 0 <= i < |outputs| ==> larger.outputs[i] == outputs[i];
    assert HoldsPathname(larger, key) <==> key == output.pathname || HoldsPathname(smaller, key);
    assert HoldsId(larger, key) <==> key == output.id || HoldsId(smaller, key);
  }

  lemma EmptyPoolServesNothing(before: seq<Pool>, name: string, key: string)
    ensures PoolServing(before + [Pool(name, [])], key) == PoolServing(before, key)
    ensures PoolHolding(before + [Pool(name, [])], key) == PoolHolding(before, key)
  {
    assert (before + [Pool(name, [])])[..|before|] == before;
  }

  /** `if (poolAssignments[key])` */
  predicate Truthy(assignments: Assignments, key: string) {
    key in assignments && assignments[key] != ""
  }

  predicate AllTruthy(assignments: Assignments) {
    forall key :: key in assignments ==> assignments[key] != ""
  }

  /** The first loop: the pool of every handler pathname and of every output id, the last writer winning. */
  method AssignHandlers(pools: seq<Pool>) returns (byPathname: Assignments, byOutputId: Assignments)
    requires Named(pools)
    ensures forall key :: Lookup(byPathname, key) == PoolServing(pools, key)
    ensures forall key :: Lookup(byOutputId, key) == PoolHolding(pools, key)
    ensures AllTruthy(byPathname)
  {
    hide PoolServing, PoolHolding;
    byPathname, byOutputId := map[], map[];
    NoPoolsServeNothing();
    for k := 0 to |pools|
      invariant forall key :: Lookup(byPathname, key) == PoolServing(pools[..k], key)
      invariant forall key :: Lookup(byOutputId, key) == PoolHolding(pools[..k], key)
      invariant AllTruthy(byPathname)
    {
      var pool := pools[k];
      ghost var before := pools[..k];
      forall key
        ensures PoolServing(before + [Pool(pool.name, [])], key) == PoolServing(before, key)
        ensures PoolHolding(before + [Pool(pool.name, [])], key) == PoolHolding(before, key)
      {
        EmptyPoolServesNothing(before, pool.name, key);
      }
      assert pool.outputs[..0] == [];
      for i := 0 to |pool.outputs|
        invariant forall key :: Lookup(byPathname, key) == PoolServing(before + [Pool(pool.name, pool.outputs[..i])], key)
        invariant forall key :: Lookup(byOutputId, key) == PoolHolding(before + [Pool(pool.name, pool.outputs[..i])], key)
        invariant AllTruthy(byPathname)
      {
        var output := pool.outputs[i];
        assert pool.outputs[..i + 1] == pool.outputs[..i] + [output];
        ghost var after := before + [Pool(pool.name, pool.outputs[..i + 1])];
        forall key
          ensures PoolServing(after, key) == Lookup(byPathname[output.pathname := pool.name], key)
          ensures PoolHolding(after, key) == Lookup(byOutputId[output.id := pool.name], key)
        {
          PoolGrows(before, pool.name, pool.outputs[..i], output, key);
        }
        byPathname := byPathname[output.pathname := pool.name];
        byOutputId := byOutputId[output.id := pool.name];
      }
      assert pool.outputs[..|pool.outputs|] == pool.outputs;
      assert pools[..k + 1] == before + [Pool(pool.name, pool.outputs)];
    }
    assert pools[..|pools|] == pools;
  }

  lemma NoPoolsServeNothing()
    ensures forall key :: PoolServing([], key) == None && PoolHolding([], key) == None
  {
  }

  lemma NothingInherited(pools: seq<Pool>)
    ensures forall pathname :: Inherited(pools, [], pathname) == None
  {
  }

  lemma InheritedSnoc(pools: seq<Pool>, prerenders: seq<Prerender>, prerender: Prerender, pathname: string)
    ensures Inherited(pools, prerenders + [prerender], pathname)
         == Or(Inherited(pools, prerenders, pathname),
               if prerender.pathname == pathname then ParentPool(pools, prerender) else None)
  {
    assert (prerenders + [prerender])[..|prerenders|] == prerenders;
  }

  /** The pool-assignment part of the routing manifest. */
  method AssignPools(pools: seq<Pool>, outputs: Outputs) returns (poolAssignments: Assignments)
    requires Named(pools)
    ensures forall pathname :: Lookup(poolAssignments, pathname) == Assigned(pools, outputs, pathname)
  {
    hide PoolServing, PoolHolding, Inherited, IsPathname;
    var poolByOutputId: Assignments;
    poolAssignments, poolByOutputId := AssignHandlers(pools);
    forall key ensures PoolServing(pools, key) != Some("") && PoolHolding(pools, key) != Some("") {
      ServedNamesAreNamed(pools, key);
    }
    NothingInherited(pools);
    assert outputs.prerenders[..0] == [];
    for i := 0 to |outputs.prerenders|
      invariant forall pathname :: Lookup(poolAssignments, pathname)
                  == Or(PoolServing(pools, pathname), Inherited(pools, outputs.prerenders[..i], pathname))
      invariant AllTruthy(poolAssignments)
    {
      var prerender := outputs.prerenders[i];
      assert outputs.prerenders[..i + 1] == outputs.prerenders[..i] + [prerender];
      forall pathname
        ensures Inherited(pools, outputs.prerenders[..i + 1], pathname)
             == Or(Inherited(pools, outputs.prerenders[..i], pathname),
                   if prerender.pathname == pathname then ParentPool(pools, prerender) else None)
      {
        InheritedSnoc(pools, outputs.prerenders[..i], prerender, pathname);
      }
      if Truthy(poolAssignments, prerender.pathname) {
        continue;
      }
      var parentPool := if prerender.parentOutputId.Some? && prerender.parentOutputId.value != ""
        then Lookup(poolByOutputId, prerender.parentOutputId.value) else None;
      if parentPool.Some? && parentPool.value != "" {
        poolAssignments := poolAssignments[prerender.pathname := parentPool.value];
      }
    }
    assert outputs.prerenders[..|outputs.prerenders|] == outputs.prerenders;
    var allPathnames := CollectOutputPathnames(outputs);
    if pools != [] {
      var defaultPool := pools[0].name;
      ghost var served := poolAssignments;
      for i := 0 to |allPathnames|
        invariant forall pathname :: Lookup(poolAssignments, pathname)
                    == Or(Lookup(served, pathname), if pathname in allPathnames[..i] then Some(defaultPool) else None)
        invariant AllTruthy(poolAssignments)
      {
        if !Truthy(poolAssignments, allPathnames[i]) {
          poolAssignments := poolAssignments[allPathnames[i] := defaultPool];
        }
      }
    }
  }

  // ---- Theorems -----------------------------------------------------------------------------

  predicate IsPoolName(pools: seq<Pool>, name: string) {
    exists k :: 0 <= k < |pools| && pools[k].name == name
  }

  lemma {:induction false} ServingIsAPool(pools: seq<Pool>, key: string)
    ensures PoolServing(pools, key).Some? ==> IsPoolName(pools, PoolServing(pools, key).value)
    ensures PoolHolding(pools, key).Some? ==> IsPoolName(pools, PoolHolding(pools, key).value)
  {
    if pools != [] {
      var front := pools[..|pools| - 1];
      ServingIsAPool(front, key);
      assert pools[|pools| - 1].name == pools[|pools| - 1].name;
      assert forall k :: 0 <= k < |front| ==> pools[k] == front[k];
    }
  }

  lemma {:induction false} InheritedIsAPool(pools: seq<Pool>, prerenders: seq<Prerender>, pathname: string)
    ensures Inherited(pools, prerenders, pathname).Some? ==> IsPoolName(pools, Inherited(pools, prerenders, pathname).value)
  {
    if prerenders != [] {
      var last := prerenders[|prerenders| - 1];
      InheritedIsAPool(pools, prerenders[..|prerenders| - 1], pathname);
      if last.parentOutputId.Some? {
        ServingIsAPool(pools, last.parentOutputId.value);
      }
    }
  }

  /** The assignment is total: with a pool configured, every pathname of the build has a pool. */
  lemma EveryPathnameIsAssigned(pools: seq<Pool>, outputs: Outputs, pathname: string)
    requires pools != [] && IsPathname(outputs, pathname)
    ensures Assigned(pools, outputs, pathname).Some? && IsPoolName(pools, Assigned(pools, outputs, pathname).value)
  {
    ServingIsAPool(pools, pathname);
    InheritedIsAPool(pools, outputs.prerenders, pathname);
    assert pools[0].name == pools[0].name;
  }

  /** A handler's id leads to the one pool that holds it. */
  lemma {:induction false} HoldingTheOnlyPool(pools: seq<Pool>, id: string, k: nat)
    requires k < |pools| && forall j :: 0 <= j < |pools| ==> (HoldsId(pools[j], id) <==> j == k)
    ensures PoolHolding(pools, id) == Some(pools[k].name)
  {
    if k < |pools| - 1 {
      HoldingTheOnlyPool(pools[..|pools| - 1], id, k);
    }
  }

  lemma {:induction false} ServingTheLastPool(pools: seq<Pool>, pathname: string, k: nat)
    requires k < |pools| && HoldsPathname(pools[k], pathname)
    requires forall j :: k < j < |pools| ==> !HoldsPathname(pools[j], pathname)
    ensures PoolServing(pools, pathname) == Some(pools[k].name)
  {
    if k < |pools| - 1 {
      ServingTheLastPool(pools[..|pools| - 1], pathname, k);
    }
  }

  /** No pool holds a handler for this pathname. */
  lemma {:induction false} ServedByNone(pools: seq<Pool>, pathname: string)
    requires forall j :: 0 <= j < |pools| ==> !HoldsPathname(pools[j], pathname)
    ensures PoolServing(pools, pathname) == None
  {
    if pools != [] {
      ServedByNone(pools[..|pools| - 1], pathname);
    }
  }

  /** The first prerender at its pathname with a known parent decides what the pathname inherits. */
  lemma {:induction false} FirstKnownParentWins(pools: seq<Pool>, prerenders: seq<Prerender>, i: nat)
    requires i < |prerenders| && ParentPool(pools, prerenders[i]).Some?
    requires forall j :: 0 <= j < i && prerenders[j].pathname == prerenders[i].pathname ==> ParentPool(pools, prerenders[j]).None?
    ensures Inherited(pools, prerenders, prerenders[i].pathname) == ParentPool(pools, prerenders[i])
  {
    var front := prerenders[..|prerenders| - 1];
    if i < |front| {
      FirstKnownParentWins(pools, front, i);
    } else {
      NoKnownParent(pools, front, prerenders[i].pathname);
    }
  }

  lemma {:induction false} NoKnownParent(pools: seq<Pool>, prerenders: seq<Prerender>, pathname: string)
    requires forall j :: 0 <= j < |prerenders| && prerenders[j].pathname == pathname ==> ParentPool(pools, prerenders[j]).None?
    ensures Inherited(pools, prerenders, pathname) == None
  {
    if prerenders != [] {
      NoKnownParent(pools, prerenders[..|prerenders| - 1], pathname);
    }
  }

  /** With unique ids the pool holding an id is the first one whose routes match its output. */
  lemma HolderIsFirstMatching(outputs: Outputs, glob: Glob, config: seq<PoolConfig>, pools: seq<Pool>, handler: Output)
    returns (k: nat)
    requires DistinctIds(Functional(outputs)) && handler in Functional(outputs)
    requires Classified(outputs, glob, config, pools)
    ensures k < |pools| && k < |config| && pools[k].name == config[k].name
    ensures FirstMatching(outputs, glob, config, handler, k)
    ensures PoolHolding(pools, handler.id) == Some(config[k].name)
  {
    hide PoolHolding, MatchesSome, Matched, Claimed, Functional;
    k := ClassificationPartitions(outputs, glob, config, pools, handler);
    forall j | 0 <= j < |pools| ensures HoldsId(pools[j], handler.id) <==> j == k {
      assert PoolReceives(outputs, glob, config, j, pools[j]);
      if HoldsId(pools[j], handler.id) {
        var i :| 0 <= i < |pools[j].outputs| && pools[j].outputs[i].id == handler.id;
        SameIdSameOutput(Functional(outputs), handler, pools[j].outputs[i]);
        assert handler in pools[j].outputs;
      }
    }
    HoldingTheOnlyPool(pools, handler.id, k);
  }

  /**
   * A prerender goes where its parent's handler is: to the first pool whose routes match the
   * parent, unless a handler has the prerender's own pathname or an earlier prerender at that
   * pathname already inherited a pool.
   */
  lemma PrerenderFollowsItsParent(outputs: Outputs, glob: Glob, config: seq<PoolConfig>, pools: seq<Pool>,
                                  i: nat, parent: Output) returns (k: nat)
    requires DistinctIds(Functional(outputs)) && parent in Functional(outputs) && parent.id != ""
    requires Classified(outputs, glob, config, pools)
    requires i < |outputs.prerenders| && outputs.prerenders[i].parentOutputId == Some(parent.id)
    requires forall output :: output in Functional(outputs) ==> output.pathname != outputs.prerenders[i].pathname
    requires forall j :: 0 <= j < i && outputs.prerenders[j].pathname == outputs.prerenders[i].pathname
               ==> ParentPool(pools, outputs.prerenders[j]).None?
    ensures FirstMatching(outputs, glob, config, parent, k)
    ensures Assigned(pools, outputs, outputs.prerenders[i].pathname) == Some(config[k].name)
  {
    hide PoolHolding, PoolServing, MatchesSome, Matched, Claimed, Functional, Inherited, IsPathname;
    var pathname := outputs.prerenders[i].pathname;
    k := HolderIsFirstMatching(outputs, glob, config, pools, parent);
    forall j | 0 <= j < |pools| ensures !HoldsPathname(pools[j], pathname) {
      assert PoolReceives(outputs, glob, config, j, pools[j]);
      assert forall o :: 0 <= o < |pools[j].outputs| ==> pools[j].outputs[o] in pools[j].outputs;
    }
    ServedByNone(pools, pathname);
    FirstKnownParentWins(pools, outputs.prerenders, i);
  }

  /** A handler whose pathname no other output shares is assigned the pool that holds it. */
  lemma HandlerIsAssignedItsPool(outputs: Outputs, glob: Glob, config: seq<PoolConfig>, pools: seq<Pool>, handler: Output)
    returns (k: nat)
    requires DistinctIds(Functional(outputs)) && handler in Functional(outputs)
    requires Classified(outputs, glob, config, pools)
    requires forall output :: output in Functional(outputs) && output.pathname == handler.pathname ==> output == handler
    ensures FirstMatching(outputs, glob, config, handler, k)
    ensures Assigned(pools, outputs, handler.pathname) == Some(config[k].name)
  {
    hide PoolHolding, PoolServing, MatchesSome, Matched, Claimed, Functional, Inherited, IsPathname, IdSet;
    k := ClassificationPartitions(outputs, glob, config, pools, handler);
    assert PoolReceives(outputs, glob, config, k, pools[k]);
    assert HoldsPathname(pools[k], handler.pathname) by {
      var i :| OnlyAt(pools[k].outputs, handler, i);
      assert pools[k].outputs[i].pathname == handler.pathname;
    }
    forall j | k < j < |pools| ensures !HoldsPathname(pools[j], handler.pathname) {
      assert PoolReceives(outputs, glob, config, j, pools[j]);
      assert forall i :: 0 <= i < |pools[j].outputs| ==> pools[j].outputs[i] in pools[j].outputs;
    }
    ServingTheLastPool(pools, handler.pathname, k);
  }

  /** The public alias `/` of `/index` does not inherit: with nothing of its own it falls to the first pool. */
  lemma RootAliasFallsToFirstPool(pools: seq<Pool>, outputs: Outputs)
    requires pools != [] && "/index" in Pathnames(outputs)
    requires forall j :: 0 <= j < |pools| ==> !HoldsPathname(pools[j], "/")
    requires forall i :: 0 <= i < |outputs.prerenders| ==> outputs.prerenders[i].pathname != "/"
    ensures Assigned(pools, outputs, "/") == Some(pools[0].name)
  {
    ServedByNone(pools, "/");
    NoKnownParent(pools, outputs.prerenders, "/");
  }
}

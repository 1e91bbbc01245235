/** What one run of the standby-expiry cleaner does to a cluster in which nobody else moves. */
module RetentionExpiryOutcome {
  import opened RetentionExpiry
  import opened Wrappers

  ghost predicate CleanerStep(config: Config, w: World, w': World) {
    CleanerReads(config, w, w') || CleanerConsiders(config, w, w') || CleanerPatches(w, w')
  }

  ghost predicate LoneRun(config: Config, run: seq<World>) {
    |run| > 0 && forall i :: 0 <= i < |run| - 1 ==> CleanerStep(config, run[i], run[i + 1])
  }

  ghost predicate LeadsTo(config: Config, w: World, run: seq<World>, end: World) {
    LoneRun(config, run) && run[0] == w && run[|run| - 1] == end
  }

  // ---------------------------------------------------------------- the outcome, on the cluster's fields

  /** The state names another build as the previous one. */
  ghost predicate HasPrevious(c: Cluster) {
    && c.state.Some? && c.state.value.previousBuildId.Some? && c.state.value.previousBuildId.value != ""
    && c.state.value.previousBuildId.value != c.state.value.buildId
  }

  ghost predicate BothSafe(config: Config, c: Cluster)
    requires HasPrevious(c)
  {
    config.safeBuildId(c.state.value.buildId) && config.safeBuildId(c.state.value.previousBuildId.value)
  }

  /** Both builds have pools, and all traffic is on the current one. */
  ghost predicate GoesAhead(config: Config, c: Cluster)
    requires HasPrevious(c)
  {
    var state := c.state.value;
    var current := config.sanitize(state.buildId);
    var origin := config.sanitize(config.release + "-origin");
    && state.buildId in state.topologies && state.topologies[state.buildId] != []
    && state.previousBuildId.value in state.topologies && state.topologies[state.previousBuildId.value] != []
    && (forall pool :: pool in state.topologies[state.buildId] ==>
          var stable := config.sanitize(config.release + "-" + pool);
          stable in c.services && c.services[stable] == current)
    && (origin in c.services ==> c.services[origin] == current)
  }

  /** The Deployments to scale to zero: expired standbys that no autoscaler targets. */
  ghost function Standbys(config: Config, c: Cluster): set<string>
    requires c.state.Some?
  {
    set name | name in c.deployments && name !in c.hpaTargets
               && ExpiredStandby(config, c.state.value, c.clock, name, c.deployments[name])
  }

  /** The named Deployments have no replicas and a newer version; nothing else has changed. */
  ghost predicate ScaledToZero(c: Cluster, c': Cluster, names: set<string>) {
    && c' == c.(deployments := c'.deployments) && c'.deployments.Keys == c.deployments.Keys
    && forall name :: name in c.deployments ==> IsScaled(c.deployments[name], c'.deployments[name], name in names)
  }

  ghost predicate IsScaled(d: Deployment, d': Deployment, scaled: bool) {
    if scaled then d'.resourceVersion > d.resourceVersion && d' == d.(replicas := 0, resourceVersion := d'.resourceVersion)
    else d' == d
  }

  /** Nothing without a previous build; an error for an unsafe one; else the standbys, counted. */
  ghost predicate Outcome(config: Config, c: Cluster, end: World) {
    if !HasPrevious(c) then
      end == World(c, Done(0))
    else if !BothSafe(config, c) then
      end == World(c, Failed)
    else if !GoesAhead(config, c) then
      end == World(c, Done(0))
    else
      end.cleaner == Done(|Standbys(config, c)|) && ScaledToZero(c, end.cluster, Standbys(config, c))
  }

  // ---------------------------------------------------------------- the code's guards and these

  lemma GuardsAgree(config: Config, c: Cluster)
    requires HasPrevious(c)
    ensures StateIsRefused(config, c.state.value) <==> !BothSafe(config, c)
    ensures StateAllowsCleanup(config, c.state.value) && TrafficIsCurrent(config, c.state.value, c.services)
       <==> BothSafe(config, c) && GoesAhead(config, c)
  {
  }

  lemma NoPreviousNoCleanup(config: Config, c: Cluster)
    requires !HasPrevious(c)
    ensures c.state.Some? ==> !StateAllowsCleanup(config, c.state.value) && !StateIsRefused(config, c.state.value)
  {
  }

  // ---------------------------------------------------------------- where a lone run is

  /** While the list is gone through: what is off it is done, what is on it is untouched. */
  ghost predicate Working(config: Config, c: Cluster, w: World, snapshot: Snapshot, hpas: set<string>,
                          rest: set<string>, scaled: set<string>)
  {
    && HasPrevious(c) && BothSafe(config, c) && GoesAhead(config, c)
    && snapshot == Snapshot(c.clock, c.state.value, c.deployments) && hpas == c.hpaTargets
    && rest <= c.deployments.Keys && scaled == Standbys(config, c) - rest
    && ScaledToZero(c, w.cluster, scaled)
  }

  ghost predicate Reached(config: Config, c: Cluster, w: World) {
    match w.cleaner
    case Idle => w.cluster == c
    case Begun(now) => w.cluster == c && now == c.clock
    case StateRead(now, state) =>
      w.cluster == c && now == c.clock && c.state == Some(state) && HasPrevious(c) && StateAllowsCleanup(config, state)
    case DeploymentsListed(snapshot) => w.cluster == c && IsListed(config, c, snapshot)
    case ServicesListed(snapshot, services) => w.cluster == c && IsListed(config, c, snapshot) && services == c.services
    case Looping(snapshot, hpas, pending, scaled) => Working(config, c, w, snapshot, hpas, pending, scaled)
    case Patching(snapshot, hpas, pending, scaled, name) =>
      && Working(config, c, w, snapshot, hpas, pending + {name}, scaled)
      && name !in pending && name in Standbys(config, c)
    case Done(_) => Outcome(config, c, w)
    case Failed => Outcome(config, c, w)
  }

  ghost predicate IsListed(config: Config, c: Cluster, snapshot: Snapshot) {
    && c.state.Some? && snapshot == Snapshot(c.clock, c.state.value, c.deployments)
    && HasPrevious(c) && StateAllowsCleanup(config, c.state.value)
  }

  lemma ReadingReaches(config: Config, c: Cluster, w: World, w': World)
    requires Reached(config, c, w) && CleanerReads(config, w, w')
    ensures Reached(config, c, w')
  {
    if HasPrevious(c) {
      GuardsAgree(config, c);
    } else {
      NoPreviousNoCleanup(config, c);
    }
    hide StateAllowsCleanup, StateIsRefused, TrafficIsCurrent, GoesAhead, HasPrevious, BothSafe, ExpiredStandby;
    if w.cleaner.ServicesListed? && w'.cleaner.Looping? {
      assert Standbys(config, c) - c.deployments.Keys == {};
    }
  }

  lemma EligibleIsStandby(config: Config, c: Cluster, name: string)
    requires c.state.Some? && name in c.deployments
    ensures Eligible(config, c.clock, c.state.value, name, c.deployments[name]) && name !in c.hpaTargets
       <==> name in Standbys(config, c)
  {
    EligibleIff(config, c.clock, c.state.value, name, c.deployments[name]);
    hide Eligible, ExpiredStandby;
  }

  lemma PassingOver(config: Config, c: Cluster, w: World, snapshot: Snapshot, hpas: set<string>, pending: set<string>,
                    scaled: set<string>, name: string)
    requires Working(config, c, w, snapshot, hpas, pending, scaled) && name in pending
    ensures name !in Standbys(config, c) ==> Working(config, c, w, snapshot, hpas, pending - {name}, scaled)
    ensures Working(config, c, w, snapshot, hpas, (pending - {name}) + {name}, scaled)
  {
    hide ScaledToZero, GoesAhead, BothSafe, Standbys;
    assert (pending - {name}) + {name} == pending;
    assert name !in Standbys(config, c) ==> Standbys(config, c) - (pending - {name}) == Standbys(config, c) - pending;
  }

  lemma ListEnds(config: Config, c: Cluster, w: World, snapshot: Snapshot, hpas: set<string>, scaled: set<string>)
    requires Working(config, c, w, snapshot, hpas, {}, scaled)
    ensures Outcome(config, c, World(w.cluster, Done(|scaled|)))
  {
    hide ScaledToZero, GoesAhead, BothSafe, Standbys;
    assert Standbys(config, c) - {} == Standbys(config, c);
  }

  lemma WorkingSays(config: Config, c: Cluster, w: World, snapshot: Snapshot, hpas: set<string>, rest: set<string>, scaled: set<string>)
    requires Working(config, c, w, snapshot, hpas, rest, scaled)
    ensures c.state == Some(snapshot.state) && w.cluster.state == c.state
    ensures snapshot == Snapshot(c.clock, c.state.value, c.deployments) && hpas == c.hpaTargets
    ensures rest <= c.deployments.Keys && scaled == Standbys(config, c) - rest
  {
    hide GoesAhead, BothSafe, Standbys, IsScaled;
  }

  lemma WorkingScales(config: Config, c: Cluster, w: World, snapshot: Snapshot, hpas: set<string>, rest: set<string>, scaled: set<string>)
    requires Working(config, c, w, snapshot, hpas, rest, scaled)
    ensures w.cluster == c.(deployments := w.cluster.deployments) && w.cluster.deployments.Keys == c.deployments.Keys
    ensures forall name :: name in c.deployments ==> IsScaled(c.deployments[name], w.cluster.deployments[name], name in scaled)
  {
    hide GoesAhead, BothSafe, Standbys, IsScaled;
  }

  lemma ConsideringReaches(config: Config, c: Cluster, w: World, w': World)
    requires Reached(config, c, w) && CleanerConsiders(config, w, w')
    ensures Reached(config, c, w')
  {
    var Looping(snapshot, hpas, pending, scaled) := w.cleaner;
    if pending == {} {
      ListEnds(config, c, w, snapshot, hpas, scaled);
      assert w' == World(w.cluster, Done(|scaled|));
      hide Working, Outcome;
    } else {
      hide Reached, Working;
      var name :| ConsidersOne(config, w, w', name);
      OneConsidered(config, c, w, w', name);
    }
  }

  lemma OneConsidered(config: Config, c: Cluster, w: World, w': World, name: string)
    requires Reached(config, c, w) && w.cleaner.Looping? && w'.cluster == w.cluster && ConsidersOne(config, w, w', name)
    ensures Reached(config, c, w')
  {
    var Looping(snapshot, hpas, pending, scaled) := w.cleaner;
    WorkingSays(config, c, w, snapshot, hpas, pending, scaled);
    EligibleIsStandby(config, c, name);
    PassingOver(config, c, w, snapshot, hpas, pending, scaled, name);
    SameWork(config, c, w, w', snapshot, hpas, pending, scaled, name);
    hide Working, Eligible, Standbys, Outcome;
  }

  lemma SameWork(config: Config, c: Cluster, w: World, w': World, snapshot: Snapshot, hpas: set<string>, pending: set<string>,
                 scaled: set<string>, name: string)
    requires w'.cluster == w.cluster
    ensures Working(config, c, w, snapshot, hpas, pending - {name}, scaled)
         == Working(config, c, w', snapshot, hpas, pending - {name}, scaled)
    ensures Working(config, c, w, snapshot, hpas, (pending - {name}) + {name}, scaled)
         == Working(config, c, w', snapshot, hpas, (pending - {name}) + {name}, scaled)
  {
  }

  lemma PatchingReaches(config: Config, c: Cluster, w: World, w': World)
    requires Reached(config, c, w) && CleanerPatches(w, w')
    ensures Reached(config, c, w')
  {
    var Patching(snapshot, hpas, pending, scaled, name) := w.cleaner;
    hide ExpiredStandby, GoesAhead, BothSafe, HasPrevious, Standbys;
    assert name !in scaled;
    assert IsScaled(c.deployments[name], w.cluster.deployments[name], false);
    assert Standbys(config, c) - pending == scaled + {name};
  }

  lemma {:induction false} RunReaches(config: Config, run: seq<World>, i: nat)
    requires LoneRun(config, run) && i < |run| && run[0].cleaner.Idle?
    ensures Reached(config, run[0].cluster, run[i])
  {
    hide CleanerReads, CleanerConsiders, CleanerPatches, Reached;
    if i == 0 {
      IdleIsReached(config, run[0]);
    } else {
      RunReaches(config, run, i - 1);
      assert CleanerStep(config, run[i - 1], run[i - 1 + 1]);
      if CleanerReads(config, run[i - 1], run[i]) {
        ReadingReaches(config, run[0].cluster, run[i - 1], run[i]);
      } else if CleanerConsiders(config, run[i - 1], run[i]) {
        ConsideringReaches(config, run[0].cluster, run[i - 1], run[i]);
      } else {
        PatchingReaches(config, run[0].cluster, run[i - 1], run[i]);
      }
    }
  }

  lemma IdleIsReached(config: Config, w: World)
    requires w.cleaner.Idle?
    ensures Reached(config, w.cluster, w)
  {
  }

  // ---------------------------------------------------------------- the run to an outcome

  lemma Extend(config: Config, w: World, run: seq<World>, t: World, next: World) returns (longer: seq<World>)
    requires LeadsTo(config, w, run, t) && CleanerStep(config, t, next)
    ensures LeadsTo(config, w, longer, next)
  {
    hide CleanerStep;
    longer := run + [next];
    forall i | 0 <= i < |longer| - 1 ensures CleanerStep(config, longer[i], longer[i + 1]) {
      if i < |run| - 1 {
        assert CleanerStep(config, run[i], run[i + 1]);
      }
    }
  }

  lemma Start(config: Config, w: World) returns (run: seq<World>)
    ensures LeadsTo(config, w, run, w)
  {
    run := [w];
  }

  /** Up to the list, or to the guard that ends the run. */
  lemma ReadsHappen(config: Config, w: World) returns (run: seq<World>, t: World)
    requires w.cleaner.Idle?
    ensures LeadsTo(config, w, run, t)
    ensures var c := w.cluster;
            if HasPrevious(c) && BothSafe(config, c) && GoesAhead(config, c) then
              t == World(c, Looping(Snapshot(c.clock, c.state.value, c.deployments), c.hpaTargets, c.deployments.Keys, {}))
            else t.cluster == c && (t.cleaner.Done? || t.cleaner.Failed?)
  {
    var c := w.cluster;
    if HasPrevious(c) {
      GuardsAgree(config, c);
    } else {
      NoPreviousNoCleanup(config, c);
    }
    hide StateAllowsCleanup, StateIsRefused, TrafficIsCurrent, GoesAhead, BothSafe, HasPrevious, LeadsTo;
    run := Start(config, w);
    t := World(c, Begun(c.clock));
    run := Extend(config, w, run, w, t);
    if c.state.Some? && StateAllowsCleanup(config, c.state.value) {
      var state := c.state.value;
      run, t := Onward(config, w, run, t, World(c, StateRead(c.clock, state)));
      var snapshot := Snapshot(c.clock, state, c.deployments);
      run, t := Onward(config, w, run, t, World(c, DeploymentsListed(snapshot)));
      run, t := Onward(config, w, run, t, World(c, ServicesListed(snapshot, c.services)));
      if TrafficIsCurrent(config, state, c.services) {
        run, t := Onward(config, w, run, t, World(c, Looping(snapshot, c.hpaTargets, c.deployments.Keys, {})));
      } else {
        run, t := Onward(config, w, run, t, World(c, Done(0)));
      }
    } else if c.state.Some? && StateIsRefused(config, c.state.value) {
      run, t := Onward(config, w, run, t, World(c, Failed));
    } else {
      run, t := Onward(config, w, run, t, World(c, Done(0)));
    }
  }

  lemma Onward(config: Config, w: World, run: seq<World>, t: World, next: World) returns (longer: seq<World>, at: World)
    requires LeadsTo(config, w, run, t) && CleanerReads(config, t, next)
    ensures LeadsTo(config, w, longer, next) && at == next
  {
    hide CleanerReads, LeadsTo;
    longer := Extend(config, w, run, t, next);
    at := next;
  }

  lemma OutcomeSays(config: Config, c: Cluster, t: World, end: World)
    requires Outcome(config, c, end) && Reached(config, c, t) && t.cleaner.Looping?
    ensures c.state.Some? && end.cleaner == Done(|Standbys(config, c)|)
    ensures end.cluster == c.(deployments := end.cluster.deployments) && end.cluster.deployments.Keys == c.deployments.Keys
    ensures forall name :: name in c.deployments ==>
              IsScaled(c.deployments[name], end.cluster.deployments[name], name in Standbys(config, c))
  {
    hide GoesAhead, BothSafe, Standbys, IsScaled;
  }

  /** Going through the list, with the versions that `end` has. */
  lemma {:induction false} LoopHappens(config: Config, w: World, run: seq<World>, t: World, end: World) returns (longer: seq<World>)
    requires LeadsTo(config, w, run, t) && t.cleaner.Looping? && Reached(config, w.cluster, t)
    requires Outcome(config, w.cluster, end)
    requires forall name :: name in w.cluster.deployments && name !in t.cleaner.pending ==>
               name in t.cluster.deployments && t.cluster.deployments[name] == end.cluster.deployments[name]
    ensures LeadsTo(config, w, longer, end)
    decreases |t.cleaner.pending|
  {
    var c := w.cluster;
    var Looping(snapshot, hpas, pending, scaled) := t.cleaner;
    WorkingSays(config, c, t, snapshot, hpas, pending, scaled);
    WorkingScales(config, c, t, snapshot, hpas, pending, scaled);
    OutcomeSays(config, c, t, end);
    hide Reached, Outcome, Working, LeadsTo, Standbys, IsScaled;
    if pending == {} {
      assert Standbys(config, c) - pending == Standbys(config, c);
      assert t.cluster.deployments == end.cluster.deployments;
      longer := Extend(config, w, run, t, end);
    } else {
      var name :| name in pending;
      var next: World;
      longer, next := OneHandled(config, w, run, t, end, name);
      longer := LoopHappens(config, w, longer, next, end);
    }
  }

  /** One Deployment taken off the list, and scaled to `end`'s version if it is a standby. */
  lemma OneHandled(config: Config, w: World, run: seq<World>, t: World, end: World, name: string)
    returns (longer: seq<World>, next: World)
    requires LeadsTo(config, w, run, t) && t.cleaner.Looping? && Reached(config, w.cluster, t)
    requires name in t.cleaner.pending && name in end.cluster.deployments
    requires IsScaled(w.cluster.deployments[name], end.cluster.deployments[name], name in Standbys(config, w.cluster))
    requires forall other :: other in w.cluster.deployments && other !in t.cleaner.pending ==>
               other in t.cluster.deployments && other in end.cluster.deployments
               && t.cluster.deployments[other] == end.cluster.deployments[other]
    ensures LeadsTo(config, w, longer, next) && Reached(config, w.cluster, next)
    ensures next.cleaner.Looping? && next.cleaner.pending == t.cleaner.pending - {name}
    ensures forall other :: other in w.cluster.deployments && other !in next.cleaner.pending ==>
              other in next.cluster.deployments && other in end.cluster.deployments
              && next.cluster.deployments[other] == end.cluster.deployments[other]
  {
    var c := w.cluster;
    var Looping(snapshot, hpas, pending, scaled) := t.cleaner;
    WorkingSays(config, c, t, snapshot, hpas, pending, scaled);
    WorkingScales(config, c, t, snapshot, hpas, pending, scaled);
    EligibleIsStandby(config, c, name);
    hide LeadsTo, Eligible, ExpiredStandby, Working, Standbys;
    assert IsScaled(c.deployments[name], t.cluster.deployments[name], name in scaled);
    if name in Standbys(config, c) {
      var patching := World(t.cluster, Patching(snapshot, hpas, pending - {name}, scaled, name));
      assert ConsidersOne(config, t, patching, name);
      ConsideringReaches(config, c, t, patching);
      longer := Extend(config, w, run, t, patching);
      var version := end.cluster.deployments[name].resourceVersion;
      next := World(t.cluster.(deployments := t.cluster.deployments[
                                 name := t.cluster.deployments[name].(replicas := 0, resourceVersion := version)]),
                    Looping(snapshot, hpas, pending - {name}, scaled + {name}));
      assert CleanerPatches(patching, next);
      PatchingReaches(config, c, patching, next);
      longer := Extend(config, w, longer, patching, next);
    } else {
      next := World(t.cluster, Looping(snapshot, hpas, pending - {name}, scaled));
      assert ConsidersOne(config, t, next, name);
      ConsideringReaches(config, c, t, next);
      longer := Extend(config, w, run, t, next);
    }
  }

  lemma OutcomeHappens(config: Config, w: World, end: World) returns (run: seq<World>)
    requires w.cleaner.Idle? && Outcome(config, w.cluster, end)
    ensures LeadsTo(config, w, run, end)
  {
    var t: World;
    run, t := ReadsHappen(config, w);
    RunReaches(config, run, |run| - 1);
    if t.cleaner.Looping? {
      hide LeadsTo, ExpiredStandby, GoesAhead, BothSafe, HasPrevious;
      run := LoopHappens(config, w, run, t, end);
    }
  }

  /**
   In a cluster that stands still a run that starts can end as stated and in no other way: without a
   previous build, without pools, or with traffic elsewhere it changes nothing and returns 0; a build
   id that is no safe name is an error; otherwise exactly the expired standbys that no autoscaler
   targets are scaled to zero, and their number is returned.
   */
  lemma LoneCleanerOutcome(config: Config, w: World, end: World)
    requires w.cleaner.Idle?
    ensures (exists run :: LeadsTo(config, w, run, end) && (end.cleaner.Done? || end.cleaner.Failed?))
       <==> Outcome(config, w.cluster, end)
  {
    if run :| LeadsTo(config, w, run, end) && (end.cleaner.Done? || end.cleaner.Failed?) {
      RunReaches(config, run, |run| - 1);
    }
    if Outcome(config, w.cluster, end) {
      var run := OutcomeHappens(config, w, end);
    }
  }

  // ---------------------------------------------------------------- among others

  /** A lone run is one of the runs in which anybody may move. */
  lemma LoneRunIsRun(config: Config, run: seq<World>)
    requires LoneRun(config, run) && Initial(config, run[0])
    ensures IsRun(config, run)
  {
    hide CleanerReads, CleanerConsiders, CleanerPatches, Initial;
    forall i | 0 <= i < |run| - 1 ensures Next(config, run[i], run[i + 1]) {
      assert CleanerStep(config, run[i], run[i + 1]);
    }
  }

  ghost predicate UidIsUnique(c: Cluster, name: string)
    requires name in c.deployments
  {
    forall other :: other in c.deployments && other != name ==> c.deployments[other].uid != c.deployments[name].uid
  }

  /** An open promotion may renew the Deployment that is about to be patched, and then the patch does nothing. */
  lemma RenewalDefeatsPatch(config: Config, w: World, id: nat) returns (renewed: World, after: World)
    requires PatchWillSucceed(w) && PromiseKept(config, w.cluster) && id in w.cluster.promotions
    requires UidIsUnique(w.cluster, w.cleaner.name)
    ensures Next(config, w, renewed) && Next(config, renewed, after)
    ensures renewed.cleaner == w.cleaner && after.cluster == renewed.cluster
    ensures after.cleaner == Looping(w.cleaner.snapshot, w.cleaner.hpas, w.cleaner.pending, w.cleaner.scaled)
    ensures w.cleaner.name in after.cluster.deployments
    ensures after.cluster.deployments[w.cleaner.name].replicas == w.cluster.deployments[w.cleaner.name].replicas
  {
    var c, name := w.cluster, w.cleaner.name;
    var d, p := c.deployments[name], c.promotions[id];
    var later := d.(annotation := Json(p.buildId, (c.clock + PROTECTION_MS) as real), resourceVersion := d.resourceVersion + 1);
    var c' := c.(deployments := c.deployments[name := later], promotions := c.promotions[id := p.(renewed := p.renewed + {d.uid})]);
    assert RenewsMarker(c, c', id, name);
    RenewedIsUnexpired(config, later, c.clock);
    hide ParseExpiryMarker, Unexpired;
    renewed := World(c', w.cleaner);
    after := World(c', Looping(w.cleaner.snapshot, w.cleaner.hpas, w.cleaner.pending, w.cleaner.scaled));
    RenewalKeepsPromise(config, c, c', id, name);
  }

  lemma RenewedIsUnexpired(config: Config, d: Deployment, clock: int)
    requires d.annotation.Json? && d.annotation.expiresAt == (clock + PROTECTION_MS) as real
    ensures Unexpired(config, d, clock)
  {
  }

  lemma RenewalKeepsPromise(config: Config, c: Cluster, c': Cluster, id: nat, name: string)
    requires PromiseKept(config, c) && RenewsMarker(c, c', id, name) && UidIsUnique(c, name) && Unexpired(config, c'.deployments[name], c'.clock)
    ensures PromiseKept(config, c')
  {
    hide Unexpired;
  }
}

/**
 One run of the standby-expiry cleaner against promotions and any other writers of the cluster.

 Every API call of the cleaner is one step; promotions, controllers, users and the clock take
 steps in between. A promotion is trusted for what the cleaner's comments promise of it: it
 renews the marker of its build's Deployments before it flips a selector, and those markers stay
 unexpired while it is open.
 */
module RetentionExpiry {
  import opened Wrappers

  const MAX_SAFE_INTEGER := 0x1F_FFFF_FFFF_FFFF
  const PROTECTION_MS := 3_600_000

  /** The expiry annotation's text, as JSON sees it. */
  datatype Annotation = Missing | Unusable | Json(buildId: string, expiresAt: real)

  datatype Marker = Marker(buildId: string, expiresAt: int)

  datatype Deployment = Deployment(
    uid: nat,
    resourceVersion: nat,
    replicas: int,
    annotation: Annotation,
    release: string,
    version: string,
    component: string,
    deleting: bool)

  datatype AdapterState = AdapterState(
    buildId: string, previousBuildId: Option<string>, topologies: map<string, seq<string>>)

  /** Release name, name sanitiser and build-id check. */
  datatype Config = Config(release: string, sanitize: string -> string, safeBuildId: string -> bool)

  /** An open promotion of `buildId`, with the uids of the Deployments whose markers it renewed. */
  datatype Promotion = Promotion(buildId: string, renewed: set<nat>)

  datatype Cluster = Cluster(
    clock: int,
    state: Option<AdapterState>,
    deployments: map<string, Deployment>,
    services: map<string, string>,
    hpaTargets: set<string>,
    promotions: map<nat, Promotion>,
    nextUid: nat)

  // ---------------------------------------------------------------- the cleaner's tests

  function ParseExpiryMarker(config: Config, raw: Annotation): Option<Marker> {
    match raw
    case Json(buildId, expiresAt) =>
      if !config.safeBuildId(buildId) then None
      else if expiresAt.Floor as real != expiresAt || expiresAt <= 0.0
              || expiresAt > MAX_SAFE_INTEGER as real then None
      else Some(Marker(buildId, expiresAt.Floor))
    case _ => None
  }

  function StableService(config: Config, pool: string): string {
    config.sanitize(config.release + "-" + pool)
  }

  function OriginService(config: Config): string {
    config.sanitize(config.release + "-origin")
  }

  function DeploymentName(config: Config, pool: string, buildId: string): string {
    config.sanitize(config.release + "-" + pool + "-" + buildId)
  }

  function Pools(state: AdapterState, buildId: string): seq<string> {
    if buildId in state.topologies then state.topologies[buildId] else []
  }

  /** The state names a previous build to expire, and both topologies are known. */
  predicate StateAllowsCleanup(config: Config, state: AdapterState) {
    && NamesPrevious(state)
    && config.safeBuildId(state.buildId) && config.safeBuildId(state.previousBuildId.value)
    && |Pools(state, state.buildId)| > 0
    && |Pools(state, state.previousBuildId.value)| > 0
  }

  predicate NamesPrevious(state: AdapterState) {
    state.previousBuildId.Some? && state.previousBuildId.value != "" && state.buildId != state.previousBuildId.value
  }

  /** A build id that is no safe name stops the run with an error. */
  predicate StateIsRefused(config: Config, state: AdapterState) {
    NamesPrevious(state) && !(config.safeBuildId(state.buildId) && config.safeBuildId(state.previousBuildId.value))
  }

  /** Every current pool's stable Service, and the origin Service if there is one, is on the current build. */
  predicate TrafficIsCurrent(config: Config, state: AdapterState, services: map<string, string>) {
    var active := config.sanitize(state.buildId);
    && (forall pool :: pool in Pools(state, state.buildId) ==>
          var name := StableService(config, pool);
          name in services && services[name] == active)
    && (OriginService(config) in services ==> services[OriginService(config)] == active)
  }

  /** The standby Deployment's own fields allow scaling it to zero. */
  predicate Eligible(config: Config, now: int, state: AdapterState, name: string, d: Deployment) {
    var marker := ParseExpiryMarker(config, d.annotation);
    && state.previousBuildId.Some?
    && marker.Some?
    && marker.value.buildId == state.previousBuildId.value
    && marker.value.expiresAt <= now
    && !d.deleting
    && 0 < d.replicas <= MAX_SAFE_INTEGER
    && d.release == config.release
    && d.version == config.sanitize(marker.value.buildId)
    && d.component in Pools(state, state.previousBuildId.value)
    && name == DeploymentName(config, d.component, marker.value.buildId)
  }

  // ---------------------------------------------------------------- the cleaner as an actor

  /** What the cleaner has read: its clock, the state, and the listed Deployments. */
  datatype Snapshot = Snapshot(now: int, state: AdapterState, deployments: map<string, Deployment>)

  datatype Cleaner =
    | Idle
    | Begun(now: int)
    | StateRead(now: int, state: AdapterState)
    | DeploymentsListed(snapshot: Snapshot)
    | ServicesListed(snapshot: Snapshot, services: map<string, string>)
    | Looping(snapshot: Snapshot, hpas: set<string>, pending: set<string>, scaled: set<string>)
    | Patching(snapshot: Snapshot, hpas: set<string>, pending: set<string>, scaled: set<string>, name: string)
    | Done(count: nat)
    | Failed

  datatype World = World(cluster: Cluster, cleaner: Cleaner)

  /** Read the clock, then the state, then Deployments, then Services, then HPAs and the guards. */
  ghost predicate CleanerReads(config: Config, w: World, w': World) {
    && w'.cluster == w.cluster
    && match w.cleaner
       case Idle => w'.cleaner == Begun(w.cluster.clock)
       case Begun(now) =>
         w'.cleaner == if w.cluster.state.Some? && StateAllowsCleanup(config, w.cluster.state.value)
                       then StateRead(now, w.cluster.state.value)
                       else if w.cluster.state.Some? && StateIsRefused(config, w.cluster.state.value) then Failed
                       else Done(0)
       case StateRead(now, state) =>
         w'.cleaner == DeploymentsListed(Snapshot(now, state, w.cluster.deployments))
       case DeploymentsListed(snapshot) =>
         w'.cleaner == ServicesListed(snapshot, w.cluster.services)
       case ServicesListed(snapshot, services) =>
         w'.cleaner == if TrafficIsCurrent(config, snapshot.state, services)
                       then Looping(snapshot, w.cluster.hpaTargets, snapshot.deployments.Keys, {}) else Done(0)
       case _ => false
  }

  /** Pass over a Deployment, stop because the state changed, or go on to patch it. */
  ghost predicate CleanerConsiders(config: Config, w: World, w': World) {
    && w'.cluster == w.cluster
    && w.cleaner.Looping?
    && var Looping(snapshot, hpas, pending, scaled) := w.cleaner;
       if pending == {} then w'.cleaner == Done(|scaled|) else exists name :: ConsidersOne(config, w, w', name)
  }

  ghost predicate ConsidersOne(config: Config, w: World, w': World, name: string)
    requires w.cleaner.Looping?
  {
    var Looping(snapshot, hpas, pending, scaled) := w.cleaner;
    && name in pending && name in snapshot.deployments
    && w'.cleaner ==
       if !Eligible(config, snapshot.now, snapshot.state, name, snapshot.deployments[name]) || name in hpas
       then Looping(snapshot, hpas, pending - {name}, scaled)
       else if w.cluster.state != Some(snapshot.state) then Done(|scaled|)
       else Patching(snapshot, hpas, pending - {name}, scaled, name)
  }

  /** The patch's two `test` operations. */
  predicate Unchanged(cluster: Cluster, name: string, listed: Deployment) {
    && name in cluster.deployments
    && cluster.deployments[name].uid == listed.uid
    && cluster.deployments[name].resourceVersion == listed.resourceVersion
  }

  /** Scale to zero if both tests pass; otherwise the API refuses and nothing changes. */
  ghost predicate CleanerPatches(w: World, w': World) {
    && w.cleaner.Patching?
    && var Patching(snapshot, hpas, pending, scaled, name) := w.cleaner;
       && name in snapshot.deployments
       && if Unchanged(w.cluster, name, snapshot.deployments[name]) then
            && w'.cleaner == Looping(snapshot, hpas, pending, scaled + {name})
            && exists version ::
                 && version > w.cluster.deployments[name].resourceVersion
                 && w'.cluster == w.cluster.(deployments := w.cluster.deployments[
                      name := w.cluster.deployments[name].(replicas := 0, resourceVersion := version)])
          else
            w'.cluster == w.cluster && w'.cleaner == Looping(snapshot, hpas, pending, scaled)
  }

  /** Any API call may fail, which ends the run. */
  ghost predicate CleanerFails(w: World, w': World) {
    w'.cluster == w.cluster && w'.cleaner.Failed?
  }

  // ---------------------------------------------------------------- everybody else

  /** The promise: while a promotion is open, no Deployment it renewed carries an expired marker. */
  ghost predicate PromiseKept(config: Config, cluster: Cluster) {
    forall id, name ::
      id in cluster.promotions && name in cluster.deployments
      && cluster.deployments[name].uid in cluster.promotions[id].renewed ==>
        Unexpired(config, cluster.deployments[name], cluster.clock)
  }

  predicate Unexpired(config: Config, d: Deployment, clock: int) {
    var marker := ParseExpiryMarker(config, d.annotation);
    marker.Some? ==> marker.value.expiresAt > clock
  }

  /** Every Deployment of the build has been renewed, or carries no marker to expire. */
  ghost predicate BuildProtected(config: Config, cluster: Cluster, promotion: Promotion) {
    forall name :: name in cluster.deployments
                   && cluster.deployments[name].version == config.sanitize(promotion.buildId) ==>
      cluster.deployments[name].uid in promotion.renewed
      || ParseExpiryMarker(config, cluster.deployments[name].annotation).None?
  }

  ghost predicate ClusterMoves(config: Config, c: Cluster, c': Cluster) {
    && PromiseKept(config, c')
    && (|| Ticks(c, c')
        || PromotionOpens(c, c')
        || PromotionRenews(c, c')
        || PromotionFlips(config, c, c')
        || PromotionCommits(c, c')
        || PromotionCloses(c, c')
        || DeploymentWritten(c, c')
        || DeploymentCreated(c, c')
        || DeploymentDeleted(c, c')
        || HpasChange(c, c'))
  }

  ghost predicate Ticks(c: Cluster, c': Cluster) {
    c'.clock >= c.clock && c' == c.(clock := c'.clock)
  }

  ghost predicate PromotionOpens(c: Cluster, c': Cluster) {
    exists id: nat, buildId ::
      id !in c.promotions && c' == c.(promotions := c.promotions[id := Promotion(buildId, {})])
  }

  /** Merge-patch the marker of one Deployment: valid for an hour from now. */
  ghost predicate PromotionRenews(c: Cluster, c': Cluster) {
    exists id, name :: RenewsMarker(c, c', id, name)
  }

  ghost predicate RenewsMarker(c: Cluster, c': Cluster, id: nat, name: string) {
    && id in c.promotions && name in c.deployments && name in c'.deployments
    && var d, p := c.deployments[name], c.promotions[id];
       var renewed := d.(annotation := Json(p.buildId, (c.clock + PROTECTION_MS) as real),
                         resourceVersion := c'.deployments[name].resourceVersion);
       && renewed.resourceVersion > d.resourceVersion
       && c' == c.(deployments := c.deployments[name := renewed],
                   promotions := c.promotions[id := p.(renewed := p.renewed + {d.uid})])
  }

  /** Only a promotion moves a selector, and only once its build is protected. */
  ghost predicate PromotionFlips(config: Config, c: Cluster, c': Cluster) {
    exists id, service :: FlipsService(config, c, c', id, service)
  }

  ghost predicate FlipsService(config: Config, c: Cluster, c': Cluster, id: nat, service: string) {
    && id in c.promotions && BuildProtected(config, c, c.promotions[id])
    && c' == c.(services := c.services[service := config.sanitize(c.promotions[id].buildId)])
  }

  ghost predicate PromotionCommits(c: Cluster, c': Cluster) {
    c' == c.(state := c'.state)
  }

  /** A promotion ends by finishing or by crashing at any point. */
  ghost predicate PromotionCloses(c: Cluster, c': Cluster) {
    exists id :: id in c.promotions && c' == c.(promotions := c.promotions - {id})
  }

  /** Any other write of an existing Deployment: it keeps its uid and gets a newer version. */
  ghost predicate DeploymentWritten(c: Cluster, c': Cluster) {
    exists name, d: Deployment ::
      && name in c.deployments
      && d.uid == c.deployments[name].uid && d.resourceVersion > c.deployments[name].resourceVersion
      && c' == c.(deployments := c.deployments[name := d])
  }

  /** A new object gets a uid never used before; its version may be any number. */
  ghost predicate DeploymentCreated(c: Cluster, c': Cluster) {
    exists name, d: Deployment ::
      && name !in c.deployments && d.uid == c.nextUid
      && c' == c.(deployments := c.deployments[name := d], nextUid := c.nextUid + 1)
  }

  ghost predicate DeploymentDeleted(c: Cluster, c': Cluster) {
    exists name :: name in c.deployments && c' == c.(deployments := c.deployments - {name})
  }

  ghost predicate HpasChange(c: Cluster, c': Cluster) {
    c' == c.(hpaTargets := c'.hpaTargets)
  }

  ghost predicate Next(config: Config, w: World, w': World) {
    || CleanerReads(config, w, w')
    || CleanerConsiders(config, w, w')
    || CleanerPatches(w, w')
    || CleanerFails(w, w')
    || (w'.cleaner == w.cleaner && ClusterMoves(config, w.cluster, w'.cluster))
  }

  ghost predicate Initial(config: Config, w: World) {
    && w.cleaner.Idle?
    && PromiseKept(config, w.cluster)
    && UidsInUse(w.cluster)
  }

  ghost predicate UidsInUse(c: Cluster) {
    forall name :: name in c.deployments ==> c.deployments[name].uid < c.nextUid
  }

  // ---------------------------------------------------------------- the fence

  /** A listed object's uid is used up, and the same uid and version mean the same object. */
  ghost predicate SnapshotSound(c: Cluster, listed: map<string, Deployment>) {
    forall name :: name in listed ==>
      && listed[name].uid < c.nextUid
      && (name in c.deployments && c.deployments[name].uid == listed[name].uid ==>
            && c.deployments[name].resourceVersion >= listed[name].resourceVersion
            && (c.deployments[name].resourceVersion == listed[name].resourceVersion ==>
                  c.deployments[name] == listed[name]))
  }

  /** The Services the cleaner guards: the origin and the current pools' stable ones. */
  ghost predicate Guarded(config: Config, state: AdapterState, service: string) {
    || service == OriginService(config)
    || exists pool :: pool in Pools(state, state.buildId) && service == StableService(config, pool)
  }

  predicate ExpiredAt(config: Config, d: Deployment, now: int) {
    var marker := ParseExpiryMarker(config, d.annotation);
    marker.Some? && marker.value.expiresAt <= now
  }

  /**
   No Service that this state guards selects a listed, expired Deployment still unchanged, unless
   it is on the build the cleaner read as current.
   */
  ghost predicate FencedFor(config: Config, c: Cluster, snapshot: Snapshot, state: AdapterState) {
    forall service, name ::
      Guarded(config, state, service) && service in c.services
      && c.services[service] != config.sanitize(snapshot.state.buildId)
      && name in snapshot.deployments && snapshot.deployments[name].version == c.services[service]
      && ExpiredAt(config, snapshot.deployments[name], snapshot.now) ==>
        !Unchanged(c, name, snapshot.deployments[name])
  }

  ghost predicate TrafficFenced(config: Config, c: Cluster, snapshot: Snapshot) {
    FencedFor(config, c, snapshot, snapshot.state)
  }

  ghost predicate SnapshotHolds(config: Config, c: Cluster, snapshot: Snapshot) {
    && snapshot.now <= c.clock
    && StateAllowsCleanup(config, snapshot.state)
    && SnapshotSound(c, snapshot.deployments)
  }

  ghost predicate CleanerSound(config: Config, c: Cluster, cleaner: Cleaner) {
    match cleaner
    case Idle => true
    case Begun(now) => now <= c.clock
    case StateRead(now, state) => now <= c.clock && StateAllowsCleanup(config, state)
    case DeploymentsListed(snapshot) => SnapshotHolds(config, c, snapshot)
    case ServicesListed(snapshot, services) =>
      && SnapshotHolds(config, c, snapshot)
      && (TrafficIsCurrent(config, snapshot.state, services) ==> TrafficFenced(config, c, snapshot))
    case Looping(snapshot, _, pending, scaled) =>
      && SnapshotHolds(config, c, snapshot) && TrafficFenced(config, c, snapshot)
      && pending <= snapshot.deployments.Keys && pending !! scaled
    case Patching(snapshot, _, pending, scaled, name) =>
      && SnapshotHolds(config, c, snapshot) && TrafficFenced(config, c, snapshot)
      && pending <= snapshot.deployments.Keys && pending !! scaled && name !in pending + scaled
      && name in snapshot.deployments
      && Eligible(config, snapshot.now, snapshot.state, name, snapshot.deployments[name])
    case Done(_) => true
    case Failed => true
  }

  ghost predicate Inv(config: Config, w: World) {
    && PromiseKept(config, w.cluster)
    && UidsInUse(w.cluster)
    && CleanerSound(config, w.cluster, w.cleaner)
  }

  /** Writers only raise versions, and new objects only get new uids. */
  ghost predicate Monotone(c: Cluster, c': Cluster) {
    && c.clock <= c'.clock && c.nextUid <= c'.nextUid
    && forall name :: name in c'.deployments ==>
         || c'.deployments[name].uid >= c.nextUid
         || (name in c.deployments && c.deployments[name].uid == c'.deployments[name].uid
             && c.deployments[name].resourceVersion <= c'.deployments[name].resourceVersion
             && (c.deployments[name].resourceVersion == c'.deployments[name].resourceVersion ==>
                   c.deployments[name] == c'.deployments[name]))
  }

  lemma ClusterMovesMonotone(config: Config, c: Cluster, c': Cluster)
    requires ClusterMoves(config, c, c') && UidsInUse(c)
    ensures Monotone(c, c') && UidsInUse(c')
  {
    hide PromiseKept, UidsInUse, Monotone, PromotionRenews, DeploymentWritten, DeploymentCreated, DeploymentDeleted;
    if PromotionRenews(c, c') || DeploymentWritten(c, c') {
      WritesAreMonotone(c, c');
    } else if DeploymentCreated(c, c') || DeploymentDeleted(c, c') {
      CreationIsMonotone(c, c');
    } else {
      SameDeploymentsMonotone(c, c');
    }
  }

  lemma WritesAreMonotone(c: Cluster, c': Cluster)
    requires UidsInUse(c) && (PromotionRenews(c, c') || DeploymentWritten(c, c'))
    ensures Monotone(c, c') && UidsInUse(c')
  {
  }

  lemma CreationIsMonotone(c: Cluster, c': Cluster)
    requires UidsInUse(c) && (DeploymentCreated(c, c') || DeploymentDeleted(c, c'))
    ensures Monotone(c, c') && UidsInUse(c')
  {
  }

  lemma SameDeploymentsMonotone(c: Cluster, c': Cluster)
    requires UidsInUse(c) && c'.deployments == c.deployments
    requires c.clock <= c'.clock && c.nextUid <= c'.nextUid
    ensures Monotone(c, c') && UidsInUse(c')
  {
  }

  /** Once a listed Deployment has changed it never looks unchanged again. */
  lemma FenceStaysBroken(c: Cluster, c': Cluster, name: string, listed: Deployment)
    requires Monotone(c, c') && UidsInUse(c)
    requires listed.uid < c.nextUid
    requires name in c.deployments && c.deployments[name].uid == listed.uid ==>
               c.deployments[name].resourceVersion >= listed.resourceVersion
    requires !Unchanged(c, name, listed)
    ensures !Unchanged(c', name, listed)
  {
  }

  lemma SnapshotStaysSound(c: Cluster, c': Cluster, listed: map<string, Deployment>)
    requires Monotone(c, c') && SnapshotSound(c, listed)
    ensures SnapshotSound(c', listed)
  {
  }

  /** Flipping a selector to a protected build breaks the fence of its expired Deployments. */
  lemma FlipBreaksFence(config: Config, c: Cluster, snapshot: Snapshot, id: nat, name: string)
    requires PromiseKept(config, c) && SnapshotHolds(config, c, snapshot)
    requires id in c.promotions && BuildProtected(config, c, c.promotions[id])
    requires name in snapshot.deployments
    requires snapshot.deployments[name].version == config.sanitize(c.promotions[id].buildId)
    requires ExpiredAt(config, snapshot.deployments[name], snapshot.now)
    ensures !Unchanged(c, name, snapshot.deployments[name])
  {
    assert name in c.deployments && c.deployments[name].uid in c.promotions[id].renewed ==>
        Unexpired(config, c.deployments[name], c.clock);
  }

  lemma StaysFencedFor(config: Config, c: Cluster, c': Cluster, snapshot: Snapshot, state: AdapterState)
    requires PromiseKept(config, c) && UidsInUse(c)
    requires SnapshotHolds(config, c, snapshot) && FencedFor(config, c, snapshot, state)
    requires Monotone(c, c')
    requires c'.services == c.services || PromotionFlips(config, c, c')
    ensures FencedFor(config, c', snapshot, state)
  {
    forall service, name |
      Guarded(config, state, service) && service in c'.services
      && c'.services[service] != config.sanitize(snapshot.state.buildId)
      && name in snapshot.deployments && snapshot.deployments[name].version == c'.services[service]
      && ExpiredAt(config, snapshot.deployments[name], snapshot.now)
      ensures !Unchanged(c', name, snapshot.deployments[name])
    {
      var listed := snapshot.deployments[name];
      if service in c.services && c.services[service] == c'.services[service] {
        assert !Unchanged(c, name, listed);
      } else {
        var id, flipped :| FlipsService(config, c, c', id, flipped);
        FlipBreaksFence(config, c, snapshot, id, name);
      }
      FenceStaysBroken(c, c', name, listed);
    }
  }

  lemma TrafficStaysFenced(config: Config, c: Cluster, c': Cluster, snapshot: Snapshot)
    requires PromiseKept(config, c) && UidsInUse(c)
    requires SnapshotHolds(config, c, snapshot) && TrafficFenced(config, c, snapshot)
    requires Monotone(c, c')
    requires c'.services == c.services || PromotionFlips(config, c, c')
    ensures TrafficFenced(config, c', snapshot)
  {
    StaysFencedFor(config, c, c', snapshot, snapshot.state);
  }

  lemma MovesChangeServicesOnlyByFlips(config: Config, c: Cluster, c': Cluster)
    requires ClusterMoves(config, c, c')
    ensures c'.services == c.services || PromotionFlips(config, c, c')
  {
  }

  lemma CleanerStaysSound(config: Config, c: Cluster, c': Cluster, cleaner: Cleaner)
    requires PromiseKept(config, c) && UidsInUse(c) && CleanerSound(config, c, cleaner)
    requires Monotone(c, c')
    requires c'.services == c.services || PromotionFlips(config, c, c')
    ensures CleanerSound(config, c', cleaner)
  {
    hide PromiseKept, UidsInUse, Monotone, PromotionFlips, TrafficFenced, StateAllowsCleanup, Eligible;
    match cleaner {
      case DeploymentsListed(snapshot) => SnapshotStaysHeld(config, c, c', snapshot);
      case ServicesListed(snapshot, services) =>
        SnapshotStaysHeld(config, c, c', snapshot);
        if TrafficIsCurrent(config, snapshot.state, services) {
          TrafficStaysFenced(config, c, c', snapshot);
        }
      case Looping(snapshot, _, _, _) =>
        SnapshotStaysHeld(config, c, c', snapshot);
        TrafficStaysFenced(config, c, c', snapshot);
      case Patching(snapshot, _, _, _, _) =>
        SnapshotStaysHeld(config, c, c', snapshot);
        TrafficStaysFenced(config, c, c', snapshot);
      case _ => ClockOnly(c, c');
    }
  }

  lemma ClockOnly(c: Cluster, c': Cluster)
    requires Monotone(c, c')
    ensures c.clock <= c'.clock
  {
  }

  lemma SnapshotStaysHeld(config: Config, c: Cluster, c': Cluster, snapshot: Snapshot)
    requires SnapshotHolds(config, c, snapshot) && Monotone(c, c')
    ensures SnapshotHolds(config, c', snapshot)
  {
    SnapshotStaysSound(c, c', snapshot.deployments);
  }

  /** Traffic found current when listed leaves nothing to fence at that moment. */
  lemma CurrentTrafficIsFenced(config: Config, c: Cluster, snapshot: Snapshot)
    requires TrafficIsCurrent(config, snapshot.state, c.services)
    ensures TrafficFenced(config, c, snapshot)
  {
  }

  lemma ReadsKeepInv(config: Config, w: World, w': World)
    requires Inv(config, w) && CleanerReads(config, w, w')
    ensures Inv(config, w')
  {
    hide PromiseKept, StateAllowsCleanup, TrafficFenced, TrafficIsCurrent;
    if w.cleaner.DeploymentsListed? {
      if TrafficIsCurrent(config, w.cleaner.snapshot.state, w.cluster.services) {
        CurrentTrafficIsFenced(config, w.cluster, w.cleaner.snapshot);
      }
    }
  }

  lemma PatchKeepsInv(config: Config, w: World, w': World)
    requires Inv(config, w) && CleanerPatches(w, w')
    ensures Inv(config, w')
  {
    PatchIsAWrite(config, w, w');
    CleanerStaysSound(config, w.cluster, w'.cluster, w.cleaner);
  }

  lemma PatchIsAWrite(config: Config, w: World, w': World)
    requires Inv(config, w) && CleanerPatches(w, w')
    ensures Monotone(w.cluster, w'.cluster) && w'.cluster.services == w.cluster.services
    ensures PromiseKept(config, w'.cluster) && UidsInUse(w'.cluster)
  {
    hide CleanerSound;
  }

  lemma StepKeepsInv(config: Config, w: World, w': World)
    requires Inv(config, w) && Next(config, w, w')
    ensures Inv(config, w')
  {
    hide CleanerReads, CleanerPatches, ClusterMoves, PromiseKept, UidsInUse, TrafficFenced, SnapshotHolds;
    if CleanerReads(config, w, w') {
      ReadsKeepInv(config, w, w');
    } else if CleanerPatches(w, w') {
      PatchKeepsInv(config, w, w');
    } else if w'.cleaner == w.cleaner && ClusterMoves(config, w.cluster, w'.cluster) {
      ClusterMovesMonotone(config, w.cluster, w'.cluster);
      MovesChangeServicesOnlyByFlips(config, w.cluster, w'.cluster);
      CleanerStaysSound(config, w.cluster, w'.cluster, w.cleaner);
      MovesKeepPromise(config, w.cluster, w'.cluster);
    }
  }

  lemma MovesKeepPromise(config: Config, c: Cluster, c': Cluster)
    requires ClusterMoves(config, c, c')
    ensures PromiseKept(config, c')
  {
  }

  // ---------------------------------------------------------------- the results

  ghost predicate IsRun(config: Config, run: seq<World>) {
    && |run| > 0 && Initial(config, run[0])
    && forall i :: 0 <= i < |run| - 1 ==> Next(config, run[i], run[i + 1])
  }

  lemma {:induction false} RunKeepsInv(config: Config, run: seq<World>, i: nat)
    requires IsRun(config, run) && i < |run|
    ensures Inv(config, run[i])
  {
    hide Inv, Next;
    if i == 0 {
      InitialHolds(config, run[0]);
    } else {
      RunKeepsInv(config, run, i - 1);
      assert Next(config, run[i - 1], run[i - 1 + 1]);
      StepKeepsInv(config, run[i - 1], run[i]);
    }
  }

  lemma InitialHolds(config: Config, w: World)
    requires Initial(config, w)
    ensures Inv(config, w)
  {
  }

  /** A patch about to be sent, whose two tests will pass. */
  ghost predicate PatchWillSucceed(w: World) {
    && w.cleaner.Patching?
    && w.cleaner.name in w.cleaner.snapshot.deployments
    && Unchanged(w.cluster, w.cleaner.name, w.cleaner.snapshot.deployments[w.cleaner.name])
  }

  /**
   In every interleaving, a scale-to-zero that succeeds hits an expired Deployment of the
   previous build that no open promotion has renewed and that neither the origin Service nor a
   current pool's stable Service selects. "Previous" and "current" are those of the state the
   cleaner read; here anybody may rewrite the live state at any moment, to anything.
   */
  lemma SuccessfulPatchIsSafe(config: Config, run: seq<World>, i: nat)
    requires IsRun(config, run) && i < |run| && PatchWillSucceed(run[i])
    requires var state := run[i].cleaner.snapshot.state;
             state.previousBuildId.Some?
             && config.sanitize(state.buildId) != config.sanitize(state.previousBuildId.value)
    ensures var c, cleaner := run[i].cluster, run[i].cleaner;
            var d := c.deployments[cleaner.name];
            && Eligible(config, c.clock, cleaner.snapshot.state, cleaner.name, d)
            && (forall id :: id in c.promotions ==> d.uid !in c.promotions[id].renewed)
            && (forall service :: Guarded(config, cleaner.snapshot.state, service) && service in c.services ==>
                  c.services[service] != d.version)
  {
    RunKeepsInv(config, run, i);
    PatchIsSafe(config, run[i]);
  }

  lemma PatchIsSafe(config: Config, w: World)
    requires Inv(config, w) && PatchWillSucceed(w)
    requires var state := w.cleaner.snapshot.state;
             state.previousBuildId.Some?
             && config.sanitize(state.buildId) != config.sanitize(state.previousBuildId.value)
    ensures var c, cleaner := w.cluster, w.cleaner;
            var d := c.deployments[cleaner.name];
            && Eligible(config, c.clock, cleaner.snapshot.state, cleaner.name, d)
            && (forall id :: id in c.promotions ==> d.uid !in c.promotions[id].renewed)
            && (forall service :: Guarded(config, cleaner.snapshot.state, service) && service in c.services ==>
                  c.services[service] != d.version)
  {
    var c, cleaner := w.cluster, w.cleaner;
    var listed := cleaner.snapshot.deployments[cleaner.name];
    assert c.deployments[cleaner.name] == listed;
    assert ExpiredAt(config, listed, cleaner.snapshot.now);
    forall id | id in c.promotions ensures listed.uid !in c.promotions[id].renewed {
      assert listed.uid in c.promotions[id].renewed ==>
          Unexpired(config, c.deployments[cleaner.name], c.clock);
    }
  }

  // ---------------------------------------------------------------- the live state

  /** A promotion commits only once its build is protected and its pools' Services are flipped to it. */
  ghost predicate CommitsFlipped(config: Config, c: Cluster, c': Cluster, id: nat) {
    && id in c.promotions && BuildProtected(config, c, c.promotions[id])
    && c'.state.Some? && c'.state.value.buildId == c.promotions[id].buildId
    && forall pool :: pool in Pools(c'.state.value, c'.state.value.buildId)
                      && StableService(config, pool) in c.services ==>
         c.services[StableService(config, pool)] == config.sanitize(c.promotions[id].buildId)
  }

  /** A write of the state that changes neither the current build nor its pools, or removes the state. */
  ghost predicate KeepsTopology(c: Cluster, c': Cluster) {
    c'.state.Some? ==>
      && c.state.Some? && c'.state.value.buildId == c.state.value.buildId
      && Pools(c'.state.value, c'.state.value.buildId) == Pools(c.state.value, c.state.value.buildId)
  }

  ghost predicate WritesStateInOrder(config: Config, c: Cluster, c': Cluster) {
    KeepsTopology(c, c') || exists id :: CommitsFlipped(config, c, c', id)
  }

  /** What a patch about to be sent needs: the fence around whatever the live state guards now. */
  ghost predicate LiveFenced(config: Config, w: World) {
    w.cleaner.Patching? && w.cluster.state.Some? ==>
      FencedFor(config, w.cluster, w.cleaner.snapshot, w.cluster.state.value)
  }

  /** The state is re-read before each patch, so at that moment the live guards are those already fenced. */
  lemma ConsideringIsLiveFenced(config: Config, w: World, w': World)
    requires Inv(config, w) && CleanerConsiders(config, w, w')
    ensures LiveFenced(config, w')
  {
    hide FencedFor;
  }

  lemma SameGuardsStayFenced(config: Config, c: Cluster, snapshot: Snapshot, state: AdapterState, state': AdapterState)
    requires FencedFor(config, c, snapshot, state)
    requires state'.buildId == state.buildId && Pools(state', state'.buildId) == Pools(state, state.buildId)
    ensures FencedFor(config, c, snapshot, state')
  {
  }

  /** A commit that comes after its flips brings only fenced Services under guard. */
  lemma CommitIsFenced(config: Config, c: Cluster, c': Cluster, snapshot: Snapshot, id: nat)
    requires PromiseKept(config, c) && SnapshotHolds(config, c, snapshot) && TrafficFenced(config, c, snapshot)
    requires CommitsFlipped(config, c, c', id)
    ensures FencedFor(config, c, snapshot, c'.state.value)
  {
    forall service, name |
      Guarded(config, c'.state.value, service) && service in c.services
      && c.services[service] != config.sanitize(snapshot.state.buildId)
      && name in snapshot.deployments && snapshot.deployments[name].version == c.services[service]
      && ExpiredAt(config, snapshot.deployments[name], snapshot.now)
      ensures !Unchanged(c, name, snapshot.deployments[name])
    {
      if service == OriginService(config) {
        assert Guarded(config, snapshot.state, service);
      } else {
        FlipBreaksFence(config, c, snapshot, id, name);
      }
    }
  }

  lemma StateWriteIsLiveFenced(config: Config, c: Cluster, c': Cluster, snapshot: Snapshot)
    requires PromiseKept(config, c) && SnapshotHolds(config, c, snapshot) && TrafficFenced(config, c, snapshot)
    requires c.state.Some? ==> FencedFor(config, c, snapshot, c.state.value)
    requires c' == c.(state := c'.state) && WritesStateInOrder(config, c, c') && c'.state.Some?
    ensures FencedFor(config, c', snapshot, c'.state.value)
  {
    hide FencedFor, CommitsFlipped, TrafficFenced, PromiseKept, SnapshotHolds;
    if KeepsTopology(c, c') {
      SameGuardsStayFenced(config, c, snapshot, c.state.value, c'.state.value);
    } else {
      var id :| CommitsFlipped(config, c, c', id);
      CommitIsFenced(config, c, c', snapshot, id);
    }
    SameClusterStaysFenced(config, c, c', snapshot, c'.state.value);
  }

  lemma SameClusterStaysFenced(config: Config, c: Cluster, c': Cluster, snapshot: Snapshot, state: AdapterState)
    requires FencedFor(config, c, snapshot, state)
    requires c'.services == c.services && c'.deployments == c.deployments
    ensures FencedFor(config, c', snapshot, state)
  {
  }

  lemma OnlyCommitsChangeState(config: Config, c: Cluster, c': Cluster)
    requires ClusterMoves(config, c, c')
    ensures c'.state == c.state || c' == c.(state := c'.state)
  {
  }

  lemma StepKeepsLiveFenced(config: Config, w: World, w': World)
    requires Inv(config, w) && Next(config, w, w') && LiveFenced(config, w)
    requires WritesStateInOrder(config, w.cluster, w'.cluster)
    ensures LiveFenced(config, w')
  {
    hide FencedFor, ClusterMoves, CleanerConsiders, WritesStateInOrder, UidsInUse, PromiseKept, TrafficFenced, SnapshotHolds;
    if CleanerConsiders(config, w, w') {
      ConsideringIsLiveFenced(config, w, w');
    } else if w'.cleaner == w.cleaner && ClusterMoves(config, w.cluster, w'.cluster) {
      if w'.cleaner.Patching? && w'.cluster.state.Some? {
        OnlyCommitsChangeState(config, w.cluster, w'.cluster);
        if w'.cluster.state == w.cluster.state {
          ClusterMovesMonotone(config, w.cluster, w'.cluster);
          MovesChangeServicesOnlyByFlips(config, w.cluster, w'.cluster);
          StaysFencedFor(config, w.cluster, w'.cluster, w.cleaner.snapshot, w.cluster.state.value);
        } else {
          StateWriteIsLiveFenced(config, w.cluster, w'.cluster, w.cleaner.snapshot);
        }
      }
    }
  }

  ghost predicate IsOrderlyRun(config: Config, run: seq<World>) {
    && IsRun(config, run)
    && forall i :: 0 <= i < |run| - 1 ==> WritesStateInOrder(config, run[i].cluster, run[i + 1].cluster)
  }

  lemma {:induction false} OrderlyRunIsLiveFenced(config: Config, run: seq<World>, i: nat)
    requires IsOrderlyRun(config, run) && i < |run|
    ensures LiveFenced(config, run[i])
  {
    hide Inv, Next, FencedFor, WritesStateInOrder;
    if i > 0 {
      OrderlyRunIsLiveFenced(config, run, i - 1);
      RunKeepsInv(config, run, i - 1);
      assert Next(config, run[i - 1], run[i - 1 + 1]);
      assert WritesStateInOrder(config, run[i - 1].cluster, run[i - 1 + 1].cluster);
      StepKeepsLiveFenced(config, run[i - 1], run[i]);
    }
  }

  /**
   When new topologies are committed only after their flips, a scale-to-zero that succeeds hits
   no Deployment that the origin Service or a stable Service of the live state selects, even if
   that state was committed between the cleaner's last read and its patch.
   */
  lemma SuccessfulPatchSparesLiveTraffic(config: Config, run: seq<World>, i: nat)
    requires IsOrderlyRun(config, run) && i < |run| && PatchWillSucceed(run[i])
    requires var state := run[i].cleaner.snapshot.state;
             state.previousBuildId.Some?
             && config.sanitize(state.buildId) != config.sanitize(state.previousBuildId.value)
    requires run[i].cluster.state.Some?
    ensures var c := run[i].cluster;
            forall service :: Guarded(config, c.state.value, service) && service in c.services ==>
              c.services[service] != c.deployments[run[i].cleaner.name].version
  {
    RunKeepsInv(config, run, i);
    OrderlyRunIsLiveFenced(config, run, i);
    var cleaner := run[i].cleaner;
    assert run[i].cluster.deployments[cleaner.name] == cleaner.snapshot.deployments[cleaner.name];
    assert ExpiredAt(config, cleaner.snapshot.deployments[cleaner.name], cleaner.snapshot.now);
  }

  // ---------------------------------------------------------------- what a patch was based on

  /** The step at which the cleaner read the HorizontalPodAutoscalers it goes by. */
  ghost predicate HpasReadAt(run: seq<World>, i: nat, j: nat, snapshot: Snapshot, hpas: set<string>)
    requires i < |run|
  {
    && j < i && run[j].cleaner.ServicesListed?
    && run[j].cleaner.snapshot == snapshot && run[j].cluster.hpaTargets == hpas
  }

  /** The step at which the cleaner read the state again, found it unchanged, and went on to patch. */
  ghost predicate ConfirmedAt(run: seq<World>, i: nat, j: nat, snapshot: Snapshot)
    requires i < |run|
  {
    && j < i && run[j].cleaner.Looping? && run[j].cleaner.snapshot == snapshot
    && run[j].cluster.state == Some(snapshot.state)
    && forall k :: j < k <= i ==> run[k].cleaner.Patching?
  }

  /** The state had both builds and topologies when the cleaner read it. */
  ghost predicate StateReadAt(config: Config, run: seq<World>, i: nat, j: nat, state: AdapterState)
    requires i < |run|
  {
    && j < i && run[j].cleaner.Begun? && run[j].cluster.state == Some(state)
    && state.previousBuildId.Some? && state.previousBuildId.value != state.buildId
    && config.safeBuildId(state.buildId) && config.safeBuildId(state.previousBuildId.value)
    && state.buildId in state.topologies && state.topologies[state.buildId] != []
    && state.previousBuildId.value in state.topologies && state.topologies[state.previousBuildId.value] != []
  }

  /** What the cleaner goes by was read at some earlier step of the run, from the cluster of that step. */
  ghost predicate BasedOnReads(config: Config, run: seq<World>, i: nat)
    requires i < |run|
  {
    match run[i].cleaner
    case StateRead(_, state) => exists j :: StateReadAt(config, run, i, j, state)
    case DeploymentsListed(snapshot) => exists j :: StateReadAt(config, run, i, j, snapshot.state)
    case ServicesListed(snapshot, _) => exists j :: StateReadAt(config, run, i, j, snapshot.state)
    case Looping(snapshot, hpas, _, _) =>
      && (exists j :: StateReadAt(config, run, i, j, snapshot.state))
      && (exists j :: HpasReadAt(run, i, j, snapshot, hpas))
    case Patching(snapshot, hpas, _, _, name) =>
      && (exists j :: StateReadAt(config, run, i, j, snapshot.state))
      && (exists j :: HpasReadAt(run, i, j, snapshot, hpas))
      && (exists j :: ConfirmedAt(run, i, j, snapshot))
      && name !in hpas
    case _ => true
  }

  /** The cleaner's part of a step: what it reads, and what it carries over. */
  lemma CleanerCarriesReads(config: Config, w: World, w': World)
    requires Next(config, w, w')
    ensures w'.cleaner.StateRead? ==>
              (w.cleaner.Begun? && w.cluster.state == Some(w'.cleaner.state) && StateAllowsCleanup(config, w'.cleaner.state))
              || w.cleaner == w'.cleaner
    ensures w'.cleaner.DeploymentsListed? ==>
              w.cleaner == w'.cleaner || (w.cleaner.StateRead? && w.cleaner.state == w'.cleaner.snapshot.state)
    ensures w'.cleaner.ServicesListed? ==>
              w.cleaner == w'.cleaner || (w.cleaner.DeploymentsListed? && w.cleaner.snapshot == w'.cleaner.snapshot)
    ensures w'.cleaner.Looping? ==>
              || (w.cleaner.ServicesListed? && w.cleaner.snapshot == w'.cleaner.snapshot
                  && w.cluster.hpaTargets == w'.cleaner.hpas)
              || (w.cleaner.Looping? && w.cleaner.snapshot == w'.cleaner.snapshot && w.cleaner.hpas == w'.cleaner.hpas)
              || (w.cleaner.Patching? && w.cleaner.snapshot == w'.cleaner.snapshot && w.cleaner.hpas == w'.cleaner.hpas)
    ensures w'.cleaner.Patching? ==>
              || w.cleaner == w'.cleaner
              || (w.cleaner.Looping? && w.cleaner.snapshot == w'.cleaner.snapshot && w.cleaner.hpas == w'.cleaner.hpas
                  && w'.cleaner.name !in w'.cleaner.hpas && w.cluster.state == Some(w'.cleaner.snapshot.state))
  {
    hide ClusterMoves, StateAllowsCleanup, StateIsRefused, TrafficIsCurrent, Eligible, Unchanged;
  }

  lemma StillReadAt(config: Config, run: seq<World>, i: nat, k: nat, state: AdapterState)
    requires k <= i < |run| && exists j :: StateReadAt(config, run, k, j, state)
    ensures exists j :: StateReadAt(config, run, i, j, state)
  {
    var j :| StateReadAt(config, run, k, j, state);
    assert StateReadAt(config, run, i, j, state);
  }

  lemma StillHpasReadAt(run: seq<World>, i: nat, k: nat, snapshot: Snapshot, hpas: set<string>)
    requires k <= i < |run| && exists j :: HpasReadAt(run, k, j, snapshot, hpas)
    ensures exists j :: HpasReadAt(run, i, j, snapshot, hpas)
  {
    var j :| HpasReadAt(run, k, j, snapshot, hpas);
    assert HpasReadAt(run, i, j, snapshot, hpas);
  }

  lemma {:induction false} RunIsBasedOnReads(config: Config, run: seq<World>, i: nat)
    requires IsRun(config, run) && i < |run|
    ensures BasedOnReads(config, run, i)
  {
    hide Next, StateReadAt, HpasReadAt, ConfirmedAt;
    if i > 0 {
      RunIsBasedOnReads(config, run, i - 1);
      assert Next(config, run[i - 1], run[i - 1 + 1]);
      CleanerCarriesReads(config, run[i - 1], run[i]);
      StepCarriesReads(config, run, i);
    }
  }

  lemma StepCarriesReads(config: Config, run: seq<World>, i: nat)
    requires 0 < i < |run| && Next(config, run[i - 1], run[i]) && BasedOnReads(config, run, i - 1)
    ensures BasedOnReads(config, run, i)
  {
    CleanerCarriesReads(config, run[i - 1], run[i]);
    var before, after := run[i - 1].cleaner, run[i].cleaner;
    if after.StateRead? && before.Begun? {
      assert StateReadAt(config, run, i, i - 1, after.state);
    }
    if after.Patching? && before.Looping? {
      assert ConfirmedAt(run, i, i - 1, after.snapshot);
    }
    if after.Looping? && before.ServicesListed? {
      assert HpasReadAt(run, i, i - 1, after.snapshot, after.hpas);
    }
    hide Next, StateReadAt, HpasReadAt, ConfirmedAt;
    match after {
      case StateRead(_, state) =>
        if before == after { StillReadAt(config, run, i, i - 1, state); }
      case DeploymentsListed(snapshot) => StillReadAt(config, run, i, i - 1, snapshot.state);
      case ServicesListed(snapshot, _) => StillReadAt(config, run, i, i - 1, snapshot.state);
      case Looping(snapshot, hpas, _, _) =>
        StillReadAt(config, run, i, i - 1, snapshot.state);
        if !before.ServicesListed? { StillHpasReadAt(run, i, i - 1, snapshot, hpas); }
      case Patching(snapshot, hpas, _, _, _) =>
        StillReadAt(config, run, i, i - 1, snapshot.state);
        StillHpasReadAt(run, i, i - 1, snapshot, hpas);
        if before == after { StillConfirmedAt(run, i, i - 1, snapshot); }
      case _ =>
    }
  }

  lemma StillConfirmedAt(run: seq<World>, i: nat, k: nat, snapshot: Snapshot)
    requires k + 1 == i < |run| && run[i].cleaner.Patching? && exists j :: ConfirmedAt(run, k, j, snapshot)
    ensures exists j :: ConfirmedAt(run, i, j, snapshot)
  {
    var j :| ConfirmedAt(run, k, j, snapshot);
    assert ConfirmedAt(run, i, j, snapshot);
  }

  /**
   A scale-to-zero that succeeds hits a running Deployment of this release and of the previous
   build, of a pool that build had, whose marker says so and has run out; and no autoscaler owned
   it when the cleaner read them, after it had listed that very Deployment; and the state was still
   the one first read when the cleaner turned to it.
   */
  lemma SuccessfulPatchHitsExpiredStandby(config: Config, run: seq<World>, i: nat)
    requires IsRun(config, run) && i < |run| && PatchWillSucceed(run[i])
    ensures var name, c := run[i].cleaner.name, run[i].cluster;
            var d, state := c.deployments[name], run[i].cleaner.snapshot.state;
            && 0 < d.replicas && !d.deleting && d.release == config.release
            && state.previousBuildId.Some?
            && var previous := state.previousBuildId.value;
               && previous in state.topologies && d.component in state.topologies[previous]
               && d.version == config.sanitize(previous)
               && name == config.sanitize(config.release + "-" + d.component + "-" + previous)
               && config.safeBuildId(previous)
               && d.annotation.Json? && d.annotation.buildId == previous
               && 0.0 < d.annotation.expiresAt <= c.clock as real
               && d.annotation.expiresAt.Floor as real == d.annotation.expiresAt
    ensures exists j :: 0 <= j < i && run[j].cleaner.ServicesListed?
              && run[j].cleaner.snapshot == run[i].cleaner.snapshot
              && run[i].cleaner.name !in run[j].cluster.hpaTargets
    ensures exists j :: StateReadAt(config, run, i, j, run[i].cleaner.snapshot.state)
    ensures exists j :: ConfirmedAt(run, i, j, run[i].cleaner.snapshot)
  {
    RunKeepsInv(config, run, i);
    RunIsBasedOnReads(config, run, i);
    var cleaner := run[i].cleaner;
    assert run[i].cluster.deployments[cleaner.name] == cleaner.snapshot.deployments[cleaner.name];
    var j :| HpasReadAt(run, i, j, cleaner.snapshot, cleaner.hpas);
    hide HpasReadAt, StateReadAt, ConfirmedAt;
    RealAndFloor(run[i].cluster.deployments[cleaner.name].annotation.expiresAt, cleaner.snapshot.now);
  }

  lemma RealAndFloor(x: real, n: int)
    ensures x.Floor as real == x && x.Floor <= n ==> x <= n as real
  {
  }

  // ---------------------------------------------------------------- nothing expired is left running

  /** An expired standby, field by field. */
  ghost predicate ExpiredStandby(config: Config, state: AdapterState, now: int, name: string, d: Deployment) {
    && state.previousBuildId.Some?
    && var previous := state.previousBuildId.value;
       && config.safeBuildId(previous)
       && d.annotation.Json? && d.annotation.buildId == previous
       && d.annotation.expiresAt.Floor as real == d.annotation.expiresAt
       && 0.0 < d.annotation.expiresAt <= 9007199254740991.0 && d.annotation.expiresAt <= now as real
       && !d.deleting && 0 < d.replicas <= 9007199254740991
       && d.release == config.release && d.version == config.sanitize(previous)
       && previous in state.topologies && d.component in state.topologies[previous]
       && name == config.sanitize(config.release + "-" + d.component + "-" + previous)
  }

  lemma EligibleIff(config: Config, now: int, state: AdapterState, name: string, d: Deployment)
    ensures Eligible(config, now, state, name, d) <==> ExpiredStandby(config, state, now, name, d)
  {
    if d.annotation.Json? {
      RealAndFloor(d.annotation.expiresAt, now);
    }
  }

  /**
   Every listed Deployment taken off the list was scaled, was no expired standby, had an
   autoscaler, or has changed since it was listed.
   */
  ghost predicate Handled(config: Config, c: Cluster, snapshot: Snapshot, hpas: set<string>, rest: set<string>, scaled: set<string>) {
    forall name :: name in snapshot.deployments && name !in rest && name !in scaled ==>
      || !ExpiredStandby(config, snapshot.state, snapshot.now, name, snapshot.deployments[name])
      || name in hpas
      || !Unchanged(c, name, snapshot.deployments[name])
  }

  ghost predicate CleanerHandles(config: Config, w: World) {
    match w.cleaner
    case Looping(snapshot, hpas, pending, scaled) => Handled(config, w.cluster, snapshot, hpas, pending, scaled)
    case Patching(snapshot, hpas, pending, scaled, name) =>
      Handled(config, w.cluster, snapshot, hpas, pending + {name}, scaled)
    case _ => true
  }

  lemma StaysHandled(config: Config, c: Cluster, c': Cluster, snapshot: Snapshot, hpas: set<string>, rest: set<string>, scaled: set<string>)
    requires Handled(config, c, snapshot, hpas, rest, scaled)
    requires UidsInUse(c) && Monotone(c, c') && SnapshotSound(c, snapshot.deployments)
    ensures Handled(config, c', snapshot, hpas, rest, scaled)
  {
    hide ExpiredStandby;
    forall name | name in snapshot.deployments && !Unchanged(c, name, snapshot.deployments[name])
      ensures !Unchanged(c', name, snapshot.deployments[name])
    {
      FenceStaysBroken(c, c', name, snapshot.deployments[name]);
    }
  }

  lemma ConsideringHandles(config: Config, w: World, w': World)
    requires CleanerConsiders(config, w, w') && CleanerHandles(config, w)
    ensures CleanerHandles(config, w')
  {
    hide ExpiredStandby, Eligible, Unchanged;
    forall name | name in w.cleaner.snapshot.deployments
      ensures Eligible(config, w.cleaner.snapshot.now, w.cleaner.snapshot.state, name, w.cleaner.snapshot.deployments[name])
         <==> ExpiredStandby(config, w.cleaner.snapshot.state, w.cleaner.snapshot.now, name, w.cleaner.snapshot.deployments[name])
    {
      EligibleIff(config, w.cleaner.snapshot.now, w.cleaner.snapshot.state, name, w.cleaner.snapshot.deployments[name]);
    }
  }

  lemma PatchingHandles(config: Config, w: World, w': World)
    requires Inv(config, w) && CleanerPatches(w, w') && CleanerHandles(config, w)
    ensures CleanerHandles(config, w')
  {
    PatchIsAWrite(config, w, w');
    hide ExpiredStandby, Eligible, PromiseKept, TrafficFenced, Monotone;
    var Patching(snapshot, hpas, pending, scaled, name) := w.cleaner;
    StaysHandled(config, w.cluster, w'.cluster, snapshot, hpas, pending + {name}, scaled);
  }

  lemma StepKeepsHandling(config: Config, w: World, w': World)
    requires Inv(config, w) && Next(config, w, w') && CleanerHandles(config, w)
    ensures CleanerHandles(config, w')
  {
    hide CleanerReads, CleanerConsiders, CleanerPatches, ClusterMoves, Handled, UidsInUse, PromiseKept, TrafficFenced, SnapshotSound;
    if CleanerReads(config, w, w') {
      ReadingHandles(config, w, w');
    } else if CleanerConsiders(config, w, w') {
      ConsideringHandles(config, w, w');
    } else if CleanerPatches(w, w') {
      PatchingHandles(config, w, w');
    } else if w'.cleaner == w.cleaner && ClusterMoves(config, w.cluster, w'.cluster) {
      ClusterMovesMonotone(config, w.cluster, w'.cluster);
      match w.cleaner {
        case Looping(snapshot, hpas, pending, scaled) =>
          StaysHandled(config, w.cluster, w'.cluster, snapshot, hpas, pending, scaled);
        case Patching(snapshot, hpas, pending, scaled, name) =>
          StaysHandled(config, w.cluster, w'.cluster, snapshot, hpas, pending + {name}, scaled);
        case _ =>
      }
    }
  }

  lemma ReadingHandles(config: Config, w: World, w': World)
    requires CleanerReads(config, w, w')
    ensures CleanerHandles(config, w')
  {
    hide ExpiredStandby, Unchanged, StateAllowsCleanup, TrafficIsCurrent;
  }

  lemma {:induction false} RunHandles(config: Config, run: seq<World>, i: nat)
    requires IsRun(config, run) && i < |run|
    ensures CleanerHandles(config, run[i])
  {
    hide Inv, Next, Handled;
    if i > 0 {
      RunHandles(config, run, i - 1);
      RunKeepsInv(config, run, i - 1);
      assert Next(config, run[i - 1], run[i - 1 + 1]);
      StepKeepsHandling(config, run[i - 1], run[i]);
    }
  }

  /**
   A run that goes through its whole list leaves no expired standby running: each listed one was
   scaled to zero, unless an autoscaler owned it or somebody changed it after it was listed.
   */
  lemma FinishedRunLeavesNoExpiredStandby(config: Config, run: seq<World>, i: nat, name: string)
    requires IsRun(config, run) && i < |run| && run[i].cleaner.Looping? && run[i].cleaner.pending == {}
    requires name in run[i].cleaner.snapshot.deployments
    requires var snapshot := run[i].cleaner.snapshot;
             ExpiredStandby(config, snapshot.state, snapshot.now, name, snapshot.deployments[name])
    ensures || name in run[i].cleaner.scaled || name in run[i].cleaner.hpas
            || !Unchanged(run[i].cluster, name, run[i].cleaner.snapshot.deployments[name])
  {
    RunHandles(config, run, i);
  }

  // ---------------------------------------------------------------- what is returned

  /** A scale-to-zero that went through between this world and the next. */
  ghost predicate Scales(run: seq<World>, j: nat)
    requires j + 1 < |run|
  {
    && PatchWillSucceed(run[j]) && run[j + 1].cleaner.Looping?
    && run[j].cleaner.name in run[j + 1].cluster.deployments
    && run[j + 1].cluster.deployments[run[j].cleaner.name].replicas == 0
    && run[j + 1].cluster.deployments[run[j].cleaner.name].resourceVersion
       > run[j].cluster.deployments[run[j].cleaner.name].resourceVersion
  }

  ghost function Scalings(run: seq<World>, i: nat): nat
    requires i < |run|
  {
    if i == 0 then 0 else Scalings(run, i - 1) + if Scales(run, i - 1) then 1 else 0
  }

  lemma {:induction false} CountIsExact(config: Config, run: seq<World>, i: nat)
    requires IsRun(config, run) && i < |run|
    ensures match run[i].cleaner
            case Looping(_, _, _, scaled) => |scaled| == Scalings(run, i)
            case Patching(_, _, _, scaled, _) => |scaled| == Scalings(run, i)
            case Done(count) => count == Scalings(run, i)
            case Failed => true
            case _ => Scalings(run, i) == 0
  {
    hide Inv, Next;
    if i > 0 {
      CountIsExact(config, run, i - 1);
      RunKeepsInv(config, run, i - 1);
      assert Next(config, run[i - 1], run[i - 1 + 1]);
      CountOneStep(config, run[i - 1], run[i]);
    }
  }

  lemma CountOneStep(config: Config, w: World, w': World)
    requires Inv(config, w) && Next(config, w, w')
    ensures Scales([w, w'], 0) ==> w.cleaner.Patching?
    ensures w'.cleaner.Looping? ==>
              || (w.cleaner.ServicesListed? && |w'.cleaner.scaled| == 0)
              || (w.cleaner.Looping? && w'.cleaner.scaled == w.cleaner.scaled)
              || (w.cleaner.Patching? && |w'.cleaner.scaled| == |w.cleaner.scaled| + if Scales([w, w'], 0) then 1 else 0)
    ensures w'.cleaner.Patching? ==>
              && (w.cleaner.Looping? || w.cleaner.Patching?) && w'.cleaner.scaled == w.cleaner.scaled
    ensures w'.cleaner.Done? ==>
              || w.cleaner == w'.cleaner
              || (w.cleaner.Looping? && w'.cleaner.count == |w.cleaner.scaled|)
              || ((w.cleaner.Begun? || w.cleaner.ServicesListed?) && w'.cleaner.count == 0)
    ensures w.cleaner.Failed? ==> w'.cleaner.Failed?
    ensures !w'.cleaner.Looping? && !w'.cleaner.Patching? && !w'.cleaner.Done? && !w'.cleaner.Failed? ==>
              !w.cleaner.Looping? && !w.cleaner.Patching? && !w.cleaner.Done? && !w.cleaner.Failed?
  {
    hide ClusterMoves, StateAllowsCleanup, StateIsRefused, TrafficIsCurrent, Eligible, PromiseKept, UidsInUse, TrafficFenced,
         SnapshotHolds;
  }
}

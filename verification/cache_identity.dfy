/**
 Deploy hosts sharing one paid cache: the claim on its project and region, the record each host
 keeps in its infrastructure file, and the provisioning call.

 Any number of runs on any number of hosts take steps in any order, and a run may crash or fail
 between any two of them. The claim ConfigMap is never deleted here.
 */
module CacheIdentity {
  import opened Wrappers

  datatype Identity = Identity(projectId: string, region: string)

  /** The managed-cache fields of one infrastructure.json. */
  datatype Infra = Infra(cacheProjectId: Option<string>, cacheRegion: Option<string>, pending: Option<string>)

  /** The claim object as found in the cluster. */
  datatype ClaimObject = NoClaim | Claimed(identity: Identity) | Foreign

  /** Where one run of the managed-cache section stands. */
  datatype Run =
    | Loaded(host: nat, plan: Identity, infra: Infra)
    | ChecksPassed(host: nat, plan: Identity, infra: Infra)
    | ClaimUnread(host: nat, plan: Identity, infra: Infra)
    | ClaimAbsent(host: nat, plan: Identity, infra: Infra)
    | ClaimRaced(host: nat, plan: Identity, infra: Infra)
    | ClaimHeld(host: nat, plan: Identity, infra: Infra)
    | IntentRecorded(host: nat, plan: Identity, infra: Infra)
    | Calling(host: nat, plan: Identity, infra: Infra)
    | Verified(host: nat, plan: Identity, infra: Infra)
    | Finished
    | Stopped

  /** One call of the provider that may still create, or have created, a paid instance. */
  datatype Call = Call(host: nat, identity: Identity)

  datatype World = World(
    claim: ClaimObject,
    files: map<nat, Infra>,
    runs: map<nat, Run>,
    calls: set<Call>)

  const PENDING := "true"

  function IdentityOf(infra: Infra): Option<Identity> {
    if infra.cacheProjectId.Some? && infra.cacheRegion.Some? then
      Some(Identity(infra.cacheProjectId.value, infra.cacheRegion.value))
    else None
  }

  /** Both coordinates or neither, and a pending marker that is "true" when present. */
  predicate InfraUsable(infra: Infra) {
    && (infra.cacheRegion.Some? <==> infra.cacheProjectId.Some?)
    && (infra.pending.Some? ==> infra.pending.value == PENDING)
  }

  predicate SameIdentity(existing: Identity, expected: Identity) {
    existing.projectId == expected.projectId && existing.region == expected.region
  }

  /** Record the coordinates, marked pending, unless the file already has some. */
  function RecordIntent(infra: Infra, plan: Identity): Infra {
    if infra.cacheRegion.Some? then infra
    else Infra(Some(plan.projectId), Some(plan.region), Some(PENDING))
  }

  // ---------------------------------------------------------------- the steps of a run

  /** A deploy starts: it reads its host's file and derives coordinates from its plan. */
  ghost predicate Begins(w: World, w': World) {
    exists id, host, plan :: BeginsAs(w, w', id, host, plan)
  }

  ghost predicate BeginsAs(w: World, w': World, id: nat, host: nat, plan: Identity) {
    && id !in w.runs && host in w.files
    && w' == w.(runs := w.runs[id := Loaded(host, plan, w.files[host])])
  }

  ghost predicate Advances(w: World, w': World, id: nat, to: Run) {
    w' == w.(runs := w.runs[id := to])
  }

  /** The file's own checks and the first comparison with the cluster's claim. */
  ghost predicate ReadsClusterIdentity(w: World, w': World, id: nat) {
    && id in w.runs && w.runs[id].Loaded?
    && var Loaded(host, plan, infra) := w.runs[id];
       var recorded := IdentityOf(infra);
       Advances(w, w', id,
         if !InfraUsable(infra) || w.claim.Foreign? then Stopped
         else if w.claim.Claimed? && recorded.Some? && !SameIdentity(w.claim.identity, recorded.value)
         then Stopped
         else ChecksPassed(host, plan, infra))
  }

  /** A recorded identity must be the one the plan asks for. */
  ghost predicate ComparesPlan(w: World, w': World, id: nat) {
    && id in w.runs && w.runs[id].ChecksPassed?
    && var ChecksPassed(host, plan, infra) := w.runs[id];
       var recorded := IdentityOf(infra);
       Advances(w, w', id,
         if recorded.Some? && !SameIdentity(recorded.value, plan) then Stopped
         else ClaimUnread(host, plan, infra))
  }

  ghost predicate ReadsClaim(w: World, w': World, id: nat) {
    && id in w.runs && w.runs[id].ClaimUnread?
    && var ClaimUnread(host, plan, infra) := w.runs[id];
       Advances(w, w', id,
         match w.claim
         case Foreign => Stopped
         case Claimed(existing) => if SameIdentity(existing, plan) then ClaimHeld(host, plan, infra) else Stopped
         case NoClaim => ClaimAbsent(host, plan, infra))
  }

  /** `kubectl create`: it succeeds only if there is no claim object yet. */
  ghost predicate CreatesClaim(w: World, w': World, id: nat) {
    && id in w.runs && w.runs[id].ClaimAbsent?
    && var ClaimAbsent(host, plan, infra) := w.runs[id];
       if w.claim.NoClaim? then
         w' == w.(claim := Claimed(plan), runs := w.runs[id := ClaimHeld(host, plan, infra)])
       else
         Advances(w, w', id, ClaimRaced(host, plan, infra))
  }

  ghost predicate ReadsBackClaim(w: World, w': World, id: nat) {
    && id in w.runs && w.runs[id].ClaimRaced?
    && var ClaimRaced(host, plan, infra) := w.runs[id];
       Advances(w, w', id,
         if w.claim.Claimed? && SameIdentity(w.claim.identity, plan) then ClaimHeld(host, plan, infra)
         else Stopped)
  }

  ghost predicate RecordsIntent(w: World, w': World, id: nat) {
    && id in w.runs && w.runs[id].ClaimHeld?
    && var ClaimHeld(host, plan, infra) := w.runs[id];
       var recorded := RecordIntent(infra, plan);
       w' == w.(files := if infra.cacheRegion.Some? then w.files else w.files[host := recorded],
                runs := w.runs[id := IntentRecorded(host, plan, recorded)])
  }

  /** From here on the provider may create the instance, whatever becomes of the run. */
  ghost predicate CallsProvider(w: World, w': World, id: nat) {
    && id in w.runs && w.runs[id].IntentRecorded?
    && var IntentRecorded(host, plan, infra) := w.runs[id];
       w' == w.(calls := w.calls + {Call(host, plan)}, runs := w.runs[id := Calling(host, plan, infra)])
  }

  ghost predicate VerifiesEndpoint(w: World, w': World, id: nat) {
    && id in w.runs && w.runs[id].Calling?
    && var Calling(host, plan, infra) := w.runs[id];
       Advances(w, w', id, Verified(host, plan, infra))
  }

  /** Promote the pending record to the durable one. */
  ghost predicate ClearsPending(w: World, w': World, id: nat) {
    && id in w.runs && w.runs[id].Verified?
    && var Verified(host, _, infra) := w.runs[id];
       w' == w.(files := if infra.pending.Some? then w.files[host := infra.(pending := None)] else w.files,
                runs := w.runs[id := Finished])
  }

  /** A crash, or an error that stops the run, at any point. */
  ghost predicate Crashes(w: World, w': World, id: nat) {
    Advances(w, w', id, Stopped)
  }

  ghost predicate RunSteps(w: World, w': World, id: nat) {
    && id in w.runs
    && (|| ReadsClusterIdentity(w, w', id)
        || ComparesPlan(w, w', id)
        || ReadsClaim(w, w', id)
        || CreatesClaim(w, w', id)
        || ReadsBackClaim(w, w', id)
        || RecordsIntent(w, w', id)
        || CallsProvider(w, w', id)
        || VerifiesEndpoint(w, w', id)
        || ClearsPending(w, w', id)
        || Crashes(w, w', id))
  }

  ghost predicate Next(w: World, w': World) {
    Begins(w, w') || exists id :: RunSteps(w, w', id)
  }

  /** Any files, any claim, foreign or not; no run under way and no call made yet. */
  ghost predicate Initial(w: World) {
    w.runs == map[] && w.calls == {}
  }

  // ---------------------------------------------------------------- the invariant

  predicate Active(run: Run) {
    !run.Finished? && !run.Stopped?
  }

  /** The run has established that its plan is the claimed identity. */
  predicate HoldsClaim(run: Run) {
    run.ClaimHeld? || run.IntentRecorded? || run.Calling? || run.Verified?
  }

  /** The run's own copy of the file carries its plan's coordinates. */
  predicate HasRecorded(run: Run) {
    run.IntentRecorded? || run.Calling? || run.Verified?
  }

  predicate FileRecords(w: World, host: nat, identity: Identity) {
    host in w.files && IdentityOf(w.files[host]) == Some(identity)
  }

  /** Coordinates in a file are those the run read, or have been claimed since. */
  ghost predicate FileFollows(w: World, host: nat, infra: Infra) {
    && host in w.files
    && match IdentityOf(infra)
       case Some(identity) => FileRecords(w, host, identity)
       case None =>
         forall identity :: FileRecords(w, host, identity) ==> w.claim == Claimed(identity)
  }

  ghost predicate RunSound(w: World, run: Run) {
    Active(run) ==>
      && FileFollows(w, run.host, run.infra)
      && (!run.Loaded? ==> InfraUsable(run.infra))
      && (!run.Loaded? && !run.ChecksPassed? && IdentityOf(run.infra).Some? ==>
            IdentityOf(run.infra) == Some(run.plan))
      && (HoldsClaim(run) ==> w.claim == Claimed(run.plan))
      && (HasRecorded(run) ==> IdentityOf(run.infra) == Some(run.plan))
  }

  ghost predicate CallSound(w: World, call: Call) {
    w.claim == Claimed(call.identity) && FileRecords(w, call.host, call.identity)
  }

  ghost predicate Inv(w: World) {
    && (forall id :: id in w.runs ==> RunSound(w, w.runs[id]))
    && (forall call :: call in w.calls ==> CallSound(w, call))
  }

  /** What no step undoes: a claim stands, and a file's coordinates stay or become the claimed ones. */
  ghost predicate Persists(w: World, w': World) {
    && (w.claim.Claimed? ==> w'.claim == w.claim)
    && forall host :: host in w.files ==>
         && host in w'.files
         && (IdentityOf(w.files[host]).Some? ==> IdentityOf(w'.files[host]) == IdentityOf(w.files[host]))
         && (IdentityOf(w.files[host]).None? && IdentityOf(w'.files[host]).Some? ==>
               w'.claim == Claimed(IdentityOf(w'.files[host]).value))
  }

  lemma SoundRunsPersist(w: World, w': World, run: Run)
    requires RunSound(w, run) && Persists(w, w')
    ensures RunSound(w', run)
  {
  }

  lemma SoundCallsPersist(w: World, w': World, call: Call)
    requires CallSound(w, call) && Persists(w, w')
    ensures CallSound(w', call)
  {
  }

  /** One step of one run: the world persists, the run stays sound, and a new call is sound. */
  lemma RunStepSound(w: World, w': World, id: nat)
    requires Inv(w) && RunSteps(w, w', id)
    ensures Persists(w, w')
    ensures w'.runs.Keys == w.runs.Keys
    ensures id in w'.runs && RunSound(w', w'.runs[id])
    ensures forall other :: other in w.runs && other != id ==> w'.runs[other] == w.runs[other]
    ensures forall call :: call in w'.calls && call !in w.calls ==> CallSound(w', call)
  {
    assert RunSound(w, w.runs[id]);
    hide ReadsClusterIdentity, ComparesPlan, ReadsClaim, ReadsBackClaim, VerifiesEndpoint, Crashes;
    if RecordsIntent(w, w', id) {
      IntentIsSound(w, w', id);
    } else if ClearsPending(w, w', id) {
      ClearingIsSound(w, w', id);
    } else if CreatesClaim(w, w', id) {
      CreationIsSound(w, w', id);
    } else if !CallsProvider(w, w', id) {
      LocalStepIsSound(w, w', id);
    }
  }

  /** Steps that only read the cluster, or nothing at all. */
  lemma LocalStepIsSound(w: World, w': World, id: nat)
    requires id in w.runs && RunSound(w, w.runs[id])
    requires || ReadsClusterIdentity(w, w', id) || ComparesPlan(w, w', id) || ReadsClaim(w, w', id)
             || ReadsBackClaim(w, w', id) || VerifiesEndpoint(w, w', id) || Crashes(w, w', id)
    ensures id in w'.runs && w' == w.(runs := w.runs[id := w'.runs[id]]) && RunSound(w', w'.runs[id])
  {
  }

  lemma CreationIsSound(w: World, w': World, id: nat)
    requires CreatesClaim(w, w', id) && RunSound(w, w.runs[id])
    ensures Persists(w, w') && RunSound(w', w'.runs[id])
  {
  }

  lemma IntentIsSound(w: World, w': World, id: nat)
    requires RecordsIntent(w, w', id) && RunSound(w, w.runs[id])
    ensures Persists(w, w') && RunSound(w', w'.runs[id])
  {
    var ClaimHeld(host, plan, infra) := w.runs[id];
    if infra.cacheRegion.None? {
      assert forall identity :: FileRecords(w, host, identity) ==> identity == plan;
      assert IdentityOf(w.files[host]).Some? ==> FileRecords(w, host, IdentityOf(w.files[host]).value);
    }
  }

  lemma ClearingIsSound(w: World, w': World, id: nat)
    requires ClearsPending(w, w', id) && RunSound(w, w.runs[id])
    ensures Persists(w, w')
  {
  }

  lemma StepKeepsInv(w: World, w': World)
    requires Inv(w) && Next(w, w')
    ensures Inv(w') && Persists(w, w')
  {
    hide RunSteps, RunSound, CallSound;
    if Begins(w, w') {
      BeginningIsSound(w, w');
    } else {
      var id :| RunSteps(w, w', id);
      RunStepSound(w, w', id);
      forall other | other in w'.runs && other != id ensures RunSound(w', w'.runs[other]) {
        SoundRunsPersist(w, w', w.runs[other]);
      }
      forall call | call in w'.calls && call in w.calls ensures CallSound(w', call) {
        SoundCallsPersist(w, w', call);
      }
    }
  }

  lemma BeginningIsSound(w: World, w': World)
    requires Inv(w) && Begins(w, w')
    ensures Inv(w') && Persists(w, w')
  {
    forall id | id in w'.runs ensures RunSound(w', w'.runs[id]) {
      if id in w.runs {
        SoundRunsPersist(w, w', w.runs[id]);
      }
    }
  }

  // ---------------------------------------------------------------- whole histories

  ghost predicate IsHistory(history: seq<World>) {
    && |history| > 0 && Initial(history[0])
    && forall i :: 0 <= i < |history| - 1 ==> Next(history[i], history[i + 1])
  }

  lemma {:induction false} HistoryKeepsInv(history: seq<World>, i: nat)
    requires IsHistory(history) && i < |history|
    ensures Inv(history[i])
  {
    hide Next;
    if i > 0 {
      HistoryKeepsInv(history, i - 1);
      assert Next(history[i - 1], history[i - 1 + 1]);
      StepKeepsInv(history[i - 1], history[i]);
    }
  }

  /**
   Across all hosts, runs and crashes, every provider call ever made is for the claimed
   coordinates, so all calls agree; and the calling host's file already holds them.
   */
  lemma OnePaidIdentity(history: seq<World>, i: nat)
    requires IsHistory(history) && i < |history|
    ensures forall call :: call in history[i].calls ==>
              && history[i].claim == Claimed(call.identity)
              && FileRecords(history[i], call.host, call.identity)
    ensures forall a, b :: a in history[i].calls && b in history[i].calls ==> a.identity == b.identity
  {
    HistoryKeepsInv(history, i);
  }

  /** A claim, once made, is never replaced. */
  lemma {:induction false} ClaimStands(history: seq<World>, i: nat, j: nat)
    requires IsHistory(history) && i <= j < |history| && history[i].claim.Claimed?
    ensures history[j].claim == history[i].claim
    decreases j - i
  {
    hide Next, Inv;
    if i < j {
      HistoryKeepsInv(history, i);
      assert Next(history[i], history[i + 1]);
      StepKeepsInv(history[i], history[i + 1]);
      ClaimStands(history, i + 1, j);
    }
  }

  /** A run whose plan is not the claimed identity never gets to call the provider. */
  lemma LoserNeverCalls(history: seq<World>, i: nat, id: nat)
    requires IsHistory(history) && i < |history| && id in history[i].runs
    requires Active(history[i].runs[id]) && history[i].claim != Claimed(history[i].runs[id].plan)
    ensures !HoldsClaim(history[i].runs[id])
  {
    HistoryKeepsInv(history, i);
    assert RunSound(history[i], history[i].runs[id]);
  }

  // ---------------------------------------------------------------- the pending marker

  /** Some run on the host had its endpoint verified before this moment. */
  ghost predicate VerifiedBefore(history: seq<World>, i: nat, host: nat)
    requires i < |history|
  {
    exists j, id :: 0 <= j < i && VerifiedAt(history[j], id, host)
  }

  ghost predicate VerifiedAt(w: World, id: nat, host: nat) {
    id in w.runs && w.runs[id].Verified? && w.runs[id].host == host
  }

  /** The file names no cache yet, or names one that is still marked pending. */
  ghost predicate StillPending(w: World, host: nat) {
    host in w.files &&
    (w.files[host].cacheRegion.None?
     || (w.files[host].cacheProjectId.Some? && w.files[host].pending == Some("true")))
  }

  lemma StepKeepsPending(w: World, w': World, host: nat)
    requires Next(w, w') && StillPending(w, host)
    ensures StillPending(w', host) || exists id :: VerifiedAt(w, id, host)
  {
    if !Begins(w, w') {
      var id :| RunSteps(w, w', id);
      if ClearsPending(w, w', id) && w.runs[id].host == host {
        assert VerifiedAt(w, id, host);
      }
    }
  }

  /**
   From a host that named no cache, the coordinates of a first provision stay marked pending in its
   file until a run on that host has verified the endpoint, whatever crashes in between.
   */
  lemma {:induction false} PendingUntilVerified(history: seq<World>, i: nat, host: nat)
    requires IsHistory(history) && i < |history|
    requires host in history[0].files && history[0].files[host].cacheRegion.None?
    ensures StillPending(history[i], host) || VerifiedBefore(history, i, host)
  {
    hide Next, StillPending;
    if i == 0 {
      NothingNamed(history[0], host);
    } else {
      PendingUntilVerified(history, i - 1, host);
      if VerifiedBefore(history, i - 1, host) {
        var j, id :| 0 <= j < i - 1 && VerifiedAt(history[j], id, host);
      } else {
        assert Next(history[i - 1], history[i - 1 + 1]);
        StepKeepsPending(history[i - 1], history[i], host);
      }
    }
  }

  lemma NothingNamed(w: World, host: nat)
    requires host in w.files && w.files[host].cacheRegion.None?
    ensures StillPending(w, host)
  {
  }
}

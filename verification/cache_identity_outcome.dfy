/** What a run of the managed-cache section comes to when no other run moves: when it finishes, and what it leaves. */
module CacheIdentityOutcome {
  import opened CacheIdentity
  import opened Wrappers

  /** Steps of one run, crashes included. */
  ghost predicate LoneRun(history: seq<World>, id: nat) {
    && |history| > 0
    && forall i :: 0 <= i < |history| - 1 ==> RunSteps(history[i], history[i + 1], id)
  }

  ghost predicate LeadsTo(w: World, id: nat, history: seq<World>, end: World) {
    LoneRun(history, id) && history[0] == w && history[|history| - 1] == end
  }

  /** A run that has just read its host's file. */
  ghost predicate JustLoaded(w: World, id: nat, host: nat, plan: Identity, infra: Infra) {
    id in w.runs && w.runs[id] == Loaded(host, plan, infra) && host in w.files && w.files[host] == infra
  }

  /** The claim is free or the plan's own, and the file names the plan's cache or none, marked pending or not. */
  ghost predicate Accepted(w: World, plan: Identity, infra: Infra) {
    && (w.claim == NoClaim || w.claim == Claimed(plan))
    && ((infra.cacheProjectId == None && infra.cacheRegion == None)
        || (infra.cacheProjectId == Some(plan.projectId) && infra.cacheRegion == Some(plan.region)))
    && (infra.pending == None || infra.pending == Some("true"))
  }

  /** Claimed, called once, and recorded as provisioned. */
  function Provisioned(w: World, id: nat, host: nat, plan: Identity): World {
    World(Claimed(plan),
          w.files[host := Infra(Some(plan.projectId), Some(plan.region), None)],
          w.runs[id := Finished],
          w.calls + {Call(host, plan)})
  }

  function Recorded(w: World, host: nat, plan: Identity, infra: Infra): map<nat, Infra> {
    if infra.cacheRegion.Some? then w.files else w.files[host := RecordIntent(infra, plan)]
  }

  /** Where the world is while only this run has moved since `w`. */
  ghost predicate Reached(w: World, t: World, id: nat, host: nat, plan: Identity, infra: Infra) {
    && id in t.runs
    && var kept := w.(runs := w.runs[id := t.runs[id]]);
       match t.runs[id]
       case Loaded(_, _, _) => t == w
       case ChecksPassed(h, p, i) =>
         && (h, p, i) == (host, plan, infra) && t == kept && InfraUsable(infra) && !w.claim.Foreign?
       case ClaimUnread(h, p, i) =>
         && (h, p, i) == (host, plan, infra) && t == kept && InfraUsable(infra) && !w.claim.Foreign?
         && (IdentityOf(infra).Some? ==> IdentityOf(infra) == Some(plan))
       case ClaimAbsent(h, p, i) =>
         (h, p, i) == (host, plan, infra) && t == kept && Accepted(w, plan, infra) && w.claim.NoClaim?
       case ClaimRaced(_, _, _) => false
       case ClaimHeld(h, p, i) =>
         (h, p, i) == (host, plan, infra) && t == kept.(claim := Claimed(plan)) && Accepted(w, plan, infra)
       case IntentRecorded(h, p, i) =>
         && (h, p, i) == (host, plan, RecordIntent(infra, plan)) && Accepted(w, plan, infra)
         && t == kept.(claim := Claimed(plan), files := Recorded(w, host, plan, infra))
       case Calling(h, p, i) => IsCalled(w, t, id, host, plan, infra) && (h, p, i) == (host, plan, RecordIntent(infra, plan))
       case Verified(h, p, i) => IsCalled(w, t, id, host, plan, infra) && (h, p, i) == (host, plan, RecordIntent(infra, plan))
       case Finished => Accepted(w, plan, infra) && t == Provisioned(w, id, host, plan)
       case Stopped => true
  }

  ghost predicate IsCalled(w: World, t: World, id: nat, host: nat, plan: Identity, infra: Infra)
    requires id in t.runs
  {
    && Accepted(w, plan, infra)
    && t == World(Claimed(plan), Recorded(w, host, plan, infra), w.runs[id := t.runs[id]], w.calls + {Call(host, plan)})
  }

  lemma StepReaches(w: World, t: World, t': World, id: nat, host: nat, plan: Identity, infra: Infra)
    requires JustLoaded(w, id, host, plan, infra) && Reached(w, t, id, host, plan, infra) && RunSteps(t, t', id)
    ensures Reached(w, t', id, host, plan, infra)
  {
    assert id in t'.runs ==> w.runs[id := t.runs[id]][id := t'.runs[id]] == w.runs[id := t'.runs[id]];
    if ClearsPending(t, t', id) {
      ClearingProvisions(w, t, t', id, host, plan, infra);
    }
  }

  lemma ClearingProvisions(w: World, t: World, t': World, id: nat, host: nat, plan: Identity, infra: Infra)
    requires JustLoaded(w, id, host, plan, infra) && Reached(w, t, id, host, plan, infra) && ClearsPending(t, t', id)
    ensures t' == Provisioned(w, id, host, plan)
  {
    var durable := Infra(Some(plan.projectId), Some(plan.region), None);
    assert RecordIntent(infra, plan).(pending := None) == durable;
    assert t'.files == w.files[host := durable];
    assert w.runs[id := t.runs[id]][id := Finished] == w.runs[id := Finished];
  }

  lemma {:induction false} HistoryReaches(history: seq<World>, i: nat, id: nat, host: nat, plan: Identity, infra: Infra)
    requires LoneRun(history, id) && i < |history| && JustLoaded(history[0], id, host, plan, infra)
    ensures Reached(history[0], history[i], id, host, plan, infra)
  {
    hide RunSteps;
    if i > 0 {
      HistoryReaches(history, i - 1, id, host, plan, infra);
      assert RunSteps(history[i - 1], history[i - 1 + 1], id);
      StepReaches(history[0], history[i - 1], history[i], id, host, plan, infra);
    }
  }

  // ---------------------------------------------------------------- the run that finishes

  lemma Extend(w: World, id: nat, history: seq<World>, t: World, next: World) returns (longer: seq<World>)
    requires LeadsTo(w, id, history, t) && RunSteps(t, next, id)
    ensures LeadsTo(w, id, longer, next)
  {
    hide RunSteps;
    longer := history + [next];
    forall i | 0 <= i < |longer| - 1 ensures RunSteps(longer[i], longer[i + 1], id) {
      if i < |history| - 1 {
        assert RunSteps(history[i], history[i + 1], id);
      }
    }
  }

  /** The steps up to the claim. */
  lemma ClaimIsReached(w: World, id: nat, host: nat, plan: Identity, infra: Infra) returns (history: seq<World>)
    requires JustLoaded(w, id, host, plan, infra) && Accepted(w, plan, infra)
    ensures LeadsTo(w, id, history, w.(claim := Claimed(plan), runs := w.runs[id := ClaimHeld(host, plan, infra)]))
  {
    var passed := w.(runs := w.runs[id := ChecksPassed(host, plan, infra)]);
    var unread := passed.(runs := passed.runs[id := ClaimUnread(host, plan, infra)]);
    var held := w.(claim := Claimed(plan), runs := w.runs[id := ClaimHeld(host, plan, infra)]);
    assert ReadsClusterIdentity(w, passed, id);
    assert ComparesPlan(passed, unread, id);
    hide LeadsTo;
    history := Start(w, id);
    history := Extend(w, id, history, w, passed);
    history := Extend(w, id, history, passed, unread);
    if w.claim.NoClaim? {
      var absent := unread.(runs := unread.runs[id := ClaimAbsent(host, plan, infra)]);
      assert ReadsClaim(unread, absent, id);
      assert absent.runs[id := ClaimHeld(host, plan, infra)] == held.runs;
      assert CreatesClaim(absent, held, id);
      history := Extend(w, id, history, unread, absent);
      history := Extend(w, id, history, absent, held);
    } else {
      assert unread.runs[id := ClaimHeld(host, plan, infra)] == held.runs;
      assert ReadsClaim(unread, held, id);
      history := Extend(w, id, history, unread, held);
    }
  }

  lemma Start(w: World, id: nat) returns (history: seq<World>)
    ensures LeadsTo(w, id, history, w)
  {
    history := [w];
  }

  /** From the claim to the end. */
  lemma ProvisionIsReached(w: World, id: nat, host: nat, plan: Identity, infra: Infra) returns (history: seq<World>)
    requires JustLoaded(w, id, host, plan, infra) && Accepted(w, plan, infra)
    ensures LeadsTo(w, id, history, Provisioned(w, id, host, plan))
  {
    history := ClaimIsReached(w, id, host, plan, infra);
    var held := w.(claim := Claimed(plan), runs := w.runs[id := ClaimHeld(host, plan, infra)]);
    var recorded := RecordIntent(infra, plan);
    var intended := held.(files := Recorded(w, host, plan, infra), runs := held.runs[id := IntentRecorded(host, plan, recorded)]);
    var calling := intended.(calls := w.calls + {Call(host, plan)}, runs := intended.runs[id := Calling(host, plan, recorded)]);
    var verified := calling.(runs := calling.runs[id := Verified(host, plan, recorded)]);
    var end := verified.(files := if recorded.pending.Some? then verified.files[host := recorded.(pending := None)] else verified.files,
                         runs := verified.runs[id := Finished]);
    assert RecordsIntent(held, intended, id);
    assert CallsProvider(intended, calling, id);
    assert VerifiesEndpoint(calling, verified, id);
    assert ClearsPending(verified, end, id);
    LastStepProvisions(w, verified, end, id, host, plan, infra);
    hide LeadsTo;
    history := Extend(w, id, history, held, intended);
    history := Extend(w, id, history, intended, calling);
    history := Extend(w, id, history, calling, verified);
    history := Extend(w, id, history, verified, end);
  }

  lemma LastStepProvisions(w: World, verified: World, end: World, id: nat, host: nat, plan: Identity, infra: Infra)
    requires JustLoaded(w, id, host, plan, infra) && Accepted(w, plan, infra) && ClearsPending(verified, end, id)
    requires verified.runs[id] == Verified(host, plan, RecordIntent(infra, plan))
    requires verified.runs.Keys == w.runs.Keys && forall other :: other in w.runs && other != id ==> verified.runs[other] == w.runs[other]
    requires verified.claim == Claimed(plan) && verified.files == Recorded(w, host, plan, infra)
    requires verified.calls == w.calls + {Call(host, plan)}
    ensures end == Provisioned(w, id, host, plan)
  {
    assert verified.runs == w.runs[id := verified.runs[id]];
    ClearingProvisions(w, verified, end, id, host, plan, infra);
  }

  /**
   Left alone, a run can finish if and only if its plan is accepted, and then it leaves exactly this:
   the plan's claim, one call, and a file that names the plan's cache without the pending mark.
   */
  lemma LoneRunOutcome(w: World, id: nat, host: nat, plan: Identity, infra: Infra, end: World)
    requires JustLoaded(w, id, host, plan, infra)
    ensures (exists history :: LeadsTo(w, id, history, end) && id in end.runs && end.runs[id].Finished?)
       <==> Accepted(w, plan, infra) && end == Provisioned(w, id, host, plan)
  {
    if history :| LeadsTo(w, id, history, end) && id in end.runs && end.runs[id].Finished? {
      HistoryReaches(history, |history| - 1, id, host, plan, infra);
    }
    if Accepted(w, plan, infra) && end == Provisioned(w, id, host, plan) {
      var history := ProvisionIsReached(w, id, host, plan, infra);
    }
  }

  /** A run that lost the race for the claim object goes on if the winner claimed its own plan. */
  lemma RaceIsSettledByReadingBack(w: World, id: nat, host: nat, plan: Identity, infra: Infra) returns (history: seq<World>)
    requires id in w.runs && w.runs[id] == ClaimAbsent(host, plan, infra) && w.claim == Claimed(plan)
    ensures LeadsTo(w, id, history, w.(runs := w.runs[id := ClaimHeld(host, plan, infra)]))
  {
    var raced := w.(runs := w.runs[id := ClaimRaced(host, plan, infra)]);
    var held := w.(runs := w.runs[id := ClaimHeld(host, plan, infra)]);
    assert raced.runs[id := ClaimHeld(host, plan, infra)] == held.runs;
    assert CreatesClaim(w, raced, id) && ReadsBackClaim(raced, held, id);
    hide LeadsTo;
    history := Start(w, id);
    history := Extend(w, id, history, w, raced);
    history := Extend(w, id, history, raced, held);
  }

  /** A first deploy, with nobody else about, is a history that ends with the cache provisioned. */
  lemma FirstDeployProvisions(w: World, id: nat, host: nat, plan: Identity) returns (history: seq<World>)
    requires Initial(w) && host in w.files && Accepted(w, plan, w.files[host])
    ensures IsHistory(history) && history[0] == w
    ensures history[|history| - 1] == Provisioned(w, id, host, plan)
  {
    var begun := w.(runs := w.runs[id := Loaded(host, plan, w.files[host])]);
    assert BeginsAs(w, begun, id, host, plan);
    var rest := ProvisionIsReached(begun, id, host, plan, w.files[host]);
    assert begun.runs[id := Finished] == w.runs[id := Finished];
    history := [w] + rest;
    hide Begins, RunSteps, Accepted;
    forall i | 0 <= i < |history| - 1 ensures Next(history[i], history[i + 1]) {
      if i > 0 {
        assert RunSteps(rest[i - 1], rest[i - 1 + 1], id);
      }
    }
  }
}

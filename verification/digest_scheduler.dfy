/**
 The inspection phase as a step system: workers claim paths from a shared index, each path's
 digests pass a hand-written semaphore, and any step order the event loop allows is a run.

 A digest that finds the semaphore full queues itself. Finishing a digest wakes the first in the
 queue, but waking is not admission: a newcomer may take the freed slot first, and the woken
 digest then queues again.
 */
module DigestScheduler {

  const MAX_CONCURRENT_DIGESTS: nat := 64
  const MAX_WORKERS: nat := 32

  /** One digest: index of the path, index of the pool. */
  type Task = (nat, nat)

  /** For each path: is it worth digesting (present and alike everywhere), and do its digests agree? */
  datatype Job = Job(pools: nat, comparable: seq<bool>, agree: seq<bool>) {
    ghost predicate Valid() {
      pools > 0 && |agree| == |comparable|
    }

    function Paths(): nat {
      |comparable|
    }
  }

  datatype Worker = Idle | Inspecting(path: nat) | Exited

  /** Where a digest is: not begun, streaming, queued, woken but not resumed, or done. */
  datatype Place = Unstarted | Running | Waiting | Woken | Finished

  datatype State = State(
    nextIndex: nat,
    workers: seq<Worker>,
    place: map<Task, Place>,
    waiters: seq<Task>,
    activeDigests: nat,
    shared: seq<nat>,
    inspected: seq<nat>)

  datatype Action =
    | Claim(w: nat)
    | Start(t: Task)
    | Finish(t: Task)
    | Resume(t: Task)
    | Collect(w: nat)
    | Exit(w: nat)

  function TasksOf(path: nat, pools: nat): (ts: set<Task>)
    ensures |ts| == pools
    ensures forall t :: t in ts <==> t.0 == path && t.1 < pools
  {
    if pools == 0 then {} else TasksOf(path, pools - 1) + {(path, pools - 1)}
  }

  function Workers(job: Job): nat {
    if job.Paths() < MAX_WORKERS then job.Paths() else MAX_WORKERS
  }

  function Initial(job: Job): State {
    State(0, seq(Workers(job), _ => Idle), map[], [], 0, [], [])
  }

  // ---------------------------------------------------------------- steps

  predicate At(s: State, t: Task, p: Place) {
    t in s.place && s.place[t] == p
  }

  predicate Enabled(job: Job, s: State, a: Action)
    requires job.Valid()
  {
    match a
    case Claim(w) => w < |s.workers| && s.workers[w].Idle? && s.nextIndex < job.Paths()
    case Exit(w) => w < |s.workers| && s.workers[w].Idle? && s.nextIndex >= job.Paths()
    case Collect(w) =>
      && w < |s.workers| && s.workers[w].Inspecting? && s.workers[w].path < job.Paths()
      && forall t :: t in TasksOf(s.workers[w].path, job.pools) ==> At(s, t, Finished)
    case Start(t) => At(s, t, Unstarted)
    case Finish(t) => At(s, t, Running)
    case Resume(t) => At(s, t, Woken)
  }

  /** Take a slot, or join the queue: the test both a new and a woken digest make. */
  function TakeSlotOrQueue(s: State, t: Task): State {
    if s.activeDigests >= MAX_CONCURRENT_DIGESTS then
      s.(place := s.place[t := Waiting], waiters := s.waiters + [t])
    else
      s.(place := s.place[t := Running], activeDigests := s.activeDigests + 1)
  }

  /** Wake the first waiter, if there is one. */
  function WakeFirst(s: State): State {
    if |s.waiters| == 0 then s
    else s.(place := s.place[s.waiters[0] := Woken], waiters := s.waiters[1..])
  }

  function FinishDigest(s: State, t: Task): State {
    s.(place := s.place[t := Finished],
       activeDigests := if s.activeDigests > 0 then s.activeDigests - 1 else 0)
  }

  function Apply(job: Job, s: State, a: Action): State
    requires job.Valid() && Enabled(job, s, a)
  {
    match a
    case Claim(w) =>
      var path := s.nextIndex;
      var claimed := s.(nextIndex := path + 1, inspected := s.inspected + [path]);
      if !job.comparable[path] then claimed
      else claimed.(workers := s.workers[w := Inspecting(path)],
                    place := Launch(s.place, TasksOf(path, job.pools)))
    case Exit(w) => s.(workers := s.workers[w := Exited])
    case Collect(w) =>
      var path := s.workers[w].path;
      var idle := s.(workers := s.workers[w := Idle]);
      if job.agree[path] then idle.(shared := s.shared + [path]) else idle
    case Start(t) => TakeSlotOrQueue(s, t)
    case Resume(t) => TakeSlotOrQueue(s, t)
    case Finish(t) => WakeFirst(FinishDigest(s, t))
  }

  function Launch(place: map<Task, Place>, ts: set<Task>): map<Task, Place> {
    place + (map t | t in ts :: Unstarted)
  }

  // ---------------------------------------------------------------- invariants

  ghost function Tasks(place: map<Task, Place>, p: Place): set<Task> {
    set t | t in place && place[t] == p
  }

  ghost predicate NoDuplicates<T>(xs: seq<T>) {
    forall i, j :: 0 <= i < j < |xs| ==> xs[i] != xs[j]
  }

  ghost predicate QueueSound(place: map<Task, Place>, waiters: seq<Task>) {
    && NoDuplicates(waiters)
    && forall t :: t in waiters <==> t in Tasks(place, Waiting)
  }

  /** At most 64 digests are active, and a non-empty queue means every slot is taken or promised. */
  ghost predicate SemaphoreSound(place: map<Task, Place>, waiters: seq<Task>, activeDigests: nat) {
    && activeDigests == |Tasks(place, Running)| <= MAX_CONCURRENT_DIGESTS
    && (|waiters| > 0 ==> activeDigests + |Tasks(place, Woken)| >= MAX_CONCURRENT_DIGESTS)
  }

  /** Exactly the digests of claimed, comparable paths have been launched. */
  ghost predicate LaunchedSound(job: Job, nextIndex: nat, launched: set<Task>) {
    && nextIndex <= job.Paths()
    && forall t :: t in launched <==> t.0 < nextIndex && job.comparable[t.0] && t.1 < job.pools
  }

  ghost predicate BeingInspected(workers: seq<Worker>, path: nat) {
    exists w :: 0 <= w < |workers| && workers[w] == Inspecting(path)
  }

  /** Each path under inspection is a claimed one and has one worker. */
  ghost predicate WorkersSound(job: Job, nextIndex: nat, workers: seq<Worker>) {
    && |workers| == Workers(job)
    && (forall w :: 0 <= w < |workers| && workers[w].Inspecting? ==>
          workers[w].path < nextIndex && workers[w].path < job.Paths() && job.comparable[workers[w].path])
    && (forall v, w :: 0 <= v < w < |workers| && workers[v].Inspecting? ==> workers[v] != workers[w])
    && (forall w :: 0 <= w < |workers| && workers[w].Exited? ==> nextIndex >= job.Paths())
  }

  /** An unfinished digest has a worker waiting for it. */
  ghost predicate Attended(workers: seq<Worker>, place: map<Task, Place>) {
    forall t :: t in place && place[t] != Finished ==> BeingInspected(workers, t.0)
  }

  /** Paths are inspected in index order, once each, and shared exactly when their digests agree. */
  ghost predicate ResultSound(
      job: Job, nextIndex: nat, workers: seq<Worker>, shared: seq<nat>, inspected: seq<nat>)
  {
    && nextIndex <= job.Paths() == |job.agree|
    && inspected == seq(nextIndex, i => i)
    && NoDuplicates(shared)
    && forall path: nat :: path in shared <==>
         path < nextIndex && job.comparable[path] && job.agree[path] && !BeingInspected(workers, path)
  }

  ghost predicate Inv(job: Job, s: State) {
    && QueueSound(s.place, s.waiters)
    && SemaphoreSound(s.place, s.waiters, s.activeDigests)
    && LaunchedSound(job, s.nextIndex, s.place.Keys)
    && WorkersSound(job, s.nextIndex, s.workers)
    && Attended(s.workers, s.place)
    && ResultSound(job, s.nextIndex, s.workers, s.shared, s.inspected)
  }

  lemma InitialHolds(job: Job)
    requires job.Valid()
    ensures Inv(job, Initial(job))
  {
    assert Tasks(map[], Running) == {} && Tasks(map[], Waiting) == {};
    assert [] == seq(0, i => i);
  }

  // ---------------------------------------------------------------- the semaphore keeps its invariant

  lemma TasksAfterMove(place: map<Task, Place>, t: Task, to: Place, p: Place)
    requires t in place && place[t] != to
    ensures Tasks(place[t := to], p)
         == if p == to then Tasks(place, p) + {t}
            else if p == place[t] then Tasks(place, p) - {t}
            else Tasks(place, p)
  {
  }

  /** Moving one digest between places changes two of the counts by one. */
  lemma MoveTask(place: map<Task, Place>, t: Task, to: Place)
    requires t in place && place[t] != to
    ensures Tasks(place[t := to], to) == Tasks(place, to) + {t}
    ensures Tasks(place[t := to], place[t]) == Tasks(place, place[t]) - {t}
    ensures |Tasks(place[t := to], to)| == |Tasks(place, to)| + 1
    ensures |Tasks(place[t := to], place[t])| == |Tasks(place, place[t])| - 1
    ensures forall p :: p != to && p != place[t] ==> Tasks(place[t := to], p) == Tasks(place, p)
    ensures place[t := to].Keys == place.Keys
  {
    InOnePlace(place, t, to);
    InOnePlace(place, t, place[t]);
    hide Tasks;
    forall p
      ensures Tasks(place[t := to], p)
           == if p == to then Tasks(place, p) + {t}
              else if p == place[t] then Tasks(place, p) - {t}
              else Tasks(place, p)
    {
      TasksAfterMove(place, t, to, p);
    }
  }

  lemma TakeSlotKeeps(s: State, t: Task)
    requires t in s.place && (s.place[t] == Unstarted || s.place[t] == Woken)
    requires QueueSound(s.place, s.waiters) && SemaphoreSound(s.place, s.waiters, s.activeDigests)
    ensures var s' := TakeSlotOrQueue(s, t);
            QueueSound(s'.place, s'.waiters) && SemaphoreSound(s'.place, s'.waiters, s'.activeDigests)
  {
    hide Tasks;
    var to := if s.activeDigests >= MAX_CONCURRENT_DIGESTS then Waiting else Running;
    assert t !in Tasks(s.place, Waiting) by { InOnePlace(s.place, t, Waiting); }
    MoveTask(s.place, t, to);
  }

  lemma InOnePlace(place: map<Task, Place>, t: Task, p: Place)
    ensures t in Tasks(place, p) <==> t in place && place[t] == p
  {
  }

  lemma FinishKeeps(s: State, t: Task)
    requires At(s, t, Running)
    requires QueueSound(s.place, s.waiters) && SemaphoreSound(s.place, s.waiters, s.activeDigests)
    ensures s.activeDigests > 0
    ensures var s' := WakeFirst(FinishDigest(s, t));
            QueueSound(s'.place, s'.waiters) && SemaphoreSound(s'.place, s'.waiters, s'.activeDigests)
  {
    hide Tasks;
    InOnePlace(s.place, t, Running);
    MoveTask(s.place, t, Finished);
    var freed := FinishDigest(s, t);
    if |s.waiters| > 0 {
      var first := s.waiters[0];
      assert first in s.waiters;
      InOnePlace(freed.place, first, Waiting);
      MoveTask(freed.place, first, Woken);
      QueueShift(s.waiters);
    }
  }

  lemma QueueShift(waiters: seq<Task>)
    requires |waiters| > 0 && NoDuplicates(waiters)
    ensures NoDuplicates(waiters[1..])
    ensures forall t :: t in waiters[1..] <==> t in waiters && t != waiters[0]
  {
    forall t | t in waiters && t != waiters[0] ensures t in waiters[1..] {
      var i :| 0 <= i < |waiters| && waiters[i] == t;
      assert waiters[1..][i - 1] == t;
    }
  }

  /** Starting, finishing and resuming a digest leave everything but its place and the queue alone. */
  lemma DigestStepKeeps(job: Job, s: State, a: Action)
    requires job.Valid() && Inv(job, s) && Enabled(job, s, a)
    requires a.Start? || a.Finish? || a.Resume?
    ensures Inv(job, Apply(job, s, a))
  {
    hide QueueSound, SemaphoreSound, LaunchedSound, WorkersSound, ResultSound;
    var s' := Apply(job, s, a);
    match a {
      case Start(t) => TakeSlotKeeps(s, t);
      case Resume(t) => TakeSlotKeeps(s, t);
      case Finish(t) =>
        FinishKeeps(s, t);
        if |s.waiters| > 0 {
          FirstWaits(s.place, s.waiters);
        }
      case _ =>
    }
    assert s'.place.Keys == s.place.Keys;
  }

  lemma FirstWaits(place: map<Task, Place>, waiters: seq<Task>)
    requires QueueSound(place, waiters) && |waiters| > 0
    ensures waiters[0] in place && place[waiters[0]] == Waiting
  {
    assert waiters[0] in waiters;
  }

  // ---------------------------------------------------------------- the workers keep theirs

  /** Replacing one worker affects only the paths that worker had or gets. */
  lemma InspectionsAfter(workers: seq<Worker>, w: nat, to: Worker)
    requires w < |workers|
    requires forall v :: 0 <= v < |workers| && v != w && workers[v].Inspecting? ==> workers[v] != workers[w]
    ensures forall path :: BeingInspected(workers[w := to], path) <==>
              to == Inspecting(path) || (BeingInspected(workers, path) && workers[w] != Inspecting(path))
  {
    var after := workers[w := to];
    forall path
      ensures BeingInspected(after, path) <==>
              to == Inspecting(path) || (BeingInspected(workers, path) && workers[w] != Inspecting(path))
    {
      if to == Inspecting(path) {
        assert after[w] == Inspecting(path);
      }
      if BeingInspected(workers, path) && workers[w] != Inspecting(path) {
        var v :| 0 <= v < |workers| && workers[v] == Inspecting(path);
        assert after[v] == Inspecting(path);
      }
      if BeingInspected(after, path) && to != Inspecting(path) {
        var v :| 0 <= v < |after| && after[v] == Inspecting(path);
        assert workers[v] == Inspecting(path);
      }
    }
  }

  lemma TasksAfterLaunch(place: map<Task, Place>, ts: set<Task>, p: Place)
    requires ts !! place.Keys
    ensures Tasks(Launch(place, ts), p) == if p == Unstarted then Tasks(place, p) + ts else Tasks(place, p)
    ensures Tasks(place, p) !! ts
  {
  }

  lemma LaunchSound(place: map<Task, Place>, ts: set<Task>)
    requires ts !! place.Keys
    ensures Launch(place, ts).Keys == place.Keys + ts
    ensures forall t :: t in place ==> Launch(place, ts)[t] == place[t]
    ensures |Tasks(Launch(place, ts), Unstarted)| == |Tasks(place, Unstarted)| + |ts|
    ensures forall p :: p != Unstarted ==> Tasks(Launch(place, ts), p) == Tasks(place, p)
  {
    hide Tasks;
    TasksAfterLaunch(place, ts, Unstarted);
    forall p | p != Unstarted ensures Tasks(Launch(place, ts), p) == Tasks(place, p) {
      TasksAfterLaunch(place, ts, p);
    }
  }

  lemma NewTasksAreNew(job: Job, s: State)
    requires job.Valid() && LaunchedSound(job, s.nextIndex, s.place.Keys) && s.nextIndex < job.Paths()
    ensures TasksOf(s.nextIndex, job.pools) !! s.place.Keys
    ensures job.comparable[s.nextIndex] ==>
              LaunchedSound(job, s.nextIndex + 1, s.place.Keys + TasksOf(s.nextIndex, job.pools))
    ensures !job.comparable[s.nextIndex] ==> LaunchedSound(job, s.nextIndex + 1, s.place.Keys)
  {
  }

  lemma ClaimResult(job: Job, s: State, workers: seq<Worker>)
    requires job.Valid() && s.nextIndex < job.Paths()
    requires ResultSound(job, s.nextIndex, s.workers, s.shared, s.inspected)
    requires !BeingInspected(s.workers, s.nextIndex)
    requires forall path :: BeingInspected(workers, path) <==>
               BeingInspected(s.workers, path) || (job.comparable[s.nextIndex] && path == s.nextIndex)
    ensures ResultSound(job, s.nextIndex + 1, workers, s.shared, s.inspected + [s.nextIndex])
  {
    assert s.inspected + [s.nextIndex] == seq(s.nextIndex + 1, i => i);
  }

  lemma ClaimWorkers(job: Job, nextIndex: nat, workers: seq<Worker>, w: nat)
    requires WorkersSound(job, nextIndex, workers) && nextIndex < job.Paths()
    requires w < |workers| && workers[w].Idle?
    ensures WorkersSound(job, nextIndex + 1, workers)
    ensures job.comparable[nextIndex] ==> WorkersSound(job, nextIndex + 1, workers[w := Inspecting(nextIndex)])
  {
  }

  lemma LaunchKeepsQueue(place: map<Task, Place>, waiters: seq<Task>, active: nat, ts: set<Task>)
    requires ts !! place.Keys
    requires QueueSound(place, waiters) && SemaphoreSound(place, waiters, active)
    ensures QueueSound(Launch(place, ts), waiters) && SemaphoreSound(Launch(place, ts), waiters, active)
  {
    hide Tasks;
    LaunchSound(place, ts);
  }

  lemma LaunchAttended(
      workers: seq<Worker>, after: seq<Worker>, place: map<Task, Place>, path: nat, pools: nat)
    requires Attended(workers, place) && TasksOf(path, pools) !! place.Keys
    requires forall q :: BeingInspected(after, q) <==> q == path || BeingInspected(workers, q)
    ensures Attended(after, Launch(place, TasksOf(path, pools)))
  {
    hide BeingInspected;
  }

  lemma ClaimKeeps(job: Job, s: State, w: nat)
    requires job.Valid() && Inv(job, s) && Enabled(job, s, Claim(w))
    ensures Inv(job, Apply(job, s, Claim(w)))
  {
    hide QueueSound, SemaphoreSound, LaunchedSound, WorkersSound, Attended, ResultSound, BeingInspected;
    var ts := TasksOf(s.nextIndex, job.pools);
    NewTasksAreNew(job, s);
    NotYetInspected(job, s.nextIndex, s.workers);
    ClaimWorkers(job, s.nextIndex, s.workers, w);
    if job.comparable[s.nextIndex] {
      var after := s.workers[w := Inspecting(s.nextIndex)];
      DistinctWorkers(job, s.nextIndex, s.workers, w);
      InspectionsAfter(s.workers, w, Inspecting(s.nextIndex));
      LaunchKeepsQueue(s.place, s.waiters, s.activeDigests, ts);
      LaunchSound(s.place, ts);
      LaunchAttended(s.workers, after, s.place, s.nextIndex, job.pools);
      ClaimResult(job, s, after);
    } else {
      ClaimResult(job, s, s.workers);
    }
  }

  lemma DistinctWorkers(job: Job, nextIndex: nat, workers: seq<Worker>, w: nat)
    requires WorkersSound(job, nextIndex, workers) && w < |workers|
    ensures forall v :: 0 <= v < |workers| && v != w && workers[v].Inspecting? ==> workers[v] != workers[w]
  {
  }

  lemma NotYetInspected(job: Job, nextIndex: nat, workers: seq<Worker>)
    requires WorkersSound(job, nextIndex, workers)
    ensures !BeingInspected(workers, nextIndex)
  {
  }

  lemma CollectResult(job: Job, s: State, w: nat)
    requires job.Valid() && Inv(job, s) && Enabled(job, s, Collect(w))
    ensures var s' := Apply(job, s, Collect(w));
            ResultSound(job, s'.nextIndex, s'.workers, s'.shared, s'.inspected)
  {
    hide QueueSound, SemaphoreSound, LaunchedSound, Attended;
    var done := s.workers[w].path;
    assert s.workers[w] == Inspecting(done);
    assert BeingInspected(s.workers, done);
    hide BeingInspected;
    InspectionsAfter(s.workers, w, Idle);
  }

  lemma CollectKeeps(job: Job, s: State, w: nat)
    requires job.Valid() && Inv(job, s) && Enabled(job, s, Collect(w))
    ensures Inv(job, Apply(job, s, Collect(w)))
  {
    hide QueueSound, SemaphoreSound, LaunchedSound, ResultSound, BeingInspected;
    var s' := Apply(job, s, Collect(w));
    CollectResult(job, s, w);
    InspectionsAfter(s.workers, w, Idle);
    forall t | t in s.place && s.place[t] != Finished ensures t.0 != s.workers[w].path {
      LaunchedBelow(job, s.nextIndex, s.place.Keys, t);
      assert t !in TasksOf(s.workers[w].path, job.pools);
    }
  }

  lemma LaunchedBelow(job: Job, nextIndex: nat, launched: set<Task>, t: Task)
    requires LaunchedSound(job, nextIndex, launched) && t in launched
    ensures t.0 < nextIndex && t.1 < job.pools
  {
  }

  lemma ExitKeeps(job: Job, s: State, w: nat)
    requires job.Valid() && Inv(job, s) && Enabled(job, s, Exit(w))
    ensures Inv(job, Apply(job, s, Exit(w)))
  {
    hide QueueSound, SemaphoreSound, LaunchedSound, BeingInspected;
    DistinctWorkers(job, s.nextIndex, s.workers, w);
    InspectionsAfter(s.workers, w, Exited);
    var after := s.workers[w := Exited];
    assert WorkersSound(job, s.nextIndex, after);
    SameInspections(job, s, after);
  }

  lemma SameInspections(job: Job, s: State, after: seq<Worker>)
    requires Attended(s.workers, s.place)
    requires ResultSound(job, s.nextIndex, s.workers, s.shared, s.inspected)
    requires forall path :: BeingInspected(after, path) <==> BeingInspected(s.workers, path)
    ensures Attended(after, s.place)
    ensures ResultSound(job, s.nextIndex, after, s.shared, s.inspected)
  {
    hide BeingInspected;
  }

  lemma StepKeeps(job: Job, s: State, a: Action)
    requires job.Valid() && Inv(job, s) && Enabled(job, s, a)
    ensures Inv(job, Apply(job, s, a))
  {
    hide Inv;
    match a
    case Claim(w) => ClaimKeeps(job, s, w);
    case Collect(w) => CollectKeeps(job, s, w);
    case Exit(w) => ExitKeeps(job, s, w);
    case _ => DigestStepKeeps(job, s, a);
  }

  // ---------------------------------------------------------------- progress

  function Weight(w: Worker): nat {
    match w case Idle => 1 case Inspecting(_) => 2 case Exited => 0
  }

  function TotalWeight(ws: seq<Worker>): nat {
    if |ws| == 0 then 0 else Weight(ws[0]) + TotalWeight(ws[1..])
  }

  lemma {:induction false} TotalWeightUpdate(ws: seq<Worker>, i: nat, w: Worker)
    requires i < |ws|
    ensures TotalWeight(ws[i := w]) == TotalWeight(ws) - Weight(ws[i]) + Weight(w)
  {
    if i == 0 {
      assert ws[0 := w][1..] == ws[1..];
    } else {
      TotalWeightUpdate(ws[1..], i - 1, w);
      assert ws[i := w][1..] == ws[1..][i - 1 := w];
    }
  }

  ghost function TaskWeight(place: map<Task, Place>): nat {
    4 * |Tasks(place, Unstarted)| + 3 * |Tasks(place, Woken)|
    + 2 * |Tasks(place, Running)| + 2 * |Tasks(place, Waiting)|
  }

  /** Paths still to claim, each worth more than all it can launch. */
  function ClaimWeight(job: Job, nextIndex: nat): nat {
    if nextIndex >= job.Paths() then 0 else (job.Paths() - nextIndex) * (4 * job.pools + 2)
  }

  /** Every step makes this smaller, so no schedule goes on for ever. */
  ghost function Remaining(job: Job, s: State): nat {
    ClaimWeight(job, s.nextIndex) + TaskWeight(s.place) + TotalWeight(s.workers)
  }

  lemma ClaimWeightStep(job: Job, nextIndex: nat)
    requires nextIndex < job.Paths()
    ensures ClaimWeight(job, nextIndex) == ClaimWeight(job, nextIndex + 1) + (4 * job.pools + 2)
  {
    var n, k := job.Paths() - nextIndex, 4 * job.pools + 2;
    assert n * k == (n - 1) * k + k;
  }

  lemma TakeSlotProgresses(s: State, t: Task)
    requires At(s, t, Unstarted) || At(s, t, Woken)
    ensures TaskWeight(TakeSlotOrQueue(s, t).place) < TaskWeight(s.place)
  {
    hide Tasks;
    MoveTask(s.place, t, if s.activeDigests >= MAX_CONCURRENT_DIGESTS then Waiting else Running);
  }

  lemma FinishProgresses(s: State, t: Task)
    requires At(s, t, Running) && QueueSound(s.place, s.waiters)
    ensures TaskWeight(WakeFirst(FinishDigest(s, t)).place) < TaskWeight(s.place)
  {
    if |s.waiters| > 0 {
      FirstWaits(s.place, s.waiters);
    }
    hide Tasks, QueueSound;
    MoveTask(s.place, t, Finished);
    if |s.waiters| > 0 {
      MoveTask(s.place[t := Finished], s.waiters[0], Woken);
    }
  }

  lemma ClaimProgresses(job: Job, s: State, w: nat)
    requires job.Valid() && Inv(job, s) && Enabled(job, s, Claim(w))
    ensures Remaining(job, Apply(job, s, Claim(w))) < Remaining(job, s)
  {
    InvLaunched(job, s);
    hide Tasks, ClaimWeight, TotalWeight, Inv, LaunchedSound;
    ClaimWeightStep(job, s.nextIndex);
    if job.comparable[s.nextIndex] {
      TotalWeightUpdate(s.workers, w, Inspecting(s.nextIndex));
      NewTasksAreNew(job, s);
      LaunchSound(s.place, TasksOf(s.nextIndex, job.pools));
    }
  }

  lemma StepProgresses(job: Job, s: State, a: Action)
    requires job.Valid() && Inv(job, s) && Enabled(job, s, a)
    ensures Remaining(job, Apply(job, s, a)) < Remaining(job, s)
  {
    hide TaskWeight, ClaimWeight, TotalWeight, SemaphoreSound, LaunchedSound, WorkersSound, Attended, ResultSound;
    match a
    case Claim(w) => ClaimProgresses(job, s, w);
    case Collect(w) => TotalWeightUpdate(s.workers, w, Idle);
    case Exit(w) => TotalWeightUpdate(s.workers, w, Exited);
    case Start(t) => TakeSlotProgresses(s, t);
    case Resume(t) => TakeSlotProgresses(s, t);
    case Finish(t) => FinishProgresses(s, t);
  }

  lemma InvLaunched(job: Job, s: State)
    requires Inv(job, s)
    ensures LaunchedSound(job, s.nextIndex, s.place.Keys)
  {
  }

  ghost predicate AllExited(s: State) {
    forall w :: 0 <= w < |s.workers| ==> s.workers[w].Exited?
  }

  /** No wake-up is lost: as long as a worker has not exited, some step is enabled. */
  lemma NoDeadlock(job: Job, s: State)
    requires job.Valid() && Inv(job, s) && !AllExited(s)
    ensures !Stuck(job, s)
  {
    hide ResultSound, Attended, WorkersSound;
    var w :| 0 <= w < |s.workers| && !s.workers[w].Exited?;
    if s.workers[w].Idle? {
      assert Enabled(job, s, Claim(w)) || Enabled(job, s, Exit(w));
    } else if t :| t in Tasks(s.place, Unstarted) {
      assert Enabled(job, s, Start(t));
    } else if t :| t in Tasks(s.place, Running) {
      assert Enabled(job, s, Finish(t));
    } else if t :| t in Tasks(s.place, Woken) {
      assert Enabled(job, s, Resume(t));
    } else {
      NobodyWaits(s);
      InspectedTasksLaunched(job, s, w);
      forall t | t in TasksOf(s.workers[w].path, job.pools) ensures At(s, t, Finished) {
        InSomePlace(s.place, t);
      }
      assert Enabled(job, s, Collect(w));
    }
  }

  lemma InSomePlace(place: map<Task, Place>, t: Task)
    requires t in place
    ensures place[t] == Finished || t in Tasks(place, Unstarted) || t in Tasks(place, Running)
         || t in Tasks(place, Woken) || t in Tasks(place, Waiting)
  {
  }

  lemma NobodyWaits(s: State)
    requires QueueSound(s.place, s.waiters) && SemaphoreSound(s.place, s.waiters, s.activeDigests)
    requires forall t :: t !in Tasks(s.place, Running) && t !in Tasks(s.place, Woken)
    ensures forall t :: t !in Tasks(s.place, Waiting)
  {
    hide Tasks;
    assert Tasks(s.place, Running) == {} && Tasks(s.place, Woken) == {};
    assert |s.waiters| == 0;
  }

  lemma InspectedTasksLaunched(job: Job, s: State, w: nat)
    requires job.Valid() && WorkersSound(job, s.nextIndex, s.workers)
    requires LaunchedSound(job, s.nextIndex, s.place.Keys)
    requires w < |s.workers| && s.workers[w].Inspecting?
    ensures s.workers[w].path < job.Paths()
    ensures forall t :: t in TasksOf(s.workers[w].path, job.pools) ==> t in s.place
  {
  }

  // ---------------------------------------------------------------- whole runs

  ghost predicate Follows(job: Job, s: State, s': State)
    requires job.Valid()
  {
    exists a :: Enabled(job, s, a) && s' == Apply(job, s, a)
  }

  /** No step is possible. */
  ghost predicate Stuck(job: Job, s: State)
    requires job.Valid()
  {
    forall a :: !Enabled(job, s, a)
  }

  ghost predicate IsRun(job: Job, run: seq<State>)
    requires job.Valid()
  {
    && |run| > 0 && run[0] == Initial(job)
    && forall i :: 0 <= i < |run| - 1 ==> Follows(job, run[i], run[i + 1])
  }

  lemma {:induction false} RunKeepsInv(job: Job, run: seq<State>, i: nat)
    requires job.Valid() && IsRun(job, run) && i < |run|
    ensures Inv(job, run[i])
    ensures i + Remaining(job, run[i]) <= Remaining(job, run[0])
  {
    hide Inv, Remaining;
    if i == 0 {
      InitialHolds(job);
    } else {
      RunKeepsInv(job, run, i - 1);
      assert Follows(job, run[i - 1], run[i - 1 + 1]);
      var a :| Enabled(job, run[i - 1], a) && run[i] == Apply(job, run[i - 1], a);
      StepKeeps(job, run[i - 1], a);
      StepProgresses(job, run[i - 1], a);
    }
  }

  /** In any schedule: never more than 64 active digests, and no run outlasts the initial measure. */
  lemma EveryRunIsSafeAndFinite(job: Job, run: seq<State>)
    requires job.Valid() && IsRun(job, run)
    ensures forall i :: 0 <= i < |run| ==>
              |Tasks(run[i].place, Running)| <= 64 && |run[i].workers| <= 32 && NoDuplicates(run[i].inspected)
    ensures |run| <= Remaining(job, Initial(job)) + 1
  {
    hide Remaining;
    forall i | 0 <= i < |run|
      ensures |Tasks(run[i].place, Running)| <= 64 && |run[i].workers| <= 32 && NoDuplicates(run[i].inspected)
    {
      RunKeepsInv(job, run, i);
    }
    RunKeepsInv(job, run, |run| - 1);
  }

  ghost function AgreeingPaths(job: Job): set<nat>
    requires job.Valid()
  {
    set path: nat | path < job.Paths() && job.comparable[path] && job.agree[path]
  }

  /**
   When a schedule cannot be continued it has inspected every path once, and the shared set is
   the same whatever the schedule was.
   */
  lemma EveryMaximalRunFindsTheSharedPaths(job: Job, run: seq<State>)
    requires job.Valid() && IsRun(job, run)
    requires Stuck(job, run[|run| - 1])
    ensures var last := run[|run| - 1];
            && AllExited(last)
            && last.inspected == seq(job.Paths(), i => i)
            && NoDuplicates(last.shared)
            && (set path | path in last.shared) == AgreeingPaths(job)
  {
    var last := run[|run| - 1];
    RunKeepsInv(job, run, |run| - 1);
    if !AllExited(last) {
      NoDeadlock(job, last);
      assert false;
    }
    AllExitedIsDone(job, last);
  }

  lemma AllExitedIsDone(job: Job, s: State)
    requires job.Valid() && Inv(job, s) && AllExited(s)
    ensures s.inspected == seq(job.Paths(), i => i) && NoDuplicates(s.shared)
    ensures (set path | path in s.shared) == AgreeingPaths(job)
  {
    if job.Paths() > 0 {
      assert s.workers[0].Exited?;
    }
    assert s.nextIndex == job.Paths();
  }
}

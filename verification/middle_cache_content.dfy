/**
 What concurrent serves answer over an unchanging disk, and that each of them gets to its answer
 whatever the others hold.
 */
module MiddleCacheContent {
  import opened Wrappers
  import opened FileCache
  import opened MiddleCacheServing
  import opened Recency

  /** The bytes are the asset's, under its own ETag or none. */
  ghost predicate IsAsset(disk: Disk, id: string, response: Response) {
    response.Served? ==>
      && ContentOf(disk, id) == Some(response.bytes)
      && (response.etag == "" || response.etag == disk.etagOf(response.bytes))
  }

  /** What a step reads is what the disk holds. */
  ghost predicate ReadsDisk(disk: Disk, s: State, a: Action) {
    a.r in s.ids ==>
      match a
      case Hit(r, _) => s.ids[r] in disk.assets
      case Miss(r) => s.ids[r] in disk.assets
      case Reject(r) => s.ids[r] !in disk.assets
      case Open(r) => ContentOf(disk, s.ids[r]).Some?
      case TakeRead(r, streamed) => ContentOf(disk, s.ids[r]) == Some(streamed)
      case ReadFile(_, file) => IsFillOf(file, disk)
      // A large file keeps its ETag unless rewinding fails; a failed read is answered without one.
      case ReadNothing(r, response) =>
        && IsAsset(disk, s.ids[r], response)
        && (response.Served? && response.etag != "" ==> |response.bytes| > MAX_FILE_BYTES)
      case _ => true
  }

  ghost predicate FollowsOn(disk: Disk, s: State, s': State) {
    exists a :: Enabled(s, a) && ReadsDisk(disk, s, a) && s' == Apply(s, a)
  }

  ghost predicate IsDiskRun(disk: Disk, run: seq<State>) {
    && |run| > 0 && run[0] == State([], map[], map[], 0, 0)
    && forall i :: 0 <= i < |run| - 1 ==> FollowsOn(disk, run[i], run[i + 1])
  }

  lemma DiskRunIsRun(disk: Disk, run: seq<State>)
    requires IsDiskRun(disk, run)
    ensures IsRun(run)
  {
    forall i | 0 <= i < |run| - 1 ensures Follows(run[i], run[i + 1]) {
      assert FollowsOn(disk, run[i], run[i + 1]);
    }
  }

  // ---------------------------------------------------------------- what is answered

  /** A request holds nothing that is not its own asset's. */
  ghost predicate RequestSound(disk: Disk, id: string, p: Phase) {
    match p
    case Opened => ContentOf(disk, id).Some?
    case Reading(_) => ContentOf(disk, id).Some?
    case Filled(file) => file.id == id && IsFillOf(file, disk)
    case Sending(_, response) => IsAsset(disk, id, response) && !response.Exhausted?
    case Finished(response) => IsAsset(disk, id, response)
    case _ => true
  }

  ghost predicate ContentSound(disk: Disk, s: State) {
    && s.ids.Keys == s.phases.Keys
    && FilledFrom(s.cache, disk)
    && forall r :: r in s.phases ==> RequestSound(disk, s.ids[r], s.phases[r])
  }

  lemma StepKeepsCacheFilled(disk: Disk, s: State, a: Action)
    requires ContentSound(disk, s) && Inv(s) && Enabled(s, a) && ReadsDisk(disk, s, a)
    ensures FilledFrom(Apply(s, a).cache, disk)
  {
    match a
    case Hit(r, i) => TouchKeepsFill(s.cache, i, disk);
    case Put(r) =>
      assert RequestSound(disk, s.ids[r], s.phases[r]);
      InsertKeepsFill(s.cache, s.phases[r].file, disk);
    case _ =>
  }

  lemma StepKeepsRequest(disk: Disk, s: State, a: Action)
    requires ContentSound(disk, s) && Enabled(s, a) && ReadsDisk(disk, s, a)
    ensures var s' := Apply(s, a);
            && a.r in s'.ids && a.r in s'.phases
            && s'.ids.Keys == s'.phases.Keys
            && RequestSound(disk, s'.ids[a.r], s'.phases[a.r])
            && forall r :: r in s.phases && r != a.r ==>
                 r in s'.phases && s'.phases[r] == s.phases[r] && s'.ids[r] == s.ids[r]
  {
    hide Touch, Insert, Holds;
    assert a.r in s.phases ==> RequestSound(disk, s.ids[a.r], s.phases[a.r]);
    if a.Hit? {
      assert IsFillOf(s.cache[a.i], disk);
    }
  }

  lemma StepKeepsContent(disk: Disk, s: State, a: Action)
    requires ContentSound(disk, s) && Inv(s) && Enabled(s, a) && ReadsDisk(disk, s, a)
    ensures ContentSound(disk, Apply(s, a))
  {
    StepKeepsCacheFilled(disk, s, a);
    StepKeepsRequest(disk, s, a);
    PhasesAfter(s, a);
    hide Enabled, Apply, ReadsDisk, Inv, FilledFrom, RequestSound;
  }

  lemma PhasesAfter(s: State, a: Action)
    requires Enabled(s, a)
    ensures forall r :: r in Apply(s, a).phases ==> r == a.r || r in s.phases
  {
    hide Touch, Insert, Holds;
  }

  lemma {:induction false} DiskRunKeepsContent(disk: Disk, run: seq<State>, i: nat)
    requires IsDiskRun(disk, run) && i < |run|
    ensures ContentSound(disk, run[i])
  {
    hide ContentSound, Inv;
    if i == 0 {
      NothingYet(disk);
    } else {
      DiskRunKeepsContent(disk, run, i - 1);
      DiskRunIsRun(disk, run);
      RunKeepsInv(run, i - 1);
      assert FollowsOn(disk, run[i - 1], run[i - 1 + 1]);
      var a :| Enabled(run[i - 1], a) && ReadsDisk(disk, run[i - 1], a) && run[i] == Apply(run[i - 1], a);
      StepKeepsContent(disk, run[i - 1], a);
    }
  }

  lemma NothingYet(disk: Disk)
    ensures ContentSound(disk, State([], map[], map[], 0, 0))
  {
  }

  /**
   In every interleaving, two requests filling the same id included, what a request is sent is its
   own asset's bytes under that asset's ETag or none, and every cached file is the fill of its id.
   */
  lemma EveryResponseIsTheAsset(disk: Disk, run: seq<State>, i: nat, r: nat)
    requires IsDiskRun(disk, run) && i < |run| && r in run[i].phases
    ensures r in run[i].ids && FilledFrom(run[i].cache, disk)
    ensures run[i].phases[r].Sending? || run[i].phases[r].Finished? ==>
              IsAsset(disk, run[i].ids[r], run[i].phases[r].response)
  {
    DiskRunKeepsContent(disk, run, i);
    assert RequestSound(disk, run[i].ids[r], run[i].phases[r]);
  }

  /** The second of two fills of one id leaves the cache as it is, and is still answered in full. */
  lemma SecondFillChangesNothing(disk: Disk, run: seq<State>, i: nat, r: nat)
    requires IsDiskRun(disk, run) && i < |run| && r in run[i].phases && run[i].phases[r].Filled?
    ensures r in run[i].ids && Enabled(run[i], Put(r))
    ensures var s := run[i]; var s' := Apply(s, Put(r));
            && Holds(s'.cache, s.ids[r])
            && (Holds(s.cache, s.ids[r]) ==> s'.cache == s.cache)
            && ContentOf(disk, s.ids[r]).Some?
            && var content := ContentOf(disk, s.ids[r]).value;
               s'.phases[r] == Sending(|content|, Served(content, disk.etagOf(content)))
  {
    DiskRunKeepsContent(disk, run, i);
    DiskRunIsRun(disk, run);
    RunKeepsInv(run, i);
    assert RequestSound(disk, run[i].ids[r], run[i].phases[r]);
    InsertWithinBounds(run[i].cache, run[i].phases[r].file);
  }

  // ---------------------------------------------------------------- progress

  /** No unfinished request is ever stuck: a step of its own is possible, whatever the others hold. */
  lemma RequestCanProceed(disk: Disk, run: seq<State>, i: nat, r: nat)
    requires IsDiskRun(disk, run) && i < |run| && r in run[i].phases && !run[i].phases[r].Finished?
    ensures exists a :: Enabled(run[i], a) && ReadsDisk(disk, run[i], a) && a.r == r && !a.Arrive?
  {
    var s := run[i];
    DiskRunKeepsContent(disk, run, i);
    assert r in s.ids && RequestSound(disk, s.ids[r], s.phases[r]);
    var id := s.ids[r];
    var next :=
      match s.phases[r]
      case Arrived => Admit(r)
      case Admitted =>
        if id !in disk.assets then Reject(r)
        else if Holds(s.cache, id) then
          var i :| 0 <= i < |s.cache| && s.cache[i].id == id;
          Hit(r, i)
        else Miss(r)
      case Missed => OpenFails(r)
      case Opened => TakeRead(r, ContentOf(disk, id).value)
      case Reading(_) => ReadNothing(r, AssetError)
      case Filled(_) => Put(r)
      case Sending(_, _) => Finish(r)
      case Finished(_) => Finish(r);
    assert Enabled(s, next) && ReadsDisk(disk, s, next) && next.r == r;
  }
}

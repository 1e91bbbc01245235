/**
 One request of the middle cache while the others stand still: the ways it can be answered, and what
 each leaves in the cache. No step is missing and none does anything else.
 */
module MiddleCacheRequests {
  import opened Wrappers
  import opened FileCache
  import opened MiddleCacheContent
  import opened MiddleCacheServing
  import opened Recency

  /** What a request may be answered, and the cache it leaves. */
  ghost predicate Outcome(disk: Disk, s: State, id: string, response: Response, cache: seq<CachedFile>) {
    if s.serveTokens >= 64 then
      response == Exhausted && cache == s.cache
    else if id !in disk.assets then
      response == AssetError && cache == s.cache
    else if Holds(s.cache, id) then
      exists i :: IsHitAt(s.cache, id, i, response, cache)
    else
      // A failed open or rewind; the plain stream; the file under its ETag, kept if it is at most 1 MiB.
      || (response == AssetError && cache == s.cache)
      || (ContentOf(disk, id).Some? && response == Served(ContentOf(disk, id).value, "") && cache == s.cache)
      || IsFillOutcome(disk, s, id, response, cache)
  }

  ghost predicate IsHitAt(files: seq<CachedFile>, id: string, i: nat, response: Response, cache: seq<CachedFile>) {
    && i < |files| && files[i].id == id
    && response == Served(files[i].data, files[i].etag) && cache == [files[i]] + files[..i] + files[i + 1..]
  }

  ghost predicate IsFillOutcome(disk: Disk, s: State, id: string, response: Response, cache: seq<CachedFile>) {
    && ContentOf(disk, id).Some? && s.readTokens < 4
    && var content := ContentOf(disk, id).value;
       var etag := disk.etagOf(content);
       && response == Served(content, etag)
       && cache == if |content| <= 1048576 then Insert(s.cache, CachedFile(id, content, etag)) else s.cache
  }

  /** Steps of this request alone. */
  ghost predicate AloneStep(disk: Disk, t: State, t': State, r: nat) {
    exists a: Action :: a.r == r && !a.Arrive? && Enabled(t, a) && ReadsDisk(disk, t, a) && t' == Apply(t, a)
  }

  ghost predicate AloneRun(disk: Disk, s: State, r: nat, id: string, run: seq<State>) {
    && r !in s.phases && |run| > 0 && run[0] == Apply(s, Arrive(r, id))
    && forall i :: 0 <= i < |run| - 1 ==> AloneStep(disk, run[i], run[i + 1], r)
  }

  ghost predicate AloneUntil(disk: Disk, s: State, r: nat, id: string, run: seq<State>, t: State) {
    AloneRun(disk, s, r, id, run) && run[|run| - 1] == t
  }

  /** The state while only this request has moved since `s`, whatever it has come to. */
  ghost predicate Alone(disk: Disk, s: State, t: State, r: nat, id: string) {
    && r in t.phases && r in t.ids && t.ids == s.ids[r := id] && t.phases == s.phases[r := t.phases[r]]
    && t.serveTokens == s.serveTokens + One(HoldsServe(t.phases[r]))
    && t.readTokens == s.readTokens + One(t.phases[r].Reading?)
    && Reached(disk, s, t.phases[r], id, t.cache)
  }

  ghost predicate Missing(disk: Disk, s: State, id: string) {
    s.serveTokens < 64 && id in disk.assets && !Holds(s.cache, id)
  }

  ghost predicate Reached(disk: Disk, s: State, p: Phase, id: string, cache: seq<CachedFile>) {
    match p
    case Sending(_, response) => !response.Exhausted? && s.serveTokens < 64 && Outcome(disk, s, id, response, cache)
    case Finished(response) => Outcome(disk, s, id, response, cache)
    case _ =>
      && cache == s.cache
      && (p.Admitted? ==> s.serveTokens < 64)
      && (p.Missed? || p.Opened? || p.Reading? || p.Filled? ==> Missing(disk, s, id))
      && (p.Opened? || p.Reading? || p.Filled? ==> ContentOf(disk, id).Some?)
      && (p.Reading? || p.Filled? ==> s.readTokens < 4)
      && (p.Filled? ==> p.file.id == id && IsFillOf(p.file, disk) && |p.file.data| <= 1048576)
  }

  lemma StepStaysAlone(disk: Disk, s: State, t: State, a: Action, r: nat, id: string)
    requires Alone(disk, s, t, r, id) && a.r == r && !a.Arrive? && Enabled(t, a) && ReadsDisk(disk, t, a)
    ensures Alone(disk, s, Apply(t, a), r, id)
  {
    hide Insert, Holds, IsFillOutcome;
    if a.Hit? {
      HitOutcome(disk, s, t, r, id, a.i);
    } else if a.Put? {
      PutOutcome(disk, s, t, r, id);
    } else if a.ReadNothing? {
      NothingOutcome(disk, s, t, r, id, a.response);
    }
  }

  lemma HitOutcome(disk: Disk, s: State, t: State, r: nat, id: string, i: nat)
    requires Alone(disk, s, t, r, id) && Enabled(t, Hit(r, i)) && ReadsDisk(disk, t, Hit(r, i))
    ensures Alone(disk, s, Apply(t, Hit(r, i)), r, id)
  {
    var file := s.cache[i];
    assert IsHitAt(s.cache, id, i, Served(file.data, file.etag), Touch(s.cache, i));
  }

  lemma PutOutcome(disk: Disk, s: State, t: State, r: nat, id: string)
    requires Alone(disk, s, t, r, id) && Enabled(t, Put(r))
    ensures Alone(disk, s, Apply(t, Put(r)), r, id)
  {
    hide Insert;
    var file := t.phases[r].file;
    assert file == CachedFile(id, ContentOf(disk, id).value, disk.etagOf(ContentOf(disk, id).value));
    assert IsFillOutcome(disk, s, id, Served(file.data, file.etag), Insert(s.cache, file));
  }

  lemma NothingOutcome(disk: Disk, s: State, t: State, r: nat, id: string, response: Response)
    requires Alone(disk, s, t, r, id) && Enabled(t, ReadNothing(r, response)) && ReadsDisk(disk, t, ReadNothing(r, response))
    ensures Alone(disk, s, Apply(t, ReadNothing(r, response)), r, id)
  {
    hide Insert;
    if response.Served? && response.etag != "" {
      assert IsFillOutcome(disk, s, id, response, s.cache);
    }
  }

  lemma {:induction false} RunStaysAlone(disk: Disk, s: State, r: nat, id: string, run: seq<State>, i: nat)
    requires AloneRun(disk, s, r, id, run) && i < |run|
    ensures Alone(disk, s, run[i], r, id)
  {
    hide Alone, Apply, Enabled, ReadsDisk;
    if i == 0 {
      ArrivalIsAlone(disk, s, r, id);
    } else {
      RunStaysAlone(disk, s, r, id, run, i - 1);
      assert AloneStep(disk, run[i - 1], run[i - 1 + 1], r);
      var a: Action :| a.r == r && !a.Arrive? && Enabled(run[i - 1], a) && ReadsDisk(disk, run[i - 1], a) && run[i] == Apply(run[i - 1], a);
      StepStaysAlone(disk, s, run[i - 1], a, r, id);
    }
  }

  lemma ArrivalIsAlone(disk: Disk, s: State, r: nat, id: string)
    requires r !in s.phases
    ensures Alone(disk, s, Apply(s, Arrive(r, id)), r, id)
  {
  }

  /** What a finished request leaves: its answer and the cache; tokens and other requests are as before. */
  function After(s: State, r: nat, id: string, response: Response, cache: seq<CachedFile>): State {
    State(cache, s.ids[r := id], s.phases[r := Finished(response)], s.serveTokens, s.readTokens)
  }

  // ---------------------------------------------------------------- every outcome is possible

  /** Take one more step. */
  lemma Continue(disk: Disk, s: State, r: nat, id: string, run: seq<State>, a: Action) returns (longer: seq<State>)
    requires AloneRun(disk, s, r, id, run)
    requires a.r == r && !a.Arrive? && Enabled(run[|run| - 1], a) && ReadsDisk(disk, run[|run| - 1], a)
    ensures AloneRun(disk, s, r, id, longer) && longer[|longer| - 1] == Apply(run[|run| - 1], a)
  {
    hide Enabled, ReadsDisk, Apply;
    var t := Apply(run[|run| - 1], a);
    longer := run + [t];
    assert AloneStep(disk, run[|run| - 1], t, r);
    forall i | 0 <= i < |longer| - 1 ensures AloneStep(disk, longer[i], longer[i + 1], r) {
      if i < |run| - 1 {
        assert AloneStep(disk, run[i], run[i + 1], r);
      }
    }
  }

  lemma Admission(disk: Disk, s: State, r: nat, id: string) returns (run: seq<State>)
    requires r !in s.phases
    ensures AloneRun(disk, s, r, id, run)
    ensures run[|run| - 1] == if s.serveTokens < 64
                              then s.(phases := s.phases[r := Admitted], ids := s.ids[r := id], serveTokens := s.serveTokens + 1)
                              else After(s, r, id, Exhausted, s.cache)
  {
    run := [Apply(s, Arrive(r, id))];
    run := Continue(disk, s, r, id, run, Admit(r));
    assert s.phases[r := Arrived][r := Admitted] == s.phases[r := Admitted];
    assert s.phases[r := Arrived][r := Finished(Exhausted)] == s.phases[r := Finished(Exhausted)];
  }

  /** From a request that is sending, the run that finishes. */
  lemma Sent(disk: Disk, s: State, r: nat, id: string, run: seq<State>) returns (longer: seq<State>)
    requires AloneRun(disk, s, r, id, run) && r in run[|run| - 1].phases && run[|run| - 1].phases[r].Sending?
    ensures AloneRun(disk, s, r, id, longer)
    ensures var t := run[|run| - 1];
            longer[|longer| - 1] == After(s, r, id, t.phases[r].response, t.cache)
  {
    var t := run[|run| - 1];
    RunStaysAlone(disk, s, r, id, run, |run| - 1);
    longer := Continue(disk, s, r, id, run, Finish(r));
    assert s.phases[r := t.phases[r]][r := Finished(t.phases[r].response)] == s.phases[r := Finished(t.phases[r].response)];
  }

  /** Up to the open file. */
  lemma Opening(disk: Disk, s: State, r: nat, id: string) returns (run: seq<State>)
    requires r !in s.phases && Missing(disk, s, id) && ContentOf(disk, id).Some?
    ensures AloneRun(disk, s, r, id, run)
    ensures var t := run[|run| - 1]; r in t.phases && t.phases[r].Opened?
  {
    run := Admission(disk, s, r, id);
    hide Holds, AloneRun;
    run := Continue(disk, s, r, id, run, Miss(r));
    run := Continue(disk, s, r, id, run, Open(r));
  }

  lemma FailureHappens(disk: Disk, s: State, r: nat, id: string) returns (run: seq<State>)
    requires r !in s.phases && s.serveTokens < 64 && (id in disk.assets ==> !Holds(s.cache, id))
    ensures AloneRun(disk, s, r, id, run) && run[|run| - 1] == After(s, r, id, AssetError, s.cache)
  {
    run := Admission(disk, s, r, id);
    hide Holds, AloneRun;
    if id in disk.assets {
      run := Continue(disk, s, r, id, run, Miss(r));
      run := Continue(disk, s, r, id, run, OpenFails(r));
    } else {
      run := Continue(disk, s, r, id, run, Reject(r));
    }
    run := Sent(disk, s, r, id, run);
  }

  lemma HitHappens(disk: Disk, s: State, r: nat, id: string, i: nat) returns (run: seq<State>)
    requires r !in s.phases && s.serveTokens < 64 && id in disk.assets && i < |s.cache| && s.cache[i].id == id
    ensures AloneRun(disk, s, r, id, run)
    ensures run[|run| - 1] == After(s, r, id, Served(s.cache[i].data, s.cache[i].etag), Touch(s.cache, i))
  {
    run := Admission(disk, s, r, id);
    hide Holds, AloneRun, Touch;
    run := Continue(disk, s, r, id, run, Hit(r, i));
    run := Sent(disk, s, r, id, run);
  }

  lemma StreamHappens(disk: Disk, s: State, r: nat, id: string) returns (run: seq<State>)
    requires r !in s.phases && Missing(disk, s, id) && ContentOf(disk, id).Some?
    ensures AloneRun(disk, s, r, id, run)
    ensures run[|run| - 1] == After(s, r, id, Served(ContentOf(disk, id).value, ""), s.cache)
  {
    var content := ContentOf(disk, id).value;
    run := Opening(disk, s, r, id);
    RunStaysAlone(disk, s, r, id, run, |run| - 1);
    hide Holds, AloneRun;
    run := Continue(disk, s, r, id, run, TakeRead(r, content));
    if s.readTokens < 4 {
      run := Continue(disk, s, r, id, run, ReadNothing(r, Served(content, "")));
    }
    run := Sent(disk, s, r, id, run);
  }

  /** The fill reads the whole file into its buffer first, when it is small enough to be kept. */
  lemma FillHappens(disk: Disk, s: State, r: nat, id: string) returns (run: seq<State>)
    requires r !in s.phases && Missing(disk, s, id) && ContentOf(disk, id).Some? && s.readTokens < 4
    ensures AloneRun(disk, s, r, id, run)
    ensures var content := ContentOf(disk, id).value;
            var etag := disk.etagOf(content);
            run[|run| - 1] == After(s, r, id, Served(content, etag),
                                    if |content| <= 1048576 then Insert(s.cache, CachedFile(id, content, etag)) else s.cache)
  {
    var content := ContentOf(disk, id).value;
    var etag := disk.etagOf(content);
    run := Opening(disk, s, r, id);
    RunStaysAlone(disk, s, r, id, run, |run| - 1);
    hide Holds, AloneRun, Insert;
    run := Continue(disk, s, r, id, run, TakeRead(r, content));
    if |content| <= 1048576 {
      if content != "" {
        run := Continue(disk, s, r, id, run, Buffer(r, |content|));
      }
      run := Continue(disk, s, r, id, run, ReadFile(r, CachedFile(id, content, etag)));
      run := Continue(disk, s, r, id, run, Put(r));
    } else {
      run := Continue(disk, s, r, id, run, ReadNothing(r, Served(content, etag)));
    }
    run := Sent(disk, s, r, id, run);
  }

  lemma OutcomeHappens(disk: Disk, s: State, r: nat, id: string, response: Response, cache: seq<CachedFile>)
    returns (run: seq<State>)
    requires r !in s.phases && Outcome(disk, s, id, response, cache)
    ensures AloneRun(disk, s, r, id, run) && run[|run| - 1] == After(s, r, id, response, cache)
  {
    hide AloneRun, Holds, Insert;
    if s.serveTokens >= 64 {
      run := Admission(disk, s, r, id);
    } else if response.AssetError? {
      run := FailureHappens(disk, s, r, id);
    } else if Holds(s.cache, id) {
      var i :| IsHitAt(s.cache, id, i, response, cache);
      run := HitHappens(disk, s, r, id, i);
    } else if IsFillOutcome(disk, s, id, response, cache) {
      run := FillHappens(disk, s, r, id);
    } else {
      run := StreamHappens(disk, s, r, id);
    }
  }

  // ---------------------------------------------------------------- exactly these

  /**
   A request that nothing interrupts can end in a state if and only if that state holds one of the
   stated answers and the cache it leaves, with every token back and every other request untouched.
   */
  lemma UninterruptedRequest(disk: Disk, s: State, r: nat, id: string, t: State)
    requires r !in s.phases
    ensures (exists run :: AloneUntil(disk, s, r, id, run, t) && r in t.phases && t.phases[r].Finished?)
       <==> exists response, cache :: Outcome(disk, s, id, response, cache) && t == After(s, r, id, response, cache)
  {
    hide Outcome;
    if run :| AloneUntil(disk, s, r, id, run, t) && r in t.phases && t.phases[r].Finished? {
      RunStaysAlone(disk, s, r, id, run, |run| - 1);
      assert t == After(s, r, id, t.phases[r].response, t.cache);
    }
    if response, cache :| Outcome(disk, s, id, response, cache) && t == After(s, r, id, response, cache) {
      var run := OutcomeHappens(disk, s, r, id, response, cache);
      assert AloneUntil(disk, s, r, id, run, t);
    }
  }
}

/**
 Concurrent serves of the middle cache: two counting semaphores, one mutex-guarded cache, and
 responses that keep hold of cached bytes after eviction. Each step is one channel or mutex
 operation, or the end of an I/O; requests interleave in any order.
 */
module MiddleCacheServing {
  import opened FileCache
  import opened Recency

  const MAX_SERVES: nat := 64
  const MAX_READS: nat := 4

  /** How far a request is, the bytes it keeps alive, and in the end what it was answered. */
  datatype Phase =
    | Arrived
    | Admitted
    | Missed
    | Opened
    | Reading(buffered: nat)
    | Filled(file: CachedFile)
    | Sending(held: nat, response: Response)
    | Finished(response: Response)

  datatype State = State(
    cache: seq<CachedFile>,
    ids: map<nat, string>,
    phases: map<nat, Phase>,
    serveTokens: nat,
    readTokens: nat)

  datatype Action =
    | Arrive(r: nat, id: string)
    | Admit(r: nat)
    | Hit(r: nat, i: nat)
    | Miss(r: nat)
    | Reject(r: nat)
    | Open(r: nat)
    | OpenFails(r: nat)
    | TakeRead(r: nat, streamed: string)
    | Buffer(r: nat, total: nat)
    | ReadFile(r: nat, file: CachedFile)
    | ReadNothing(r: nat, response: Response)
    | Put(r: nat)
    | Finish(r: nat)

  predicate In(s: State, r: nat, p: Phase) {
    r in s.phases && r in s.ids && s.phases[r] == p
  }

  predicate IsReading(s: State, r: nat) {
    r in s.phases && r in s.ids && s.phases[r].Reading?
  }

  predicate HoldsServe(p: Phase) {
    !p.Arrived? && !p.Finished?
  }

  function Held(p: Phase): nat {
    match p
    case Reading(n) => n
    case Filled(f) => |f.data|
    case Sending(n, _) => n
    case _ => 0
  }

  predicate Enabled(s: State, a: Action) {
    match a
    case Arrive(r, _) => r !in s.phases
    case Admit(r) => In(s, r, Arrived)
    // A hit is decided by the map; the index says where in the list the element is.
    case Hit(r, i) => In(s, r, Admitted) && i < |s.cache| && s.cache[i].id == s.ids[r]
    case Miss(r) => In(s, r, Admitted) && !Holds(s.cache, s.ids[r])
    case Reject(r) => In(s, r, Admitted)
    case Open(r) => In(s, r, Missed)
    case OpenFails(r) => In(s, r, Missed)
    case TakeRead(r, _) => In(s, r, Opened)
    case Buffer(r, total) => IsReading(s, r) && s.phases[r].buffered < total <= MAX_FILE_BYTES + 1
    case ReadFile(r, file) => IsReading(s, r) && file.id == s.ids[r] && |file.data| <= MAX_FILE_BYTES
    case ReadNothing(r, response) => IsReading(s, r) && !response.Exhausted?
    case Put(r) => r in s.phases && s.phases[r].Filled?
    case Finish(r) => r in s.phases && s.phases[r].Sending?
  }

  function Apply(s: State, a: Action): State
    requires Enabled(s, a)
  {
    match a
    case Arrive(r, id) => s.(phases := s.phases[r := Arrived], ids := s.ids[r := id])
    case Admit(r) =>
      if s.serveTokens < MAX_SERVES then
        s.(phases := s.phases[r := Admitted], serveTokens := s.serveTokens + 1)
      else s.(phases := s.phases[r := Finished(Exhausted)])
    case Hit(r, i) =>
      var file := s.cache[i];
      s.(phases := s.phases[r := Sending(|file.data|, Served(file.data, file.etag))], cache := Touch(s.cache, i))
    case Miss(r) => s.(phases := s.phases[r := Missed])
    case Reject(r) => s.(phases := s.phases[r := Sending(0, AssetError)])
    case Open(r) => s.(phases := s.phases[r := Opened])
    case OpenFails(r) => s.(phases := s.phases[r := Sending(0, AssetError)])
    case TakeRead(r, streamed) =>
      if s.readTokens < MAX_READS then
        s.(phases := s.phases[r := Reading(0)], readTokens := s.readTokens + 1)
      else s.(phases := s.phases[r := Sending(0, Served(streamed, ""))])
    case Buffer(r, total) => s.(phases := s.phases[r := Reading(total)])
    case ReadFile(r, file) =>
      s.(phases := s.phases[r := Filled(file)], readTokens := Pred(s.readTokens))
    case ReadNothing(r, response) =>
      // Too large to cache, or a failed read: the buffer may live until the response ends.
      s.(phases := s.phases[r := Sending(s.phases[r].buffered, response)], readTokens := Pred(s.readTokens))
    case Put(r) =>
      var file := s.phases[r].file;
      s.(phases := s.phases[r := Sending(|file.data|, Served(file.data, file.etag))], cache := Insert(s.cache, file))
    case Finish(r) =>
      s.(phases := s.phases[r := Finished(s.phases[r].response)], serveTokens := Pred(s.serveTokens))
  }

  function Pred(n: nat): nat {
    if n == 0 then 0 else n - 1
  }

  // ---------------------------------------------------------------- counting

  ghost function Serving(phases: map<nat, Phase>): set<nat> {
    set r | r in phases && HoldsServe(phases[r])
  }

  ghost function ReadingNow(phases: map<nat, Phase>): set<nat> {
    set r | r in phases && phases[r].Reading?
  }

  /** Bytes kept alive by the given requests. */
  ghost function HeldBy(rs: set<nat>, phases: map<nat, Phase>): nat
    requires rs <= phases.Keys
  {
    if rs == {} then 0
    else
      var r :| r in rs;
      Held(phases[r]) + HeldBy(rs - {r}, phases)
  }

  ghost predicate PhasesBounded(phases: map<nat, Phase>) {
    forall r :: r in phases ==> Held(phases[r]) <= MAX_FILE_BYTES + 1
  }

  ghost predicate TokensExact(s: State) {
    && s.serveTokens == |Serving(s.phases)| <= MAX_SERVES
    && s.readTokens == |ReadingNow(s.phases)| <= MAX_READS
  }

  ghost predicate CacheBounded(cache: seq<CachedFile>) {
    && WithinBounds(cache) && DistinctIds(cache)
    && forall i :: 0 <= i < |cache| ==> |cache[i].data| <= MAX_FILE_BYTES
  }

  ghost predicate FillsBounded(phases: map<nat, Phase>) {
    forall r :: r in phases && phases[r].Filled? ==> |phases[r].file.data| <= MAX_FILE_BYTES
  }

  ghost predicate Inv(s: State) {
    && TokensExact(s) && PhasesBounded(s.phases) && FillsBounded(s.phases) && CacheBounded(s.cache)
    && s.ids.Keys == s.phases.Keys
  }

  predicate WasServing(phases: map<nat, Phase>, r: nat) {
    r in phases && HoldsServe(phases[r])
  }

  predicate WasReading(phases: map<nat, Phase>, r: nat) {
    r in phases && phases[r].Reading?
  }

  function One(b: bool): int {
    if b then 1 else 0
  }

  /** A change of one request's phase changes each count by what that request held. */
  lemma CountsAfter(phases: map<nat, Phase>, r: nat, to: Phase)
    ensures |Serving(phases[r := to])|
         == |Serving(phases)| - One(WasServing(phases, r)) + One(HoldsServe(to))
    ensures |ReadingNow(phases[r := to])|
         == |ReadingNow(phases)| - One(WasReading(phases, r)) + One(to.Reading?)
    ensures WasServing(phases, r) ==> |Serving(phases)| > 0
    ensures WasReading(phases, r) ==> |ReadingNow(phases)| > 0
  {
    hide Serving, ReadingNow, WasServing, WasReading, HoldsServe;
    ServingAfter(phases, r, to);
    ReadingAfter(phases, r, to);
    CountWithAndWithout(Serving(phases), r);
    CountWithAndWithout(ReadingNow(phases), r);
  }

  lemma ServingAfter(phases: map<nat, Phase>, r: nat, to: Phase)
    ensures Serving(phases[r := to])
         == if HoldsServe(to) then Serving(phases) + {r} else Serving(phases) - {r}
    ensures r in Serving(phases) <==> WasServing(phases, r)
  {
  }

  lemma ReadingAfter(phases: map<nat, Phase>, r: nat, to: Phase)
    ensures ReadingNow(phases[r := to])
         == if to.Reading? then ReadingNow(phases) + {r} else ReadingNow(phases) - {r}
    ensures r in ReadingNow(phases) <==> WasReading(phases, r)
  {
  }

  lemma CountWithAndWithout(rs: set<nat>, r: nat)
    ensures |rs + {r}| == if r in rs then |rs| else |rs| + 1
    ensures |rs - {r}| == if r in rs then |rs| - 1 else |rs|
    ensures r in rs ==> |rs| > 0
  {
    if r in rs {
      assert rs + {r} == rs;
    } else {
      assert rs - {r} == rs;
    }
  }

  lemma StepKeepsTokens(s: State, a: Action)
    requires Inv(s) && Enabled(s, a)
    ensures TokensExact(Apply(s, a))
  {
    hide Serving, ReadingNow, Insert, Touch, CacheBounded, FillsBounded, PhasesBounded;
    var s' := Apply(s, a);
    CountsAfter(s.phases, a.r, s'.phases[a.r]);
    assert s'.phases == s.phases[a.r := s'.phases[a.r]];
  }

  lemma StepKeepsCache(s: State, a: Action)
    requires Inv(s) && Enabled(s, a)
    ensures CacheBounded(Apply(s, a).cache)
  {
    match a
    case Hit(r, i) => TouchKeepsBounds(s.cache, i);
    case Put(r) => InsertKeepsBounds(s.cache, s.phases[r].file);
    case _ =>
  }

  lemma TouchKeepsBounds(cache: seq<CachedFile>, i: nat)
    requires CacheBounded(cache) && i < |cache|
    ensures CacheBounded(Touch(cache, i))
  {
    TouchKeepsSize(cache, i);
  }

  lemma InsertKeepsBounds(cache: seq<CachedFile>, f: CachedFile)
    requires CacheBounded(cache) && |f.data| <= MAX_FILE_BYTES
    ensures CacheBounded(Insert(cache, f))
  {
    InsertWithinBounds(cache, f);
    EvictKeepsLongestPrefix(cache, |f.data|);
  }

  lemma StepKeepsInv(s: State, a: Action)
    requires Inv(s) && Enabled(s, a)
    ensures Inv(Apply(s, a))
  {
    StepKeepsTokens(s, a);
    StepKeepsCache(s, a);
    hide TokensExact, CacheBounded, Insert, Touch;
  }

  // ---------------------------------------------------------------- the bounds

  lemma {:induction false} HeldOnlyByServing(rs: set<nat>, phases: map<nat, Phase>, serving: set<nat>)
    requires rs <= phases.Keys && PhasesBounded(phases)
    requires forall r :: r in phases && Held(phases[r]) > 0 ==> r in serving
    ensures HeldBy(rs, phases) <= |rs * serving| * (MAX_FILE_BYTES + 1)
    decreases |rs|
  {
    if rs != {} {
      var r :| r in rs && HeldBy(rs, phases) == Held(phases[r]) + HeldBy(rs - {r}, phases);
      hide HeldBy;
      var rest := (rs - {r}) * serving;
      HeldOnlyByServing(rs - {r}, phases, serving);
      if r in serving {
        assert rs * serving == rest + {r};
        assert |rs * serving| == |rest| + 1;
      } else {
        assert rs * serving == rest;
      }
    }
  }

  ghost function BytesRetained(s: State): nat {
    Size(s.cache) + HeldBy(s.phases.Keys, s.phases)
  }

  ghost predicate IsRun(run: seq<State>) {
    && |run| > 0 && run[0] == State([], map[], map[], 0, 0)
    && forall i :: 0 <= i < |run| - 1 ==> Follows(run[i], run[i + 1])
  }

  ghost predicate Follows(s: State, s': State) {
    exists a :: Enabled(s, a) && s' == Apply(s, a)
  }

  lemma {:induction false} RunKeepsInv(run: seq<State>, i: nat)
    requires IsRun(run) && i < |run|
    ensures Inv(run[i])
  {
    if i == 0 {
      assert Serving(map[]) == {} && ReadingNow(map[]) == {};
      assert Size([]) == 0;
    } else {
      RunKeepsInv(run, i - 1);
      hide Inv;
      assert Follows(run[i - 1], run[i - 1 + 1]);
      var a :| Enabled(run[i - 1], a) && run[i] == Apply(run[i - 1], a);
      StepKeepsInv(run[i - 1], a);
    }
  }

  /** In every interleaving: at most 64 admitted, at most 4 reading, and memory is bounded. */
  lemma ServingIsBounded(run: seq<State>, i: nat)
    requires IsRun(run) && i < |run|
    ensures |Serving(run[i].phases)| <= 64 && |ReadingNow(run[i].phases)| <= 4
    ensures Size(run[i].cache) <= 67108864 && |run[i].cache| <= 4096
    ensures BytesRetained(run[i]) <= 67108864 + 64 * (1048576 + 1)
  {
    RunKeepsInv(run, i);
    var s := run[i];
    HeldOnlyByServing(s.phases.Keys, s.phases, Serving(s.phases));
    assert s.phases.Keys * Serving(s.phases) == Serving(s.phases);
  }

  /** Every token taken comes back: once all requests have finished, none is out. */
  lemma AllTokensReturn(run: seq<State>, i: nat)
    requires IsRun(run) && i < |run|
    requires forall r :: r in run[i].phases ==> run[i].phases[r].Finished?
    ensures run[i].serveTokens == 0 && run[i].readTokens == 0
  {
    RunKeepsInv(run, i);
    assert Serving(run[i].phases) == {} && ReadingNow(run[i].phases) == {};
  }

  // ---------------------------------------------------------------- every request finishes

  /** How far a request still has to go. */
  function Weight(p: Phase): nat {
    match p
    case Arrived => MAX_FILE_BYTES + 8
    case Admitted => MAX_FILE_BYTES + 7
    case Missed => MAX_FILE_BYTES + 6
    case Opened => MAX_FILE_BYTES + 5
    case Reading(n) => 3 + (if n <= MAX_FILE_BYTES then MAX_FILE_BYTES + 1 - n else 0)
    case Filled(_) => 2
    case Sending(_, _) => 1
    case Finished(_) => 0
  }

  /** Each step of a request brings it nearer its end, and no step moves another request. */
  lemma StepAdvancesRequest(s: State, a: Action, r: nat)
    requires Enabled(s, a) && r in s.phases
    ensures r in Apply(s, a).phases
    ensures if a.r == r then Weight(Apply(s, a).phases[r]) < Weight(s.phases[r])
            else Apply(s, a).phases[r] == s.phases[r]
  {
    hide Touch, Insert, Holds;
  }

  /** The steps between two moments of a run that are this request's own. */
  ghost function Turns(run: seq<State>, r: nat, i: nat, j: nat): nat
    requires i <= j < |run|
    decreases j - i
  {
    if i == j then 0
    else
      var moved := r in run[i].phases && r in run[i + 1].phases && run[i].phases[r] != run[i + 1].phases[r];
      (if moved then 1 else 0) + Turns(run, r, i + 1, j)
  }

  lemma {:induction false} TurnsLowerWeight(run: seq<State>, r: nat, i: nat, j: nat)
    requires IsRun(run) && i <= j < |run| && r in run[i].phases
    ensures r in run[j].phases
    ensures Turns(run, r, i, j) + Weight(run[j].phases[r]) <= Weight(run[i].phases[r])
    decreases j - i
  {
    hide Weight;
    if i < j {
      assert Follows(run[i], run[i + 1]);
      var a :| Enabled(run[i], a) && run[i + 1] == Apply(run[i], a);
      StepAdvancesRequest(run[i], a, r);
      hide Apply, Enabled;
      TurnsLowerWeight(run, r, i + 1, j);
    }
  }

  /** In any interleaving a request has finished once it has taken its bounded number of turns. */
  lemma RequestFinishes(run: seq<State>, r: nat, i: nat, j: nat)
    requires IsRun(run) && i <= j < |run| && r in run[i].phases
    ensures Turns(run, r, i, j) <= MAX_FILE_BYTES + 8
    ensures r in run[j].phases
    ensures Turns(run, r, i, j) == Weight(run[i].phases[r]) ==> run[j].phases[r].Finished?
  {
    TurnsLowerWeight(run, r, i, j);
  }
}

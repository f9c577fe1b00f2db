/** The lifecycle-generation protocol of the response cache.

    Any number of tool calls run beside one reconciler at a time.  A call notes the
    generation under the lifecycle read lock, executes without any lock while it reads
    the plugin-binding snapshot twice, and stores its response only if the generation is
    still the one it noted.  The reconciler, under the write lock, bumps the generation,
    flushes the affected tools one by one (each flush may fail) and then replaces the
    snapshot.  Every step below is one atomic action of one of these parties. */
module CacheProtocol {
  import opened Common
  import opened CacheKeys
  import opened GlobPattern
  import opened PluginRegistry

  /** The generation is an unsigned 64-bit counter. */
  const COUNTER_SIZE: nat := 0x1_0000_0000_0000_0000

  /** The names of the tools a snapshot binds plugins to. */
  function BindingTargets(snapshot: Snapshot): set<string> {
    set tool, i | tool in snapshot && 0 <= i < |snapshot[tool]| && snapshot[tool][i].binding.tool.name != ""
      :: snapshot[tool][i].binding.tool.name
  }

  /** The tool names a reconciliation flushes. */
  function FlushTargets(current: Snapshot, next: Snapshot): set<string> {
    BindingTargets(current) + BindingTargets(next)
  }

  /** What a cached response is filed under; `revision` is the digest or, without one, the
      version of the tool. */
  datatype CacheKey = CacheKey(tool: RevisionKey, revision: string, scope: string, arguments: string)

  /** Keys as calls build them: a named tool, and parts that cannot be confused. */
  predicate IsKey(key: CacheKey) {
    key.tool.name != "" && key.revision != "" && IsPart(key.revision) && IsPart(key.scope) && IsPart(key.arguments)
  }

  function Text(key: CacheKey): string {
    KeyText(key.tool.name, key.revision, key.scope, key.arguments)
  }

  /** Flushing a tool scans for this key. */
  predicate Reaches(tool: string, key: CacheKey) {
    Match(FlushPattern(tool), Text(key)) == Some(true)
  }

  /** A malformed pattern makes the scan fail at the first key it meets. */
  predicate Malformed(tool: string) {
    Terms(FlushPattern(tool)).None?
  }

  /** The flush of a key's own tool removes the key, or fails because of it. */
  predicate Flushable(key: CacheKey) {
    Malformed(key.tool.name) || Reaches(key.tool.name, key)
  }

  /** A cached response, tagged with the bindings that produced it. */
  datatype Entry = Entry(response: string, raw: seq<Bound>, after: seq<Bound>)

  /** Where a call stands.  The first four and the four from `StoreLocked` on hold the
      lifecycle read lock. */
  datatype Stage =
    | ProbeLocked | Probing | Missed | Served(entry: Entry)
    | Executing | RawRead | BothRead | Responded
    | StoreLocked | Matching | Mismatching | Stored
    | Finished

  datatype Call = Call(
    key: CacheKey, stage: Stage, generation: nat, epoch: nat,
    raw: seq<Bound>, after: seq<Bound>, response: string)

  /** The holder of the lifecycle write lock. */
  datatype Writer = Idle | Holding | Flushing(next: Snapshot, remaining: set<string>, failed: bool)

  /** `epoch` counts the bumps; the program only has its remainder, `generation`. */
  datatype State = State(
    generation: nat, epoch: nat, writer: Writer, readers: set<nat>,
    snapshot: Snapshot, cache: map<CacheKey, Entry>, calls: map<nat, Call>)

  datatype Step =
    | EnterProbe(id: nat, key: CacheKey)
    | Capture(id: nat)
    | ProbeHit(id: nat)
    | ProbeMiss(id: nat)
    | LeaveProbe(id: nat)
    | ReadRaw(id: nat)
    | ReadAfter(id: nat)
    | Respond(id: nat, response: string)
    | Fail(id: nat)
    | EnterStore(id: nat)
    | Compare(id: nat)
    | Store(id: nat)
    | LeaveStore(id: nat)
    | Forget(keys: set<CacheKey>)
    | Lock
    | Bump(next: Snapshot)
    | Flush(tool: string)
    | FlushFails(tool: string, deleted: set<CacheKey>)
    | Replace
    | Abort
    | Unlock

  predicate HoldsReadLock(stage: Stage) {
    || stage.ProbeLocked? || stage.Probing? || stage.Missed? || stage.Served?
    || stage.StoreLocked? || stage.Matching? || stage.Mismatching? || stage.Stored?
  }

  predicate At(s: State, id: nat, stage: Stage) {
    id in s.calls && s.calls[id].stage == stage
  }

  ghost predicate Enabled(s: State, t: Step) {
    match t
    case EnterProbe(id, key) => id !in s.calls && s.writer.Idle? && IsKey(key)
    case Capture(id) => At(s, id, ProbeLocked)
    case ProbeHit(id) => At(s, id, Probing) && s.calls[id].key in s.cache
    case ProbeMiss(id) => At(s, id, Probing)  // absent, expired, corrupt or timed out
    case LeaveProbe(id) => id in s.calls && (s.calls[id].stage.Missed? || s.calls[id].stage.Served?)
    case ReadRaw(id) => At(s, id, Executing)
    case ReadAfter(id) => At(s, id, RawRead)
    case Respond(id, _) => At(s, id, BothRead)
    case Fail(id) => At(s, id, BothRead)
    case EnterStore(id) => At(s, id, Responded) && s.writer.Idle?
    case Compare(id) => At(s, id, StoreLocked)
    case Store(id) => At(s, id, Matching)
    case LeaveStore(id) => At(s, id, Matching) || At(s, id, Mismatching) || At(s, id, Stored)
    case Forget(_) => true  // eviction, expiry, auto-flush, operator flush
    case Lock => s.writer.Idle? && s.readers == {}
    case Bump(next) => s.writer.Holding? && WellFormed(next)
    case Flush(tool) =>
      s.writer.Flushing? && tool in s.writer.remaining && (Malformed(tool) ==> s.cache == map[])
    case FlushFails(tool, deleted) =>
      && s.writer.Flushing? && tool in s.writer.remaining
      && forall key :: key in deleted ==> Reaches(tool, key)
    case Replace => s.writer.Flushing? && s.writer.remaining == {} && !s.writer.failed
    case Abort => s.writer.Flushing? && s.writer.remaining == {} && s.writer.failed
    case Unlock => s.writer.Holding?
  }

  ghost function Move(s: State, id: nat, call: Call): State
    requires id in s.calls
  {
    s.(calls := s.calls[id := call],
       readers := if HoldsReadLock(call.stage) then s.readers + {id} else s.readers - {id})
  }

  ghost function Do(s: State, t: Step): State
    requires Enabled(s, t)
  {
    match t
    case EnterProbe(id, key) =>
      s.(calls := s.calls[id := Call(key, ProbeLocked, 0, 0, [], [], "")], readers := s.readers + {id})
    case Capture(id) =>
      Move(s, id, s.calls[id].(stage := Probing, generation := s.generation, epoch := s.epoch))
    case ProbeHit(id) => Move(s, id, s.calls[id].(stage := Served(s.cache[s.calls[id].key])))
    case ProbeMiss(id) => Move(s, id, s.calls[id].(stage := Missed))
    case LeaveProbe(id) =>
      Move(s, id, s.calls[id].(stage := if s.calls[id].stage.Missed? then Executing else Finished))
    case ReadRaw(id) =>
      Move(s, id, s.calls[id].(stage := RawRead,
                               raw := RuntimeBindings(s.snapshot, s.calls[id].key.tool, RawResponse)))
    case ReadAfter(id) =>
      Move(s, id, s.calls[id].(stage := BothRead,
                               after := RuntimeBindings(s.snapshot, s.calls[id].key.tool, AfterResponse)))
    case Respond(id, response) => Move(s, id, s.calls[id].(stage := Responded, response := response))
    case Fail(id) => Move(s, id, s.calls[id].(stage := Finished))
    case EnterStore(id) => Move(s, id, s.calls[id].(stage := StoreLocked))
    case Compare(id) =>
      Move(s, id, s.calls[id].(stage := if s.calls[id].generation == s.generation then Matching else Mismatching))
    case Store(id) =>
      var c := s.calls[id];
      Move(s, id, c.(stage := Stored)).(cache := s.cache[c.key := Entry(c.response, c.raw, c.after)])
    case LeaveStore(id) => Move(s, id, s.calls[id].(stage := Finished))
    case Forget(keys) => s.(cache := s.cache - keys)
    case Lock => s.(writer := Holding)
    case Bump(next) =>
      s.(generation := (s.generation + 1) % COUNTER_SIZE, epoch := s.epoch + 1,
         writer := Flushing(next, FlushTargets(s.snapshot, next), false))
    case Flush(tool) =>
      s.(cache := map key | key in s.cache && !Reaches(tool, key) :: s.cache[key],
         writer := s.writer.(remaining := s.writer.remaining - {tool}))
    case FlushFails(tool, deleted) =>
      s.(cache := s.cache - deleted,
         writer := s.writer.(remaining := s.writer.remaining - {tool}, failed := true))
    case Replace => s.(snapshot := s.writer.next, writer := Holding)
    case Abort => s.(writer := Holding)
    case Unlock => s.(writer := Idle)
  }

  /** A freshly started server: no bindings, nothing cached, nobody at work. */
  const START := State(0, 0, Idle, {}, map[], map[], map[])

  ghost predicate Initial(s: State) {
    s == START
  }

  ghost predicate Run(s: State, steps: seq<Step>, s': State)
    decreases |steps|
  {
    if steps == [] then s' == s
    else Enabled(s, steps[0]) && Run(Do(s, steps[0]), steps[1..], s')
  }

  /** No call compares generations when the 64-bit counter has just gone full circle since
      it noted one, once or several times. */
  ghost predicate NeverWrapped(s: State, steps: seq<Step>)
    decreases |steps|
  {
    steps != [] && Enabled(s, steps[0]) ==>
      && (steps[0].Compare? ==> !Wrapped(s, steps[0].id))
      && NeverWrapped(Do(s, steps[0]), steps[1..])
  }

  /** A positive multiple of 2^64 bumps has gone by since the call noted the generation. */
  predicate Wrapped(s: State, id: nat)
    requires id in s.calls
  {
    s.epoch != s.calls[id].epoch && (s.epoch - s.calls[id].epoch) % COUNTER_SIZE == 0
  }

  ghost predicate Current(s: State, key: CacheKey, entry: Entry) {
    && entry.raw == RuntimeBindings(s.snapshot, key.tool, RawResponse)
    && entry.after == RuntimeBindings(s.snapshot, key.tool, AfterResponse)
  }

  /** Every cached response under a flushable key was computed from exactly the bindings of
      the current snapshot, both phases alike. */
  ghost predicate Coherent(s: State) {
    forall key :: key in s.cache && Flushable(key) ==> Current(s, key, s.cache[key])
  }

  /** A response a call took from the cache is current as long as the call holds the lock. */
  ghost predicate HitsAreCurrent(s: State) {
    forall id :: id in s.calls && s.calls[id].stage.Served? && Flushable(s.calls[id].key) ==>
                   Current(s, s.calls[id].key, s.calls[id].stage.entry)
  }

  predicate HasRaw(stage: Stage) {
    || stage.RawRead? || HasBoth(stage)
  }

  predicate HasBoth(stage: Stage) {
    || stage.BothRead? || stage.Responded? || stage.StoreLocked? || stage.Matching?
  }

  /** What each call in flight may rely on.  A call whose generation is the newest one has
      read from the current snapshot, because a snapshot is only replaced after a bump. */
  ghost predicate CallInvariant(s: State, id: nat)
    requires id in s.calls
  {
    var c := s.calls[id];
    && (HoldsReadLock(c.stage) ==> id in s.readers)
    && c.epoch <= s.epoch
    && (!c.stage.ProbeLocked? ==> c.generation == c.epoch % COUNTER_SIZE)
    && (s.writer.Flushing? ==> c.epoch < s.epoch)
    && (c.epoch == s.epoch && HasRaw(c.stage) ==> c.raw == RuntimeBindings(s.snapshot, c.key.tool, RawResponse))
    && (c.epoch == s.epoch && HasBoth(c.stage) ==> c.after == RuntimeBindings(s.snapshot, c.key.tool, AfterResponse))
    && (c.stage.Matching? ==> c.epoch == s.epoch)
    && (c.stage.Served? && Flushable(c.key) ==> Current(s, c.key, c.stage.entry))
  }

  /** A flush that has not failed has removed every entry of the tools already done. */
  ghost predicate FlushProgress(s: State) {
    s.writer.Flushing? ==>
      && WellFormed(s.writer.next)
      && (!s.writer.failed ==>
            forall key :: key in s.cache && Flushable(key) && key.tool.name in FlushTargets(s.snapshot, s.writer.next) ==>
                            key.tool.name in s.writer.remaining)
  }

  ghost predicate Invariant(s: State) {
    && s.generation == s.epoch % COUNTER_SIZE
    && (!s.writer.Idle? ==> s.readers == {})
    && WellFormed(s.snapshot)
    && FlushProgress(s)
    && (forall id :: id in s.calls ==> CallInvariant(s, id))
    && Coherent(s)
  }

  lemma SameRemainder(a: nat, b: nat)
    requires a <= b && a % COUNTER_SIZE == b % COUNTER_SIZE
    ensures (b - a) % COUNTER_SIZE == 0
  {
    assert b - a == COUNTER_SIZE * (b / COUNTER_SIZE - a / COUNTER_SIZE);
  }

  lemma BoundRevisionIsTargeted(snapshot: Snapshot, tool: RevisionKey)
    requires WellFormed(snapshot)
    requires tool in snapshot && snapshot[tool] != []
    ensures tool.name in BindingTargets(snapshot)
  {
    assert snapshot[tool][0].binding.tool == tool;
  }

  /** A revision outside the flush targets has no bindings before or after. */
  lemma UntargetedHasNoBindings(snapshot: Snapshot, tool: RevisionKey)
    requires WellFormed(snapshot)
    requires tool.name !in BindingTargets(snapshot)
    ensures forall phase :: RuntimeBindings(snapshot, tool, phase) == []
  {
    if tool in snapshot && snapshot[tool] != [] {
      BoundRevisionIsTargeted(snapshot, tool);
    }
  }

  lemma ReplaceKeepsCoherence(s: State)
    requires Invariant(s) && Enabled(s, Replace)
    ensures Coherent(Do(s, Replace))
  {
    var next := s.writer.next;
    forall key | key in s.cache && Flushable(key)
      ensures Current(Do(s, Replace), key, s.cache[key])
    {
      assert key.tool.name !in FlushTargets(s.snapshot, next);
      UntargetedHasNoBindings(s.snapshot, key.tool);
      UntargetedHasNoBindings(next, key.tool);
      assert Current(s, key, s.cache[key]);
    }
  }

  lemma StepKeepsCoherence(s: State, t: Step)
    requires Invariant(s) && Enabled(s, t)
    ensures Coherent(Do(s, t))
  {
    var s' := Do(s, t);
    if t.Replace? {
      ReplaceKeepsCoherence(s);
    } else {
      forall key | key in s'.cache && Flushable(key)
        ensures Current(s', key, s'.cache[key])
      {
        if t.Store? && key == s.calls[t.id].key {
          assert CallInvariant(s, t.id);
        } else {
          assert Current(s, key, s.cache[key]);
        }
      }
    }
  }

  lemma FlushKeepsProgress(s: State, tool: string)
    requires Invariant(s) && Enabled(s, Flush(tool))
    ensures FlushProgress(Do(s, Flush(tool)))
  {
    forall key | key in Do(s, Flush(tool)).cache && Flushable(key) ensures key in s.cache && key.tool.name != tool {
    }
  }

  lemma StepKeepsFlushProgress(s: State, t: Step)
    requires Invariant(s) && Enabled(s, t)
    ensures FlushProgress(Do(s, t)) && WellFormed(Do(s, t).snapshot)
  {
    if t.Flush? {
      FlushKeepsProgress(s, t.tool);
    } else if t.Store? {
      assert CallInvariant(s, t.id);
    }
  }

  /** The call a step belongs to; the reconciler's steps and evictions belong to none. */
  function Actor(t: Step): Option<nat> {
    match t
    case EnterProbe(id, _) => Some(id)
    case Capture(id) => Some(id)
    case ProbeHit(id) => Some(id)
    case ProbeMiss(id) => Some(id)
    case LeaveProbe(id) => Some(id)
    case ReadRaw(id) => Some(id)
    case ReadAfter(id) => Some(id)
    case Respond(id, _) => Some(id)
    case Fail(id) => Some(id)
    case EnterStore(id) => Some(id)
    case Compare(id) => Some(id)
    case Store(id) => Some(id)
    case LeaveStore(id) => Some(id)
    case _ => None
  }

  /** What a step leaves alone, seen from a call that did not take it. */
  ghost predicate Frame(s: State, s': State, id: nat) {
    && id in s.calls && id in s'.calls && s'.calls[id] == s.calls[id]
    && (id in s.readers ==> id in s'.readers)
    && s.epoch <= s'.epoch
    && (s'.snapshot != s.snapshot ==> s.writer.Flushing?)
    && (s'.epoch != s.epoch ==> !s.writer.Idle?)
    && (s'.writer.Flushing? ==> s.writer.Flushing? || s.epoch < s'.epoch)
  }

  lemma ForeignStepFrames(s: State, t: Step, id: nat)
    requires Enabled(s, t) && id in s.calls && Actor(t) != Some(id)
    ensures Frame(s, Do(s, t), id)
  {
  }

  lemma FrameKeepsCall(s: State, s': State, id: nat)
    requires Frame(s, s', id) && CallInvariant(s, id)
    requires !s.writer.Idle? ==> s.readers == {}
    ensures CallInvariant(s', id)
  {
  }

  lemma ProbeStepKeepsCall(s: State, t: Step)
    requires Invariant(s) && Enabled(s, t) && Actor(t).Some?
    requires t.EnterProbe? || t.Capture? || t.ProbeHit? || t.ProbeMiss? || t.LeaveProbe?
    ensures CallInvariant(Do(s, t), Actor(t).value)
  {
    if t.ProbeHit? && Flushable(s.calls[t.id].key) {
      assert Current(s, s.calls[t.id].key, s.cache[s.calls[t.id].key]);
    }
    assert !t.EnterProbe? ==> CallInvariant(s, Actor(t).value);
  }

  lemma ExecutionStepKeepsCall(s: State, t: Step)
    requires Invariant(s) && Enabled(s, t) && Actor(t).Some?
    requires t.ReadRaw? || t.ReadAfter? || t.Respond? || t.Fail?
    ensures CallInvariant(Do(s, t), Actor(t).value)
  {
    assert CallInvariant(s, Actor(t).value);
  }

  lemma StoreStepKeepsCall(s: State, t: Step)
    requires Invariant(s) && Enabled(s, t) && Actor(t).Some?
    requires t.EnterStore? || t.Compare? || t.Store? || t.LeaveStore?
    requires t.Compare? ==> !Wrapped(s, t.id)
    ensures CallInvariant(Do(s, t), Actor(t).value)
  {
    assert CallInvariant(s, Actor(t).value);
    if t.Compare? && s.calls[t.id].generation == s.generation {
      SameRemainder(s.calls[t.id].epoch, s.epoch);
    }
  }

  lemma StepKeepsCalls(s: State, t: Step, id: nat)
    requires Invariant(s) && Enabled(s, t) && id in Do(s, t).calls
    requires t.Compare? ==> !Wrapped(s, t.id)
    ensures CallInvariant(Do(s, t), id)
  {
    if Actor(t) != Some(id) {
      ForeignStepFrames(s, t, id);
      FrameKeepsCall(s, Do(s, t), id);
    } else if t.EnterProbe? || t.Capture? || t.ProbeHit? || t.ProbeMiss? || t.LeaveProbe? {
      ProbeStepKeepsCall(s, t);
    } else if t.ReadRaw? || t.ReadAfter? || t.Respond? || t.Fail? {
      ExecutionStepKeepsCall(s, t);
    } else {
      StoreStepKeepsCall(s, t);
    }
  }

  lemma StepKeepsInvariant(s: State, t: Step)
    requires Invariant(s) && Enabled(s, t)
    requires t.Compare? ==> !Wrapped(s, t.id)
    ensures Invariant(Do(s, t))
  {
    StepKeepsCoherence(s, t);
    StepKeepsFlushProgress(s, t);
    forall id | id in Do(s, t).calls
      ensures CallInvariant(Do(s, t), id)
    {
      StepKeepsCalls(s, t, id);
    }
  }

  lemma SameRemainderBack(a: nat, b: nat)
    requires a <= b && (b - a) % COUNTER_SIZE == 0
    ensures a % COUNTER_SIZE == b % COUNTER_SIZE
  {
    assert b == a + COUNTER_SIZE * ((b - a) / COUNTER_SIZE);
  }

  /** A step keeps the invariant if and only if it is no comparison made full laps late. */
  lemma InvariantKeptExactly(s: State, t: Step)
    requires Invariant(s) && Enabled(s, t)
    ensures Invariant(Do(s, t)) <==> !(t.Compare? && Wrapped(s, t.id))
  {
    if t.Compare? && Wrapped(s, t.id) {
      LateComparisonMatches(s, t.id);
    } else {
      StepKeepsInvariant(s, t);
    }
  }

  lemma LateComparisonMatches(s: State, id: nat)
    requires Invariant(s) && Enabled(s, Compare(id)) && Wrapped(s, id)
    ensures id in Do(s, Compare(id)).calls && !CallInvariant(Do(s, Compare(id)), id)
  {
    assert CallInvariant(s, id);
    SameRemainderBack(s.calls[id].epoch, s.epoch);
    assert At(Do(s, Compare(id)), id, Matching);
  }

  lemma {:induction false} RunKeepsInvariant(s: State, steps: seq<Step>, s': State)
    requires Invariant(s) && Run(s, steps, s') && NeverWrapped(s, steps)
    ensures Invariant(s')
    decreases |steps|
  {
    if steps != [] {
      StepKeepsInvariant(s, steps[0]);
      RunKeepsInvariant(Do(s, steps[0]), steps[1..], s');
    }
  }

  /** In every interleaving, every cached entry and every hit in progress was computed from
      exactly the bindings of the current snapshot. */
  lemma CacheAlwaysCoherent(s: State, steps: seq<Step>, s': State)
    requires Initial(s) && Run(s, steps, s') && NeverWrapped(s, steps)
    ensures Coherent(s') && HitsAreCurrent(s')
  {
    RunKeepsInvariant(s, steps, s');
    forall id | id in s'.calls && s'.calls[id].stage.Served? && Flushable(s'.calls[id].key)
      ensures Current(s', s'.calls[id].key, s'.calls[id].stage.entry)
    {
      assert CallInvariant(s', id);
    }
  }

  // ---------------------------------------------------------------------------
  // Where cached responses come from.

  /** A response as some call gave it: for its key, from the bindings it had read. */
  datatype Answer = Answer(key: CacheKey, entry: Entry)

  /** The answers given along a run. */
  ghost function Answers(s: State, steps: seq<Step>): set<Answer>
    decreases |steps|
  {
    if steps == [] || !Enabled(s, steps[0]) then {}
    else Given(s, steps[0]) + Answers(Do(s, steps[0]), steps[1..])
  }

  ghost function Given(s: State, t: Step): set<Answer>
    requires Enabled(s, t)
  {
    if t.Respond? then {Answer(s.calls[t.id].key, Entry(t.response, s.calls[t.id].raw, s.calls[t.id].after))} else {}
  }

  predicate HasResponse(stage: Stage) {
    stage.Responded? || stage.StoreLocked? || stage.Matching?
  }

  /** What is cached, served or about to be stored has been given. */
  ghost predicate Backed(s: State, given: set<Answer>) {
    && (forall key :: key in s.cache ==> Answer(key, s.cache[key]) in given)
    && (forall id :: id in s.calls && s.calls[id].stage.Served? ==> Answer(s.calls[id].key, s.calls[id].stage.entry) in given)
    && (forall id :: id in s.calls && HasResponse(s.calls[id].stage) ==>
          Answer(s.calls[id].key, Entry(s.calls[id].response, s.calls[id].raw, s.calls[id].after)) in given)
  }

  lemma StepKeepsBacked(s: State, t: Step, given: set<Answer>)
    requires Enabled(s, t) && Backed(s, given)
    ensures Backed(Do(s, t), given + Given(s, t))
  {
    var s', more := Do(s, t), given + Given(s, t);
    forall key | key in s'.cache ensures Answer(key, s'.cache[key]) in more {
      CacheStepIsBacked(s, t, given, key);
    }
    forall id | id in s'.calls && s'.calls[id].stage.Served? ensures Answer(s'.calls[id].key, s'.calls[id].stage.entry) in more {
      assert t != ProbeHit(id) ==> id in s.calls && s.calls[id] == s'.calls[id];
    }
    forall id | id in s'.calls && HasResponse(s'.calls[id].stage)
      ensures Answer(s'.calls[id].key, Entry(s'.calls[id].response, s'.calls[id].raw, s'.calls[id].after)) in more
    {
      CallStepIsBacked(s, t, given, id);
    }
  }

  lemma CacheStepIsBacked(s: State, t: Step, given: set<Answer>, key: CacheKey)
    requires Enabled(s, t) && Backed(s, given) && key in Do(s, t).cache
    ensures Answer(key, Do(s, t).cache[key]) in given
  {
  }

  lemma CallStepIsBacked(s: State, t: Step, given: set<Answer>, id: nat)
    requires Enabled(s, t) && Backed(s, given) && id in Do(s, t).calls && HasResponse(Do(s, t).calls[id].stage)
    ensures var c := Do(s, t).calls[id];
            Answer(c.key, Entry(c.response, c.raw, c.after)) in given + Given(s, t)
  {
    if id in s.calls && Actor(t) != Some(id) {
      ForeignStepFrames(s, t, id);
    } else {
      OwnStepIsBacked(s, t, given, id);
    }
  }

  lemma OwnStepIsBacked(s: State, t: Step, given: set<Answer>, id: nat)
    requires Enabled(s, t) && Backed(s, given) && id in Do(s, t).calls && HasResponse(Do(s, t).calls[id].stage)
    requires id !in s.calls || Actor(t) == Some(id)
    ensures var c := Do(s, t).calls[id];
            Answer(c.key, Entry(c.response, c.raw, c.after)) in given + Given(s, t)
  {
  }

  lemma {:induction false} RunIsBacked(s: State, steps: seq<Step>, s': State, given: set<Answer>)
    requires Run(s, steps, s') && Backed(s, given)
    ensures Backed(s', given + Answers(s, steps))
    decreases |steps|
  {
    if steps != [] {
      StepKeepsBacked(s, steps[0], given);
      RunIsBacked(Do(s, steps[0]), steps[1..], s', given + Given(s, steps[0]));
      assert given + Given(s, steps[0]) + Answers(Do(s, steps[0]), steps[1..]) == given + Answers(s, steps);
    } else {
      assert given + Answers(s, steps) == given;
    }
  }

  /** In every run, laps or not, whatever is cached under a key, or was served from there, is a
      response that a call for that key gave, filed with the bindings that call had read. */
  lemma EveryAnswerWasGiven(s: State, steps: seq<Step>, s': State)
    requires Initial(s) && Run(s, steps, s')
    ensures forall key :: key in s'.cache ==> Answer(key, s'.cache[key]) in Answers(s, steps)
    ensures forall id :: id in s'.calls && s'.calls[id].stage.Served? ==>
                           Answer(s'.calls[id].key, s'.calls[id].stage.entry) in Answers(s, steps)
  {
    RunIsBacked(s, steps, s', {});
    assert {} + Answers(s, steps) == Answers(s, steps);
  }

  // ---------------------------------------------------------------------------
  // What the steps of a run tell about its end.

  predicate Responds(past: seq<Step>, id: nat) {
    exists i :: 0 <= i < |past| && past[i].Respond? && past[i].id == id
  }

  /** How many times the generation has been bumped since a call noted it. */
  function BumpsSince(past: seq<Step>, id: nat): nat {
    if past == [] then 0
    else
      var last, front := past[|past| - 1], past[..|past| - 1];
      if last == Capture(id) then 0 else BumpsSince(front, id) + if last.Bump? then 1 else 0
  }

  /** A pass that has bumped the generation, and whether a flush of it has failed. */
  datatype Pass = NoPass | Underway(next: Snapshot, failed: bool)

  function PassAfter(past: seq<Step>): Pass {
    if past == [] then NoPass
    else
      var last, before := past[|past| - 1], PassAfter(past[..|past| - 1]);
      match last
      case Bump(next) => Underway(next, false)
      case FlushFails(_, _) => if before.Underway? then before.(failed := true) else before
      case Replace => NoPass
      case Abort => NoPass
      case _ => before
  }

  /** The snapshot of the last pass that ended without a failed flush. */
  function LastReconciled(past: seq<Step>): Snapshot {
    if past == [] then map[]
    else
      var last, front := past[|past| - 1], past[..|past| - 1];
      if (last.Replace? || last.Abort?) && PassAfter(front).Underway? && !PassAfter(front).failed then PassAfter(front).next
      else LastReconciled(front)
  }

  /** It has executed nothing. */
  predicate Untouched(past: seq<Step>, id: nat) {
    ReadRaw(id) !in past && ReadAfter(id) !in past && Fail(id) !in past && !Responds(past, id)
  }

  /** How far a call has come is what it has done: one that was served executes nothing, one that
      missed executes and then fails or responds. */
  predicate DoneSoFar(c: Call, id: nat, past: seq<Step>) {
    match c.stage
    case ProbeLocked => ProbeHit(id) !in past && ProbeMiss(id) !in past && Untouched(past, id)
    case Probing => ProbeHit(id) !in past && ProbeMiss(id) !in past && Untouched(past, id)
    case Served(_) => ProbeHit(id) in past && ProbeMiss(id) !in past && Untouched(past, id)
    case Finished =>
      if ProbeHit(id) in past then Untouched(past, id) else ProbeMiss(id) in past && (Fail(id) in past <==> !Responds(past, id))
    case _ =>
      && ProbeMiss(id) in past && ProbeHit(id) !in past && Fail(id) !in past
      && (Responds(past, id) <==> HasResponse(c.stage) || c.stage.Mismatching? || c.stage.Stored?)
  }

  ghost predicate CallIsTold(s: State, past: seq<Step>, id: nat) {
    if id in s.calls then
      && EnterProbe(id, s.calls[id].key) in past && DoneSoFar(s.calls[id], id, past)
      && (!s.calls[id].stage.ProbeLocked? ==>
            s.epoch == s.calls[id].epoch + BumpsSince(past, id) && s.calls[id].generation == s.calls[id].epoch % COUNTER_SIZE)
    else Untouched(past, id) && ProbeHit(id) !in past && ProbeMiss(id) !in past
  }

  predicate PassIsTold(s: State, past: seq<Step>) {
    && s.snapshot == LastReconciled(past) && s.generation == s.epoch % COUNTER_SIZE
    && PassAfter(past) == if s.writer.Flushing? then Underway(s.writer.next, s.writer.failed) else NoPass
  }

  lemma OneStepMore(past: seq<Step>, t: Step, id: nat)
    ensures Responds(past + [t], id) <==> Responds(past, id) || (t.Respond? && t.id == id)
    ensures BumpsSince(past + [t], id) == if t == Capture(id) then 0 else BumpsSince(past, id) + if t.Bump? then 1 else 0
  {
    var longer := past + [t];
    assert longer[..|past|] == past && longer[|past|] == t;
    if Responds(past, id) {
      var i :| 0 <= i < |past| && past[i].Respond? && past[i].id == id;
      assert longer[i] == past[i];
    }
  }

  lemma StepTellsPass(s: State, t: Step, past: seq<Step>)
    requires Enabled(s, t) && PassIsTold(s, past)
    ensures PassIsTold(Do(s, t), past + [t])
  {
    assert (past + [t])[..|past|] == past;
  }

  lemma EntryTellsCall(s: State, t: Step, past: seq<Step>, id: nat)
    requires Enabled(s, t) && CallIsTold(s, past, id) && s.generation == s.epoch % COUNTER_SIZE
    requires t.EnterProbe? || t.Capture?
    ensures CallIsTold(Do(s, t), past + [t], id)
  {
    OneStepMore(past, t, id);
  }

  lemma ProbeTellsCall(s: State, t: Step, past: seq<Step>, id: nat)
    requires Enabled(s, t) && CallIsTold(s, past, id) && s.generation == s.epoch % COUNTER_SIZE
    requires t.ProbeHit? || t.ProbeMiss? || t.LeaveProbe?
    ensures CallIsTold(Do(s, t), past + [t], id)
  {
    OneStepMore(past, t, id);
  }

  lemma RawReadTellsCall(s: State, t: Step, past: seq<Step>, id: nat)
    requires Enabled(s, t) && CallIsTold(s, past, id) && s.generation == s.epoch % COUNTER_SIZE
    requires t.ReadRaw?
    ensures CallIsTold(Do(s, t), past + [t], id)
  {
    OneStepMore(past, t, id);
  }

  lemma AfterReadTellsCall(s: State, t: Step, past: seq<Step>, id: nat)
    requires Enabled(s, t) && CallIsTold(s, past, id) && s.generation == s.epoch % COUNTER_SIZE
    requires t.ReadAfter?
    ensures CallIsTold(Do(s, t), past + [t], id)
  {
    OneStepMore(past, t, id);
  }

  lemma AnswerTellsCall(s: State, t: Step, past: seq<Step>, id: nat)
    requires Enabled(s, t) && CallIsTold(s, past, id) && s.generation == s.epoch % COUNTER_SIZE
    requires t.Respond? || t.Fail?
    ensures CallIsTold(Do(s, t), past + [t], id)
  {
    OneStepMore(past, t, id);
  }

  lemma CompareTellsCall(s: State, t: Step, past: seq<Step>, id: nat)
    requires Enabled(s, t) && CallIsTold(s, past, id) && s.generation == s.epoch % COUNTER_SIZE
    requires t.EnterStore? || t.Compare?
    ensures CallIsTold(Do(s, t), past + [t], id)
  {
    OneStepMore(past, t, id);
  }

  lemma StoreTellsCall(s: State, t: Step, past: seq<Step>, id: nat)
    requires Enabled(s, t) && CallIsTold(s, past, id) && s.generation == s.epoch % COUNTER_SIZE
    requires t.Store? || t.LeaveStore?
    ensures CallIsTold(Do(s, t), past + [t], id)
  {
    OneStepMore(past, t, id);
  }

  lemma PassTellsCall(s: State, t: Step, past: seq<Step>, id: nat)
    requires Enabled(s, t) && CallIsTold(s, past, id) && s.generation == s.epoch % COUNTER_SIZE
    requires t.Forget? || t.Lock? || t.Bump? || t.Flush? || t.FlushFails? || t.Replace? || t.Abort? || t.Unlock?
    ensures CallIsTold(Do(s, t), past + [t], id)
  {
    OneStepMore(past, t, id);
  }

  lemma StepTellsCall(s: State, t: Step, past: seq<Step>, id: nat)
    requires Enabled(s, t) && CallIsTold(s, past, id) && s.generation == s.epoch % COUNTER_SIZE
    ensures CallIsTold(Do(s, t), past + [t], id)
  {
    if t.EnterProbe? || t.Capture? {
      EntryTellsCall(s, t, past, id);
    } else if t.ProbeHit? || t.ProbeMiss? || t.LeaveProbe? {
      ProbeTellsCall(s, t, past, id);
    } else if t.ReadRaw? {
      RawReadTellsCall(s, t, past, id);
    } else if t.ReadAfter? {
      AfterReadTellsCall(s, t, past, id);
    } else if t.Respond? || t.Fail? {
      AnswerTellsCall(s, t, past, id);
    } else if t.EnterStore? || t.Compare? {
      CompareTellsCall(s, t, past, id);
    } else if t.Store? || t.LeaveStore? {
      StoreTellsCall(s, t, past, id);
    } else {
      PassTellsCall(s, t, past, id);
    }
  }

  ghost predicate Told(s: State, past: seq<Step>) {
    PassIsTold(s, past) && forall id :: CallIsTold(s, past, id)
  }

  lemma {:induction false} RunIsTold(s: State, past: seq<Step>, steps: seq<Step>, s': State)
    requires Run(s, steps, s') && Told(s, past)
    ensures Told(s', past + steps)
    decreases |steps|
  {
    if steps == [] {
      assert past + steps == past;
    } else {
      var t := steps[0];
      StepTellsPass(s, t, past);
      forall id ensures CallIsTold(Do(s, t), past + [t], id) {
        StepTellsCall(s, t, past, id);
      }
      RunIsTold(Do(s, t), past + [t], steps[1..], s');
      assert past + [t] + steps[1..] == past + steps;
    }
  }

  /** In every run the bindings in force are those of the last reconciliation whose flushes all
      worked; a call works for the key it entered with, is either served and executes nothing or
      misses, executes and fails or responds; and its comparison succeeds if and only if a
      multiple of 2^64 bumps has gone by since it noted the generation. */
  lemma RunsTellTheirEnd(s: State, steps: seq<Step>, s': State, id: nat)
    requires Initial(s) && Run(s, steps, s')
    ensures s'.snapshot == LastReconciled(steps)
    ensures id in s'.calls ==> EnterProbe(id, s'.calls[id].key) in steps && DoneSoFar(s'.calls[id], id, steps)
    ensures Enabled(s', Compare(id)) ==>
              (Do(s', Compare(id)).calls[id].stage.Matching? <==> BumpsSince(steps, id) % COUNTER_SIZE == 0)
  {
    StartIsTold(s);
    RunIsTold(s, [], steps, s');
    assert [] + steps == steps && CallIsTold(s', steps, id);
    if Enabled(s', Compare(id)) {
      ComparisonIsExact(s', steps, id);
    }
  }

  lemma StartIsTold(s: State)
    requires Initial(s)
    ensures Told(s, [])
  {
  }

  lemma ComparisonIsExact(s: State, past: seq<Step>, id: nat)
    requires CallIsTold(s, past, id) && s.generation == s.epoch % COUNTER_SIZE && Enabled(s, Compare(id))
    ensures Do(s, Compare(id)).calls[id].stage.Matching? <==> BumpsSince(past, id) % COUNTER_SIZE == 0
  {
    CongruentExactly(s.calls[id].epoch, s.epoch);
  }

  lemma CongruentExactly(a: nat, b: nat)
    requires a <= b
    ensures a % COUNTER_SIZE == b % COUNTER_SIZE <==> (b - a) % COUNTER_SIZE == 0
  {
    if a % COUNTER_SIZE == b % COUNTER_SIZE {
      SameRemainder(a, b);
    }
    if (b - a) % COUNTER_SIZE == 0 {
      SameRemainderBack(a, b);
    }
  }

  /** A response just stored is what a probe of its key is answered with. */
  lemma StoredIsServed(s: State, id: nat, other: nat)
    requires Enabled(s, Store(id)) && id != other && At(s, other, Probing) && s.calls[other].key == s.calls[id].key
    ensures var s', c := Do(s, Store(id)), s.calls[id];
            Enabled(s', ProbeHit(other)) && At(Do(s', ProbeHit(other)), other, Served(Entry(c.response, c.raw, c.after)))
  {
  }

  // ---------------------------------------------------------------------------
  // Why the comparison is needed, and why one lap is the limit.

  const TOOL := Revision("orders", "1.0.0")
  const KEY := CacheKey(TOOL, "1.0.0", "shared", "empty")
  const PLUGIN := Plugin(Revision("p", "1.0.0"), true, "spec")
  const REDACT := Bound(Binding("redact", true, PLUGIN.key, TOOL, RawResponse, 0, false), PLUGIN)
  const ROUND := Bound(Binding("round", true, PLUGIN.key, TOOL, AfterResponse, 0, false), PLUGIN)
  const BOUND: Snapshot := map[TOOL := [REDACT, ROUND]]
  const RECONCILIATION := [Lock, Bump(BOUND), Flush("orders"), Replace, Unlock]
  const FIRST_HALF := [EnterProbe(0, KEY), Capture(0), ProbeMiss(0), LeaveProbe(0), ReadRaw(0)]
  const SECOND_HALF := [ReadAfter(0), Respond(0, "r"), EnterStore(0), Compare(0), Store(0)]

  lemma KeyIsOrdinary()
    ensures IsKey(KEY) && Flushable(KEY)
  {
    LiteralFlushReachesItsTool("orders", "1.0.0", "shared", "empty");
  }

  function Repeated(n: nat): seq<Step> {
    if n == 0 then [] else RECONCILIATION + Repeated(n - 1)
  }

  /** A call captured at epoch 0 that has read only its raw phase, `epoch` bumps later. */
  function InFlightBeside(epoch: nat, snapshot: Snapshot, writer: Writer): State {
    State(epoch % COUNTER_SIZE, epoch, writer, {}, snapshot, map[],
          map[0 := Call(KEY, RawRead, 0, 0, [], [], "")])
  }

  function InFlight(epoch: nat, snapshot: Snapshot): State {
    InFlightBeside(epoch, snapshot, Idle)
  }

  lemma {:induction false} RunConcat(s: State, first: seq<Step>, m: State, second: seq<Step>, s': State)
    requires Run(s, first, m) && Run(m, second, s')
    ensures Run(s, first + second, s')
    decreases |first|
  {
    if first == [] {
      assert first + second == second;
    } else {
      RunConcat(Do(s, first[0]), first[1..], m, second, s');
      assert (first + second)[1..] == first[1..] + second;
    }
  }

  lemma RunOne(s: State, t: Step)
    requires Enabled(s, t)
    ensures Run(s, [t], Do(s, t))
  {
    assert [t][1..] == [];
  }

  ghost predicate Goes(s: State, t: Step, s': State) {
    Enabled(s, t) && Do(s, t) == s'
  }

  lemma RunThrough(t: seq<Step>, s0: State, s1: State, s2: State, s3: State, s4: State, s5: State)
    requires |t| == 5
    requires Goes(s0, t[0], s1) && Goes(s1, t[1], s2) && Goes(s2, t[2], s3) && Goes(s3, t[3], s4) && Goes(s4, t[4], s5)
    ensures Run(s0, t, s5)
  {
    RunOne(s4, t[4]);
    assert t[4..] == [t[4]];
    assert t[3..][1..] == t[4..] && t[2..][1..] == t[3..] && t[1..][1..] == t[2..];
    assert Run(s3, t[3..], s5);
    assert Run(s2, t[2..], s5);
    assert Run(s1, t[1..], s5);
  }

  lemma TargetsOfBound(current: Snapshot)
    requires current == map[] || current == BOUND
    ensures FlushTargets(current, BOUND) == {"orders"}
  {
    assert BOUND[TOOL][0].binding.tool.name == "orders";
    assert "orders" in BindingTargets(BOUND);
  }

  lemma BumpInFlight(epoch: nat, current: Snapshot)
    requires current == map[] || current == BOUND
    ensures Goes(InFlight(epoch, current), Lock, InFlightBeside(epoch, current, Holding))
    ensures Goes(InFlightBeside(epoch, current, Holding), Bump(BOUND),
                 InFlightBeside(epoch + 1, current, Flushing(BOUND, {"orders"}, false)))
  {
    TargetsOfBound(current);
  }

  lemma FlushInFlight(epoch: nat, current: Snapshot)
    ensures Goes(InFlightBeside(epoch, current, Flushing(BOUND, {"orders"}, false)), Flush("orders"),
                 InFlightBeside(epoch, current, Flushing(BOUND, {}, false)))
    ensures Goes(InFlightBeside(epoch, current, Flushing(BOUND, {}, false)), Replace, InFlightBeside(epoch, BOUND, Holding))
    ensures Goes(InFlightBeside(epoch, BOUND, Holding), Unlock, InFlight(epoch, BOUND))
  {
    var s := InFlightBeside(epoch, current, Flushing(BOUND, {"orders"}, false));
    assert {"orders"} - {"orders"} == {};
    assert Do(s, Flush("orders")).cache.Keys == {};
  }

  lemma OneReconciliation(epoch: nat, current: Snapshot)
    requires current == map[] || current == BOUND
    ensures Run(InFlight(epoch, current), RECONCILIATION, InFlight(epoch + 1, BOUND))
  {
    BumpInFlight(epoch, current);
    FlushInFlight(epoch + 1, current);
    RunThrough(RECONCILIATION, InFlight(epoch, current), InFlightBeside(epoch, current, Holding),
               InFlightBeside(epoch + 1, current, Flushing(BOUND, {"orders"}, false)),
               InFlightBeside(epoch + 1, current, Flushing(BOUND, {}, false)),
               InFlightBeside(epoch + 1, BOUND, Holding), InFlight(epoch + 1, BOUND));
  }

  lemma {:induction false} Reconciliations(epoch: nat, current: Snapshot, n: nat)
    requires current == map[] || current == BOUND
    requires n > 0
    ensures Run(InFlight(epoch, current), Repeated(n), InFlight(epoch + n, BOUND))
    decreases n
  {
    OneReconciliation(epoch, current);
    if n == 1 {
      assert Repeated(1) == RECONCILIATION + Repeated(0) == RECONCILIATION;
    } else {
      Reconciliations(epoch + 1, BOUND, n - 1);
      RunConcat(InFlight(epoch, current), RECONCILIATION, InFlight(epoch + 1, BOUND),
                Repeated(n - 1), InFlight(epoch + n, BOUND));
    }
  }

  lemma FirstHalfRuns(s: State)
    requires Initial(s)
    ensures Run(s, FIRST_HALF, InFlight(0, map[]))
  {
    KeyIsOrdinary();
    EarlyStepsRun(s, KEY);
  }

  function LateSteps(n: nat): seq<Step> {
    FIRST_HALF + Repeated(n)
  }

  lemma LateRun(s: State, n: nat)
    requires n > 0 && Initial(s)
    ensures Run(s, LateSteps(n), InFlight(n, BOUND))
  {
    FirstHalfRuns(s);
    Reconciliations(0, map[], n);
    RunConcat(s, FIRST_HALF, InFlight(0, map[]), Repeated(n), InFlight(n, BOUND));
  }

  lemma BoundPhases()
    ensures RuntimeBindings(BOUND, TOOL, RawResponse) == [REDACT]
    ensures RuntimeBindings(BOUND, TOOL, AfterResponse) == [ROUND]
  {
    assert [REDACT, ROUND][1..] == [ROUND] && [ROUND][1..] == [];
    assert forall phase :: InPhase([], phase) == [];
    assert InPhase([ROUND], RawResponse) == [] && InPhase([ROUND], AfterResponse) == [ROUND];
  }

  /** A call really can read its two phases from two snapshots: what keeps the torn
      response out of the cache is the comparison, not the order of the reads. */
  lemma TornReadIsReachable()
    ensures exists s, steps, s' ::
              && Initial(s) && Run(s, steps, s') && 0 in s'.calls && s'.calls[0].stage.BothRead?
              && s'.calls[0].raw != RuntimeBindings(s'.snapshot, TOOL, RawResponse)
              && s'.calls[0].after == RuntimeBindings(s'.snapshot, TOOL, AfterResponse) != []
  {
    var s' := Do(InFlight(1, BOUND), ReadAfter(0));
    LateRun(START, 1);
    RunOne(InFlight(1, BOUND), ReadAfter(0));
    RunConcat(START, LateSteps(1), InFlight(1, BOUND), [ReadAfter(0)], s');
    BoundPhases();
  }

  /** The late call in one of its last stages. */
  function Late(n: nat, stage: Stage, cache: map<CacheKey, Entry>): State {
    State(n % COUNTER_SIZE, n, Idle, if HoldsReadLock(stage) then {0} else {}, BOUND, cache,
          map[0 := Call(KEY, stage, 0, 0, [], [ROUND], if stage.BothRead? then "" else "r")])
  }

  lemma LateCallReads(n: nat)
    ensures Goes(InFlight(n, BOUND), ReadAfter(0), Late(n, BothRead, map[]))
    ensures Goes(Late(n, BothRead, map[]), Respond(0, "r"), Late(n, Responded, map[]))
  {
    BoundPhases();
  }

  lemma LateCallStores(n: nat)
    requires n % COUNTER_SIZE == 0
    ensures Goes(Late(n, Responded, map[]), EnterStore(0), Late(n, StoreLocked, map[]))
    ensures Goes(Late(n, StoreLocked, map[]), Compare(0), Late(n, Matching, map[]))
    ensures Goes(Late(n, Matching, map[]), Store(0), Late(n, Stored, map[KEY := Entry("r", [], [ROUND])]))
  {
  }

  lemma SecondHalfStores(n: nat)
    requires n % COUNTER_SIZE == 0
    ensures Run(InFlight(n, BOUND), SECOND_HALF, Late(n, Stored, map[KEY := Entry("r", [], [ROUND])]))
  {
    LateCallReads(n);
    LateCallStores(n);
    RunThrough(SECOND_HALF, InFlight(n, BOUND), Late(n, BothRead, map[]), Late(n, Responded, map[]),
               Late(n, StoreLocked, map[]), Late(n, Matching, map[]), Late(n, Stored, map[KEY := Entry("r", [], [ROUND])]));
  }

  lemma LateEntryIsStale(n: nat)
    ensures !Coherent(Late(n, Stored, map[KEY := Entry("r", [], [ROUND])]))
  {
    var s := Late(n, Stored, map[KEY := Entry("r", [], [ROUND])]);
    BoundPhases();
    KeyIsOrdinary();
    assert KEY in s.cache && !Current(s, KEY, s.cache[KEY]);
  }

  /** After any positive multiple of 2^64 reconciliations the counter shows the noted value
      again, and the torn response is stored. */
  lemma FullLapsBreakCoherence(laps: nat)
    requires laps > 0
    ensures exists s, steps, s' :: Initial(s) && Run(s, steps, s') && s'.epoch == laps * COUNTER_SIZE && !Coherent(s')
  {
    var n := laps * COUNTER_SIZE;
    assert n > 0 && n % COUNTER_SIZE == 0;
    var s' := Late(n, Stored, map[KEY := Entry("r", [], [ROUND])]);
    LateRun(START, n);
    SecondHalfStores(n);
    RunConcat(START, LateSteps(n), InFlight(n, BOUND), SECOND_HALF, s');
    LateEntryIsStale(n);
  }

  // ---------------------------------------------------------------------------
  // Which keys the flush protects.

  /** Whatever is cached under the key is always computed from the current bindings. */
  ghost predicate AlwaysCurrent(key: CacheKey) {
    forall s, steps, s' :: Initial(s) && Run(s, steps, s') && NeverWrapped(s, steps) && key in s'.cache ==>
                             Current(s', key, s'.cache[key])
  }

  function BindingOf(key: CacheKey): Bound {
    Bound(Binding("redact", true, PLUGIN.key, key.tool, RawResponse, 0, false), PLUGIN)
  }

  function Binds(key: CacheKey): Snapshot {
    map[key.tool := [BindingOf(key)]]
  }

  /** One call in some stage, from before there were any bindings. */
  function Alone(key: CacheKey, stage: Stage, response: string, cache: map<CacheKey, Entry>): State {
    State(0, 0, Idle, if HoldsReadLock(stage) then {0} else {}, map[], cache,
          map[0 := Call(key, stage, 0, 0, [], [], response)])
  }

  function EarlySteps(key: CacheKey): seq<Step> {
    [EnterProbe(0, key), Capture(0), ProbeMiss(0), LeaveProbe(0), ReadRaw(0)]
  }

  function Kept(key: CacheKey): map<CacheKey, Entry> {
    map[key := Entry("r", [], [])]
  }

  lemma AloneProbes(key: CacheKey)
    requires IsKey(key)
    ensures Goes(START, EnterProbe(0, key), Alone(key, ProbeLocked, "", map[]))
    ensures Goes(Alone(key, ProbeLocked, "", map[]), Capture(0), Alone(key, Probing, "", map[]))
    ensures Goes(Alone(key, Probing, "", map[]), ProbeMiss(0), Alone(key, Missed, "", map[]))
    ensures Goes(Alone(key, Missed, "", map[]), LeaveProbe(0), Alone(key, Executing, "", map[]))
  {
  }

  lemma AloneReads(key: CacheKey)
    ensures Goes(Alone(key, Executing, "", map[]), ReadRaw(0), Alone(key, RawRead, "", map[]))
    ensures Goes(Alone(key, RawRead, "", map[]), ReadAfter(0), Alone(key, BothRead, "", map[]))
    ensures Goes(Alone(key, BothRead, "", map[]), Respond(0, "r"), Alone(key, Responded, "r", map[]))
  {
  }

  lemma AloneStores(key: CacheKey)
    ensures Goes(Alone(key, Responded, "r", map[]), EnterStore(0), Alone(key, StoreLocked, "r", map[]))
    ensures Goes(Alone(key, StoreLocked, "r", map[]), Compare(0), Alone(key, Matching, "r", map[]))
    ensures Goes(Alone(key, Matching, "r", map[]), Store(0), Alone(key, Stored, "r", Kept(key)))
  {
  }

  lemma EarlyStepsRun(s: State, key: CacheKey)
    requires Initial(s) && IsKey(key)
    ensures Run(s, EarlySteps(key), Alone(key, RawRead, "", map[]))
  {
    AloneProbes(key);
    AloneReads(key);
    RunThrough(EarlySteps(key), s, Alone(key, ProbeLocked, "", map[]), Alone(key, Probing, "", map[]),
               Alone(key, Missed, "", map[]), Alone(key, Executing, "", map[]), Alone(key, RawRead, "", map[]));
  }

  lemma StoreStepsRun(key: CacheKey)
    ensures Run(Alone(key, RawRead, "", map[]), SECOND_HALF, Alone(key, Stored, "r", Kept(key)))
  {
    AloneReads(key);
    AloneStores(key);
    RunThrough(SECOND_HALF, Alone(key, RawRead, "", map[]), Alone(key, BothRead, "", map[]),
               Alone(key, Responded, "r", map[]), Alone(key, StoreLocked, "r", map[]),
               Alone(key, Matching, "r", map[]), Alone(key, Stored, "r", Kept(key)));
  }

  function PassSteps(key: CacheKey): seq<Step> {
    [LeaveStore(0), Lock, Bump(Binds(key)), Flush(key.tool.name), Replace]
  }

  /** The finished call and the reconciler that binds its tool. */
  function Passing(key: CacheKey, epoch: nat, writer: Writer, snapshot: Snapshot): State {
    State(epoch % COUNTER_SIZE, epoch, writer, {}, snapshot, Kept(key), map[0 := Call(key, Finished, 0, 0, [], [], "r")])
  }

  lemma TargetsOf(key: CacheKey)
    requires IsKey(key)
    ensures WellFormed(Binds(key)) && FlushTargets(map[], Binds(key)) == {key.tool.name}
  {
    assert Binds(key)[key.tool][0].binding.tool.name == key.tool.name;
    assert key.tool.name in BindingTargets(Binds(key));
  }

  lemma PassBegins(key: CacheKey)
    requires IsKey(key)
    ensures Goes(Alone(key, Stored, "r", Kept(key)), LeaveStore(0), Passing(key, 0, Idle, map[]))
    ensures Goes(Passing(key, 0, Idle, map[]), Lock, Passing(key, 0, Holding, map[]))
    ensures Goes(Passing(key, 0, Holding, map[]), Bump(Binds(key)),
                 Passing(key, 1, Flushing(Binds(key), {key.tool.name}, false), map[]))
  {
    TargetsOf(key);
  }

  lemma FlushMissesKey(key: CacheKey)
    requires IsKey(key) && !Flushable(key)
    ensures Goes(Passing(key, 1, Flushing(Binds(key), {key.tool.name}, false), map[]), Flush(key.tool.name),
                 Passing(key, 1, Flushing(Binds(key), {}, false), map[]))
    ensures Goes(Passing(key, 1, Flushing(Binds(key), {}, false), map[]), Replace, Passing(key, 1, Holding, Binds(key)))
  {
    var s := Passing(key, 1, Flushing(Binds(key), {key.tool.name}, false), map[]);
    assert {key.tool.name} - {key.tool.name} == {};
    assert Do(s, Flush(key.tool.name)).cache == s.cache;
  }

  lemma PassMissesKey(key: CacheKey)
    requires IsKey(key) && !Flushable(key)
    ensures Run(Alone(key, Stored, "r", Kept(key)), PassSteps(key), Passing(key, 1, Holding, Binds(key)))
  {
    PassBegins(key);
    FlushMissesKey(key);
    RunThrough(PassSteps(key), Alone(key, Stored, "r", Kept(key)), Passing(key, 0, Idle, map[]),
               Passing(key, 0, Holding, map[]), Passing(key, 1, Flushing(Binds(key), {key.tool.name}, false), map[]),
               Passing(key, 1, Flushing(Binds(key), {}, false), map[]), Passing(key, 1, Holding, Binds(key)));
  }

  lemma BindingShows(key: CacheKey)
    ensures RuntimeBindings(Binds(key), key.tool, RawResponse) == [BindingOf(key)]
  {
    assert [BindingOf(key)][1..] == [] && InPhase([], RawResponse) == [];
  }

  /** No call has noted a generation from the future. */
  ghost predicate AgesAreReal(s: State) {
    forall id :: id in s.calls ==> s.calls[id].epoch <= s.epoch
  }

  lemma {:induction false} ShortRunsNeverWrap(s: State, steps: seq<Step>)
    requires AgesAreReal(s) && s.epoch + |steps| < COUNTER_SIZE
    ensures NeverWrapped(s, steps)
    decreases |steps|
  {
    if steps != [] && Enabled(s, steps[0]) {
      assert steps[0].Compare? ==> !Wrapped(s, steps[0].id);
      ShortRunsNeverWrap(Do(s, steps[0]), steps[1..]);
    }
  }

  /** A key the flush of its own tool neither removes nor trips over goes stale as soon as a
      reconciliation binds a plugin to the tool. */
  lemma UnflushableKeyGoesStale(key: CacheKey)
    requires IsKey(key) && !Flushable(key)
    ensures !AlwaysCurrent(key)
  {
    var s, s' := START, Passing(key, 1, Holding, Binds(key));
    var steps := EarlySteps(key) + SECOND_HALF + PassSteps(key);
    StaleRun(s, key);
    ShortRunsNeverWrap(s, steps);
    BindingShows(key);
    assert key in s'.cache && !Current(s', key, s'.cache[key]);
  }

  lemma StaleRun(s: State, key: CacheKey)
    requires Initial(s) && IsKey(key) && !Flushable(key)
    ensures Run(s, EarlySteps(key) + SECOND_HALF + PassSteps(key), Passing(key, 1, Holding, Binds(key)))
  {
    EarlyStepsRun(s, key);
    StoreStepsRun(key);
    RunConcat(s, EarlySteps(key), Alone(key, RawRead, "", map[]), SECOND_HALF, Alone(key, Stored, "r", Kept(key)));
    PassMissesKey(key);
    RunConcat(s, EarlySteps(key) + SECOND_HALF, Alone(key, Stored, "r", Kept(key)), PassSteps(key),
              Passing(key, 1, Holding, Binds(key)));
  }

  /** The cache is trustworthy for exactly the keys whose text matches the flush pattern of
      their own tool, or whose tool's pattern is malformed, so that no flush succeeds over them. */
  lemma CoherentExactlyForFlushableKeys(key: CacheKey)
    requires IsKey(key)
    ensures AlwaysCurrent(key) <==> Flushable(key)
  {
    if Flushable(key) {
      forall s, steps, s' | Initial(s) && Run(s, steps, s') && NeverWrapped(s, steps) && key in s'.cache
        ensures Current(s', key, s'.cache[key])
      {
        CacheAlwaysCoherent(s, steps, s');
      }
    } else {
      UnflushableKeyGoesStale(key);
    }
  }

  /** Every key of a tool with a literal name is trustworthy; none is of a tool whose name ends,
      behind a literal beginning, with "[b]" or with a class between stars that admits a slash. */
  lemma WhichNamesAreSafe(key: CacheKey, stem: string)
    requires IsKey(key) && Literal(stem)
    ensures Literal(key.tool.name) ==> AlwaysCurrent(key)
    ensures key.tool.name == stem + "[b]" || key.tool.name == stem + SLASHED ==> !AlwaysCurrent(key)
  {
    CoherentExactlyForFlushableKeys(key);
    if Literal(key.tool.name) {
      LiteralFlushReachesItsTool(key.tool.name, key.revision, key.scope, key.arguments);
    }
    BracketNameMissesItsKeys(stem, key.revision, key.scope, key.arguments);
    SlashedNameMissesItsKeys(stem, key.revision, key.scope, key.arguments);
  }

  // ----- What stays cached ---------------------------------------------------------------

  /** The snapshot binds plugins to other tools only, with names that flushes take literally. */
  ghost predicate BindsOthers(snapshot: Snapshot, name: string) {
    name !in BindingTargets(snapshot) && forall n :: n in BindingTargets(snapshot) ==> Literal(n) && Lacks(n, ':')
  }

  /** Neither the key nor its tool is what the step is about. */
  ghost predicate ConcernsOthers(t: Step, key: CacheKey) {
    (t.Forget? ==> key !in t.keys) && (t.Bump? ==> BindsOthers(t.next, key.tool.name))
  }

  /** The entry is cached, and nothing under way will flush it. */
  ghost predicate Spared(s: State, key: CacheKey) {
    && key in s.cache && BindsOthers(s.snapshot, key.tool.name)
    && (s.writer.Flushing? ==>
          BindsOthers(s.writer.next, key.tool.name) && s.writer.remaining <= FlushTargets(s.snapshot, s.writer.next))
  }

  lemma StepSpares(s: State, t: Step, key: CacheKey)
    requires IsKey(key) && Lacks(key.tool.name, ':') && Spared(s, key) && Enabled(s, t) && ConcernsOthers(t, key)
    ensures Spared(Do(s, t), key)
  {
    if t.Flush? || t.FlushFails? {
      assert Literal(t.tool) && Lacks(t.tool, ':');
      FlushReachesExactlyItsTool(t.tool, key.tool.name, key.revision, key.scope, key.arguments);
    }
  }

  /** Reconciling plugin bindings costs no other tool its cached responses: while no snapshot binds
      plugins to its tool, an entry stays until it is forgotten. */
  lemma {:induction false} UnboundStaysCached(s: State, steps: seq<Step>, s': State, key: CacheKey)
    requires IsKey(key) && Lacks(key.tool.name, ':') && Spared(s, key) && Run(s, steps, s')
    requires forall i :: 0 <= i < |steps| ==> ConcernsOthers(steps[i], key)
    ensures key in s'.cache
    decreases |steps|
  {
    if steps != [] {
      StepSpares(s, steps[0], key);
      assert forall i :: 0 <= i < |steps| - 1 ==> steps[1..][i] == steps[i + 1];
      UnboundStaysCached(Do(s, steps[0]), steps[1..], s', key);
    }
  }

  // ----- Nobody gets stuck ---------------------------------------------------------------

  /** What a call can do next. */
  function NextStep(s: State, id: nat): Step
    requires id in s.calls && !s.calls[id].stage.Finished?
  {
    match s.calls[id].stage
    case ProbeLocked => Capture(id)
    case Probing => if s.calls[id].key in s.cache then ProbeHit(id) else ProbeMiss(id)
    case Missed => LeaveProbe(id)
    case Served(_) => LeaveProbe(id)
    case Executing => ReadRaw(id)
    case RawRead => ReadAfter(id)
    case BothRead => Respond(id, "")
    case Responded => EnterStore(id)
    case StoreLocked => Compare(id)
    case Matching => Store(id)
    case _ => LeaveStore(id)
  }

  /** Every call can take its next step, a cached key letting it hit; only to store a response it
      has to wait until no reconciler is at work. */
  lemma CallsGoOn(s: State, id: nat)
    requires id in s.calls && !s.calls[id].stage.Finished?
    ensures Enabled(s, NextStep(s, id)) <==> (s.calls[id].stage.Responded? ==> s.writer.Idle?)
    ensures s.calls[id].stage.BothRead? ==> Enabled(s, Fail(id)) && forall r :: Enabled(s, Respond(id, r))
  {
  }

  /** A reconciler can go on as well, whatever the patterns it flushes by: each flush can fail,
      having deleted any of the keys it reaches, or succeed, unless the pattern is malformed; and
      with the last tool flushed the snapshot is replaced, unless one failed. */
  lemma ReconcilerGoesOn(s: State, tool: string, deleted: set<CacheKey>)
    requires s.writer.Flushing?
    ensures tool in s.writer.remaining && (forall key :: key in deleted ==> Reaches(tool, key)) ==> Enabled(s, FlushFails(tool, deleted))
    ensures tool in s.writer.remaining && Terms(FlushPattern(tool)).Some? ==> Enabled(s, Flush(tool))
    ensures s.writer.remaining == {} ==> if s.writer.failed then Enabled(s, Abort) else Enabled(s, Replace)
  {
  }

  ghost predicate AllDone(s: State) {
    s.writer.Idle? && forall id :: id in s.calls ==> s.calls[id].stage.Finished?
  }

  /** A run leads from one state to the other. */
  ghost predicate LeadsTo(s: State, s': State) {
    exists steps :: Run(s, steps, s')
  }

  lemma LeadsOn(s: State, t: Step, s': State)
    requires Enabled(s, t) && LeadsTo(Do(s, t), s')
    ensures LeadsTo(s, s')
  {
    var steps :| Run(Do(s, t), steps, s');
    assert ([t] + steps)[1..] == steps;
    assert Run(s, [t] + steps, s');
  }

  /** How many steps a call may have before it. */
  function Distance(stage: Stage): nat {
    match stage
    case ProbeLocked => 10
    case Probing => 9
    case Missed => 8
    case Executing => 7
    case RawRead => 6
    case BothRead => 5
    case Responded => 4
    case StoreLocked => 3
    case Matching => 2
    case Finished => 0
    case _ => 1
  }

  ghost function Unfinished(s: State): set<nat> {
    set id | id in s.calls && !s.calls[id].stage.Finished?
  }

  /** The call's next step changes that call only, and brings it nearer to its end. */
  ghost predicate Nearer(s: State, s': State, id: nat)
    requires id in s.calls
  {
    && s'.writer == s.writer && s'.calls.Keys == s.calls.Keys
    && (forall j :: j in s.calls && j != id ==> s'.calls[j] == s.calls[j])
    && Distance(s'.calls[id].stage) < Distance(s.calls[id].stage)
  }

  lemma NextProbeStepIsNearer(s: State, id: nat)
    requires id in s.calls && s.writer.Idle? && Distance(s.calls[id].stage) >= 9
    ensures Enabled(s, NextStep(s, id)) && Nearer(s, Do(s, NextStep(s, id)), id)
  {
  }

  lemma NextMissIsNearer(s: State, id: nat)
    requires id in s.calls && s.writer.Idle? && s.calls[id].stage.Missed?
    ensures Enabled(s, NextStep(s, id)) && Nearer(s, Do(s, NextStep(s, id)), id)
  {
  }

  lemma NextReadIsNearer(s: State, id: nat)
    requires id in s.calls && s.writer.Idle? && 6 <= Distance(s.calls[id].stage) <= 7
    ensures Enabled(s, NextStep(s, id)) && Nearer(s, Do(s, NextStep(s, id)), id)
  {
  }

  lemma NextAnswerIsNearer(s: State, id: nat)
    requires id in s.calls && s.writer.Idle? && s.calls[id].stage.BothRead?
    ensures Enabled(s, NextStep(s, id)) && Nearer(s, Do(s, NextStep(s, id)), id)
  {
  }

  lemma NextEntryIsNearer(s: State, id: nat)
    requires id in s.calls && s.writer.Idle? && s.calls[id].stage.Responded?
    ensures Enabled(s, NextStep(s, id)) && Nearer(s, Do(s, NextStep(s, id)), id)
  {
  }

  lemma NextComparisonIsNearer(s: State, id: nat)
    requires id in s.calls && s.writer.Idle? && s.calls[id].stage.StoreLocked?
    ensures Enabled(s, NextStep(s, id)) && Nearer(s, Do(s, NextStep(s, id)), id)
  {
  }

  lemma NextStoreIsNearer(s: State, id: nat)
    requires id in s.calls && s.writer.Idle? && s.calls[id].stage.Matching?
    ensures Enabled(s, NextStep(s, id)) && Nearer(s, Do(s, NextStep(s, id)), id)
  {
  }

  lemma NextLeaveIsNearer(s: State, id: nat)
    requires id in s.calls && s.writer.Idle? && Distance(s.calls[id].stage) == 1
    ensures Enabled(s, NextStep(s, id)) && Nearer(s, Do(s, NextStep(s, id)), id)
  {
  }

  lemma NextStepIsNearer(s: State, id: nat)
    requires id in Unfinished(s) && s.writer.Idle?
    ensures Enabled(s, NextStep(s, id)) && Nearer(s, Do(s, NextStep(s, id)), id)
  {
    var d := Distance(s.calls[id].stage);
    if d >= 9 {
      NextProbeStepIsNearer(s, id);
    } else if d == 8 {
      NextMissIsNearer(s, id);
    } else if d >= 6 {
      NextReadIsNearer(s, id);
    } else if d == 5 {
      NextAnswerIsNearer(s, id);
    } else if d == 4 {
      NextEntryIsNearer(s, id);
    } else if d == 3 {
      NextComparisonIsNearer(s, id);
    } else if d == 2 {
      NextStoreIsNearer(s, id);
    } else {
      NextLeaveIsNearer(s, id);
    }
  }

  lemma NearerUnfinished(s: State, s': State, id: nat)
    requires id in Unfinished(s) && Nearer(s, s', id)
    ensures Unfinished(s') == if s'.calls[id].stage.Finished? then Unfinished(s) - {id} else Unfinished(s)
  {
  }

  lemma CallsFinish(s: State) returns (s': State)
    requires s.writer.Idle?
    ensures LeadsTo(s, s') && AllDone(s')
    decreases |Unfinished(s)|, 20
  {
    if id :| id in Unfinished(s) {
      s' := CallFinishes(s, id);
    } else {
      s' := s;
      assert Run(s, [], s');
      forall id | id in s.calls ensures s.calls[id].stage.Finished? {
        assert id !in Unfinished(s);
      }
    }
  }

  lemma CallFinishes(s: State, id: nat) returns (s': State)
    requires s.writer.Idle? && id in Unfinished(s)
    ensures LeadsTo(s, s') && AllDone(s')
    decreases |Unfinished(s)|, Distance(s.calls[id].stage)
  {
    NextStepIsNearer(s, id);
    var next := Do(s, NextStep(s, id));
    NearerUnfinished(s, next, id);
    if next.calls[id].stage.Finished? {
      s' := CallsFinish(next);
    } else {
      s' := CallFinishes(next, id);
    }
    LeadsOn(s, NextStep(s, id), s');
  }

  /** From every state there is a run in which the reconciler and all calls come to their end:
      locks and flushes, whatever fails, leave nobody waiting for ever. */
  lemma EverybodyCanFinish(s: State) returns (s': State)
    ensures LeadsTo(s, s') && AllDone(s')
    decreases match s.writer { case Idle => 0 case Holding => 1 case Flushing(_, remaining, _) => 2 + |remaining| }
  {
    match s.writer
    case Idle => s' := CallsFinish(s);
    case Holding =>
      s' := EverybodyCanFinish(Do(s, Unlock));
      LeadsOn(s, Unlock, s');
    case Flushing(_, remaining, failed) =>
      var t := if failed then Abort else Replace;
      if tool :| tool in remaining {
        t := FlushFails(tool, {});
      }
      s' := EverybodyCanFinish(Do(s, t));
      LeadsOn(s, t, s');
  }
}

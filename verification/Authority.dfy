/** Dispatch against withdrawal.

    A tool call commits to its connector call inside the authority read lock, after it
    has found its revision active; withdrawing a revision takes the authority write lock;
    registering one takes only the registry's own mutex.  Every ordering record draws the
    next sequence number.  The model adds marks the program does not record (a revision
    registered, a call ended), so that the whole story can be read off one history. */
module Authority {
  import opened Common

  datatype EventType = OriginDenied | BeforeCommit | CommitDenied | DispatchCommitted | WithdrawalCommitted

  datatype Event = Event(sequence: nat, kind: EventType, tool: RevisionKey, digest: string)

  datatype Mark =
    | Recorded(event: Event, id: nat)            // `id` is the call or controller it came from
    | Registered(tool: RevisionKey, digest: string)
    | Ended(id: nat)                             // the connector call of `id` returned

  datatype Registration = Registration(active: bool, digest: string)

  type Registry = map<RevisionKey, Registration>

  datatype CallStage =
    | Resolved | AtBarrier | Reading | Admitted | Refused | Running | Leaving | Done

  /** A call carries the revision it resolved; an empty digest matches any content. */
  datatype Call = Call(tool: RevisionKey, digest: string, stage: CallStage)

  /** The one holder of the lifecycle lock, and how far its withdrawal has come. */
  datatype Controller =
    | Free
    | Controlling(id: nat)
    | Withdrawing(id: nat, requested: RevisionKey)                               // holds the authority write lock
    | Removed(id: nat, selected: Option<RevisionKey>, digest: string)              // registry updated
    | Withdrawn(id: nat)                                                         // event recorded

  datatype State = State(
    sequence: nat, registry: Registry, readers: set<nat>, controller: Controller,
    calls: map<nat, Call>, history: seq<Mark>)

  datatype Step =
    | Arrive(id: nat, tool: RevisionKey)
    | DenyOrigin(id: nat)
    | Barrier(id: nat)
    | EnterRead(id: nat)
    | CheckActive(id: nat)
    | Commit(id: nat)
    | Refuse(id: nat)
    | ConnectorReturns(id: nat)
    | LeaveRead(id: nat)
    | TakeLifecycle(id: nat)
    | Register(tool: RevisionKey, digest: string, underLifecycle: bool)
    | BeginWithdrawal(requested: RevisionKey)
    | RemoveRevision(matched: Option<RevisionKey>)
    | RecordWithdrawal
    | EndWithdrawal
    | ReleaseLifecycle

  predicate Active(registry: Registry, tool: RevisionKey) {
    tool in registry && registry[tool].active
  }

  /** The check a call makes under the read lock. */
  predicate RevisionActive(registry: Registry, tool: RevisionKey, digest: string) {
    Active(registry, tool) && (digest == "" || registry[tool].digest == digest)
  }

  predicate WriteLocked(c: Controller) {
    c.Withdrawing? || c.Removed? || c.Withdrawn?
  }

  predicate HoldsReadLock(stage: CallStage) {
    stage.Reading? || stage.Admitted? || stage.Refused? || stage.Running? || stage.Leaving?
  }

  predicate At(s: State, id: nat, stage: CallStage) {
    id in s.calls && s.calls[id].stage == stage
  }

  /** What resolving the requested version yields: the exact active revision; nothing when
      that revision is inactive; and when the registry has no such version, the text is
      read as a version constraint, so some other active revision of the tool may match. */
  predicate Resolves(registry: Registry, requested: RevisionKey, matched: Option<RevisionKey>) {
    if requested in registry then
      matched == if registry[requested].active then Some(requested) else None
    else
      matched.Some? ==> Active(registry, matched.value) && matched.value.name == requested.name
  }

  predicate Enabled(s: State, t: Step) {
    match t
    case Arrive(id, tool) => id !in s.calls && Active(s.registry, tool)
    case DenyOrigin(id) => At(s, id, Resolved)
    case Barrier(id) => At(s, id, Resolved)
    case EnterRead(id) => At(s, id, AtBarrier) && !WriteLocked(s.controller)
    case CheckActive(id) => At(s, id, Reading)
    case Commit(id) => At(s, id, Admitted)
    case Refuse(id) => At(s, id, Refused)
    case ConnectorReturns(id) => At(s, id, Running)
    case LeaveRead(id) => At(s, id, Leaving)
    case TakeLifecycle(_) => s.controller.Free?
    case Register(_, _, underLifecycle) => underLifecycle ==> s.controller.Controlling?
    case BeginWithdrawal(_) => s.controller.Controlling? && s.readers == {}
    case RemoveRevision(matched) =>
      s.controller.Withdrawing? && Resolves(s.registry, s.controller.requested, matched)
    case RecordWithdrawal => s.controller.Removed?
    case EndWithdrawal => s.controller.Withdrawn?
    case ReleaseLifecycle => s.controller.Controlling?
  }

  function Move(s: State, id: nat, stage: CallStage): State
    requires id in s.calls
  {
    s.(calls := s.calls[id := s.calls[id].(stage := stage)],
       readers := if HoldsReadLock(stage) then s.readers + {id} else s.readers - {id})
  }

  /** Draw the next sequence number for an ordering record. */
  function Record(s: State, kind: EventType, tool: RevisionKey, digest: string, id: nat): State {
    s.(sequence := s.sequence + 1,
       history := s.history + [Recorded(Event(s.sequence + 1, kind, tool, digest), id)])
  }

  function RecordCall(s: State, id: nat, kind: EventType): State
    requires id in s.calls
  {
    Record(s, kind, s.calls[id].tool, s.calls[id].digest, id)
  }

  function Deactivated(registry: Registry, tool: RevisionKey): Registry {
    if tool in registry then registry[tool := registry[tool].(active := false)] else registry
  }

  function Do(s: State, t: Step): State
    requires Enabled(s, t)
  {
    match t
    case Arrive(id, tool) => s.(calls := s.calls[id := Call(tool, s.registry[tool].digest, Resolved)])
    case DenyOrigin(id) => Move(RecordCall(s, id, OriginDenied), id, Done)
    case Barrier(id) => Move(RecordCall(s, id, BeforeCommit), id, AtBarrier)
    case EnterRead(id) => Move(s, id, Reading)
    case CheckActive(id) =>
      Move(s, id, if RevisionActive(s.registry, s.calls[id].tool, s.calls[id].digest) then Admitted else Refused)
    case Commit(id) => Move(RecordCall(s, id, DispatchCommitted), id, Running)
    case Refuse(id) => Move(RecordCall(s, id, CommitDenied), id, Leaving)
    case ConnectorReturns(id) => Move(s, id, Leaving).(history := s.history + [Ended(id)])
    case LeaveRead(id) => Move(s, id, Done)
    case TakeLifecycle(id) => s.(controller := Controlling(id))
    case Register(tool, digest, _) =>
      s.(registry := s.registry[tool := Registration(true, digest)], history := s.history + [Registered(tool, digest)])
    case BeginWithdrawal(requested) => s.(controller := Withdrawing(s.controller.id, requested))
    case RemoveRevision(matched) =>
      s.(registry := Deactivated(s.registry, s.controller.requested),
         controller := Removed(s.controller.id, matched,
                               if matched.Some? then s.registry[matched.value].digest else ""))
    case RecordWithdrawal =>
      var c := s.controller;
      var s' := if c.selected.None? then s
                else Record(s, WithdrawalCommitted, c.selected.value, c.digest, c.id);
      s'.(controller := Withdrawn(c.id))
    case EndWithdrawal => s.(controller := Controlling(s.controller.id))
    case ReleaseLifecycle => s.(controller := Free)
  }

  predicate Initial(s: State) {
    s == State(0, map[], {}, Free, map[], [])
  }

  ghost predicate Run(s: State, steps: seq<Step>, s': State)
    decreases |steps|
  {
    if steps == [] then s' == s
    else Enabled(s, steps[0]) && Run(Do(s, steps[0]), steps[1..], s')
  }

  // ---------------------------------------------------------------------------
  // What a history says.

  /** The digest under which the history last left a revision active. */
  function ActiveDigest(history: seq<Mark>, tool: RevisionKey): Option<string>
    decreases |history|
  {
    if history == [] then None
    else
      var last := history[|history| - 1];
      var rest := history[..|history| - 1];
      if last.Registered? && last.tool == tool then Some(last.digest)
      else if last.Recorded? && last.event.kind.WithdrawalCommitted? && last.event.tool == tool then None
      else ActiveDigest(rest, tool)
  }

  /** Each dispatch names a revision that is registered with that content and has not been
      withdrawn since. */
  ghost predicate DispatchesAreAuthorized(history: seq<Mark>) {
    forall i :: 0 <= i < |history| && IsDispatch(history[i]) ==>
                  && ActiveDigest(history[..i], history[i].event.tool).Some?
                  && (history[i].event.digest == "" ||
                      ActiveDigest(history[..i], history[i].event.tool).value == history[i].event.digest)
  }

  predicate IsDispatch(m: Mark) {
    m.Recorded? && m.event.kind.DispatchCommitted?
  }

  predicate IsWithdrawal(m: Mark) {
    m.Recorded? && m.event.kind.WithdrawalCommitted?
  }

  /** No connector call spans a recorded withdrawal. */
  ghost predicate WithdrawalsFindNoCallRunning(history: seq<Mark>) {
    forall i, j :: 0 <= i < j < |history| && IsDispatch(history[i]) && IsWithdrawal(history[j]) ==>
                     exists e :: i < e < j && history[e] == Ended(history[i].id)
  }

  function Records(history: seq<Mark>): nat
    decreases |history|
  {
    if history == [] then 0
    else Records(history[..|history| - 1]) + if history[|history| - 1].Recorded? then 1 else 0
  }

  /** The records are numbered 1, 2, 3, ... without gap or repetition. */
  ghost predicate SequencesAreConsecutive(history: seq<Mark>) {
    forall i :: 0 <= i < |history| && history[i].Recorded? ==>
                  history[i].event.sequence == Records(history[..i]) + 1
  }

  // ---------------------------------------------------------------------------
  // The steps after which every dispatch is authorized.

  /** A registration comes neither between the removal of that revision and its record nor
      between a call's check and its commitment with other content; a withdrawal removes what
      it records.  Any other step is harmless. */
  ghost predicate Harmless(s: State, t: Step)
    requires Enabled(s, t)
  {
    match t
    case Register(tool, digest, _) =>
      && !(s.controller.Removed? && s.controller.selected == Some(tool))
      && forall id :: At(s, id, Admitted) && s.calls[id].tool == tool ==> s.calls[id].digest in {"", digest}
    case RemoveRevision(matched) => matched.None? || matched.value == s.controller.requested
    case _ => true
  }

  ghost predicate HarmlessRun(s: State, steps: seq<Step>)
    decreases |steps|
  {
    steps != [] && Enabled(s, steps[0]) ==>
      Harmless(s, steps[0]) && HarmlessRun(Do(s, steps[0]), steps[1..])
  }

  // ---------------------------------------------------------------------------
  // What every run keeps, harmless or not.

  /** A dispatched call is still running until its end is in the history. */
  ghost predicate DispatchedRunOrEnded(s: State) {
    forall i :: 0 <= i < |s.history| && IsDispatch(s.history[i]) ==>
                  At(s, s.history[i].id, Running) || exists e :: i < e < |s.history| && s.history[e] == Ended(s.history[i].id)
  }

  ghost predicate LockInvariant(s: State) {
    && (forall id :: id in s.calls && HoldsReadLock(s.calls[id].stage) ==> id in s.readers)
    && (WriteLocked(s.controller) ==> s.readers == {})
  }

  ghost predicate HistoryInvariant(s: State) {
    && LockInvariant(s)
    && s.sequence == Records(s.history)
    && SequencesAreConsecutive(s.history)
    && DispatchedRunOrEnded(s)
    && WithdrawalsFindNoCallRunning(s.history)
  }

  lemma Appended(history: seq<Mark>, m: Mark)
    ensures (history + [m])[..|history|] == history
    ensures forall i :: 0 <= i <= |history| ==> (history + [m])[..i] == history[..i]
    ensures Records(history + [m]) == Records(history) + if m.Recorded? then 1 else 0
    ensures forall tool :: ActiveDigest(history + [m], tool) ==
                             if m.Registered? && m.tool == tool then Some(m.digest)
                             else if IsWithdrawal(m) && m.event.tool == tool then None
                             else ActiveDigest(history, tool)
  {
    assert (history + [m])[..|history|] == history;
  }

  /** The lifecycle lock stays with one holder until it is released, and the withdrawals recorded
      meanwhile are that holder's. */
  lemma HolderStays(s: State, t: Step)
    requires Enabled(s, t) && !s.controller.Free? && !t.ReleaseLifecycle?
    ensures !Do(s, t).controller.Free? && Do(s, t).controller.id == s.controller.id
    ensures t.RecordWithdrawal? && s.controller.selected.Some? ==>
              Do(s, t).history != [] && Do(s, t).history[|s.history|] == Recorded(
                Event(s.sequence + 1, WithdrawalCommitted, s.controller.selected.value, s.controller.digest), s.controller.id)
  {
  }

  /** The record or mark a step adds, if any. */
  function NewMark(s: State, t: Step): Option<Mark>
    requires Enabled(s, t)
  {
    match t
    case DenyOrigin(id) => Some(CallMark(s, id, OriginDenied))
    case Barrier(id) => Some(CallMark(s, id, BeforeCommit))
    case Commit(id) => Some(CallMark(s, id, DispatchCommitted))
    case Refuse(id) => Some(CallMark(s, id, CommitDenied))
    case ConnectorReturns(id) => Some(Ended(id))
    case Register(tool, digest, _) => Some(Registered(tool, digest))
    case RecordWithdrawal =>
      if s.controller.selected.None? then None
      else Some(Recorded(Event(s.sequence + 1, WithdrawalCommitted, s.controller.selected.value, s.controller.digest),
                         s.controller.id))
    case _ => None
  }

  function CallMark(s: State, id: nat, kind: EventType): Mark
    requires id in s.calls
  {
    Recorded(Event(s.sequence + 1, kind, s.calls[id].tool, s.calls[id].digest), id)
  }

  function Extended(history: seq<Mark>, m: Option<Mark>): seq<Mark> {
    if m.None? then history else history + [m.value]
  }

  lemma StepAppends(s: State, t: Step)
    requires Enabled(s, t)
    ensures Do(s, t).history == Extended(s.history, NewMark(s, t))
    ensures var m := NewMark(s, t);
            Do(s, t).sequence == s.sequence + if m.Some? && m.value.Recorded? then 1 else 0
    ensures var m := NewMark(s, t);
            m.Some? && m.value.Recorded? ==> m.value.event.sequence == s.sequence + 1
  {
  }

  lemma AppendKeepsSequence(history: seq<Mark>, m: Mark)
    requires SequencesAreConsecutive(history)
    requires m.Recorded? ==> m.event.sequence == Records(history) + 1
    ensures SequencesAreConsecutive(history + [m])
  {
    Appended(history, m);
  }

  lemma StepKeepsSequence(s: State, t: Step)
    requires Enabled(s, t) && HistoryInvariant(s)
    ensures Do(s, t).sequence == Records(Do(s, t).history) && SequencesAreConsecutive(Do(s, t).history)
  {
    StepAppends(s, t);
    if NewMark(s, t).Some? {
      Appended(s.history, NewMark(s, t).value);
      AppendKeepsSequence(s.history, NewMark(s, t).value);
    }
  }

  /** A call stops running only by the step that marks its end. */
  lemma RunningUntilEnded(s: State, t: Step, id: nat)
    requires Enabled(s, t) && At(s, id, Running) && !At(Do(s, t), id, Running)
    ensures NewMark(s, t) == Some(Ended(id))
  {
  }

  lemma CommittedCallRuns(s: State, t: Step)
    requires Enabled(s, t) && NewMark(s, t).Some? && IsDispatch(NewMark(s, t).value)
    ensures At(Do(s, t), NewMark(s, t).value.id, Running)
  {
  }

  lemma StepKeepsEndings(s: State, t: Step)
    requires Enabled(s, t) && HistoryInvariant(s)
    ensures DispatchedRunOrEnded(Do(s, t))
  {
    var s' := Do(s, t);
    StepAppends(s, t);
    var h := Extended(s.history, NewMark(s, t));
    forall i | 0 <= i < |h| && IsDispatch(h[i]) && !At(s', h[i].id, Running)
      ensures exists e :: i < e < |h| && h[e] == Ended(h[i].id)
    {
      if i == |s.history| {
        CommittedCallRuns(s, t);
      } else if At(s, s.history[i].id, Running) {
        RunningUntilEnded(s, t, h[i].id);
        assert h[|s.history|] == Ended(h[i].id);
      } else {
        var e :| i < e < |s.history| && s.history[e] == Ended(s.history[i].id);
        assert h[e] == Ended(h[i].id);
      }
    }
  }

  lemma WithdrawalFindsNobodyRunning(s: State, t: Step, id: nat)
    requires Enabled(s, t) && LockInvariant(s) && NewMark(s, t).Some? && IsWithdrawal(NewMark(s, t).value)
    ensures !At(s, id, Running)
  {
    assert WriteLocked(s.controller);
  }

  lemma StepKeepsWithdrawalsClean(s: State, t: Step)
    requires Enabled(s, t) && HistoryInvariant(s)
    ensures WithdrawalsFindNoCallRunning(Do(s, t).history)
  {
    StepAppends(s, t);
    var h := Extended(s.history, NewMark(s, t));
    forall i, j | 0 <= i < j < |h| && IsDispatch(h[i]) && IsWithdrawal(h[j])
      ensures exists e :: i < e < j && h[e] == Ended(h[i].id)
    {
      if j < |s.history| {
        var e :| i < e < j && s.history[e] == Ended(s.history[i].id);
        assert h[e] == Ended(h[i].id);
      } else {
        WithdrawalFindsNobodyRunning(s, t, h[i].id);
        var e :| i < e < |s.history| && s.history[e] == Ended(s.history[i].id);
        assert h[e] == Ended(h[i].id);
      }
    }
  }

  lemma StepKeepsLocks(s: State, t: Step)
    requires Enabled(s, t) && LockInvariant(s)
    ensures LockInvariant(Do(s, t))
  {
  }

  lemma {:induction false} RunKeepsHistory(s: State, steps: seq<Step>, s': State)
    requires HistoryInvariant(s) && Run(s, steps, s')
    ensures HistoryInvariant(s')
    decreases |steps|
  {
    if steps != [] {
      StepKeepsLocks(s, steps[0]);
      StepKeepsSequence(s, steps[0]);
      StepKeepsEndings(s, steps[0]);
      StepKeepsWithdrawalsClean(s, steps[0]);
      RunKeepsHistory(Do(s, steps[0]), steps[1..], s');
    }
  }

  /** In every run the records are numbered consecutively, and a recorded withdrawal finds
      every connector call dispatched before it already ended. */
  lemma WithdrawalWaitsForDispatchedCalls(s: State, steps: seq<Step>, s': State)
    requires Initial(s) && Run(s, steps, s')
    ensures SequencesAreConsecutive(s'.history)
    ensures WithdrawalsFindNoCallRunning(s'.history)
  {
    RunKeepsHistory(s, steps, s');
  }

  // ---------------------------------------------------------------------------
  // The story of one call.

  /** A record of a call, or the end of its connector call. */
  datatype Chapter = Of(kind: EventType) | End

  /** The records of a call; withdrawals are recorded by controllers. */
  predicate IsRecordOf(m: Mark, id: nat) {
    m.Recorded? && m.id == id && !m.event.kind.WithdrawalCommitted?
  }

  function ChapterOf(m: Mark, id: nat): seq<Chapter> {
    if IsRecordOf(m, id) then [Of(m.event.kind)] else if m == Ended(id) then [End] else []
  }

  /** What a history tells of one call. */
  function Story(history: seq<Mark>, id: nat): seq<Chapter> {
    if history == [] then []
    else Story(history[..|history| - 1], id) + ChapterOf(history[|history| - 1], id)
  }

  const DENIED := [Of(BeforeCommit), Of(CommitDenied)]
  const RAN := [Of(BeforeCommit), Of(DispatchCommitted), End]

  /** A connector call runs behind its commitment and ends once; a denied call has none. */
  predicate StorySuits(stage: CallStage, story: seq<Chapter>) {
    match stage
    case Resolved => story == []
    case Running => story == [Of(BeforeCommit), Of(DispatchCommitted)]
    case Leaving => story == DENIED || story == RAN
    case Done => story == [Of(OriginDenied)] || story == DENIED || story == RAN
    case _ => story == [Of(BeforeCommit)]
  }

  /** Every record of a call names the revision and the digest the call carries. */
  ghost predicate RecordsName(history: seq<Mark>, id: nat, tool: RevisionKey, digest: string) {
    forall i :: 0 <= i < |history| && IsRecordOf(history[i], id) ==>
                  history[i].event.tool == tool && history[i].event.digest == digest
  }

  ghost predicate CallIsTold(s: State, id: nat) {
    if id in s.calls then
      StorySuits(s.calls[id].stage, Story(s.history, id)) && RecordsName(s.history, id, s.calls[id].tool, s.calls[id].digest)
    else Story(s.history, id) == []
  }

  lemma {:induction false} NoStoryNoRecord(history: seq<Mark>, id: nat, i: nat)
    requires Story(history, id) == [] && i < |history|
    ensures !IsRecordOf(history[i], id) && history[i] != Ended(id)
  {
    if i < |history| - 1 {
      NoStoryNoRecord(history[..|history| - 1], id, i);
    }
  }

  lemma StoryGrows(history: seq<Mark>, m: Mark, id: nat)
    ensures Story(history + [m], id) == Story(history, id) + ChapterOf(m, id)
    ensures forall tool, digest ::
              RecordsName(history, id, tool, digest) && (IsRecordOf(m, id) ==> m.event.tool == tool && m.event.digest == digest)
              ==> RecordsName(history + [m], id, tool, digest)
  {
    assert (history + [m])[..|history|] == history;
  }

  lemma StepTellsStory(s: State, t: Step, id: nat)
    requires Enabled(s, t)
    ensures Story(Do(s, t).history, id) ==
            Story(s.history, id) + if NewMark(s, t).Some? then ChapterOf(NewMark(s, t).value, id) else []
  {
    StepAppends(s, t);
    if NewMark(s, t).Some? {
      StoryGrows(s.history, NewMark(s, t).value, id);
    }
  }

  lemma StepKeepsNames(s: State, t: Step, id: nat)
    requires Enabled(s, t) && id in s.calls && RecordsName(s.history, id, s.calls[id].tool, s.calls[id].digest)
    ensures RecordsName(Do(s, t).history, id, s.calls[id].tool, s.calls[id].digest)
    ensures id in Do(s, t).calls && Do(s, t).calls[id] == s.calls[id].(stage := Do(s, t).calls[id].stage)
  {
    StepAppends(s, t);
    if NewMark(s, t).Some? {
      StoryGrows(s.history, NewMark(s, t).value, id);
    }
  }

  /** From one stage to another, with the marks that are made on the way. */
  predicate Moves(a: CallStage, chapters: seq<Chapter>, b: CallStage) {
    || (a == b && chapters == [])
    || (a.Resolved? && b.Done? && chapters == [Of(OriginDenied)])
    || (a.Resolved? && b.AtBarrier? && chapters == [Of(BeforeCommit)])
    || (a.AtBarrier? && b.Reading? && chapters == [])
    || (a.Reading? && (b.Admitted? || b.Refused?) && chapters == [])
    || (a.Admitted? && b.Running? && chapters == [Of(DispatchCommitted)])
    || (a.Refused? && b.Leaving? && chapters == [Of(CommitDenied)])
    || (a.Running? && b.Leaving? && chapters == [End])
    || (a.Leaving? && b.Done? && chapters == [])
  }

  lemma StepMoves(s: State, t: Step, id: nat)
    requires Enabled(s, t) && id in s.calls
    ensures Moves(s.calls[id].stage, if NewMark(s, t).Some? then ChapterOf(NewMark(s, t).value, id) else [], Do(s, t).calls[id].stage)
  {
  }

  lemma MovesKeepStory(a: CallStage, chapters: seq<Chapter>, b: CallStage, story: seq<Chapter>)
    requires Moves(a, chapters, b) && StorySuits(a, story)
    ensures StorySuits(b, story + chapters)
  {
  }

  lemma StepKeepsStory(s: State, t: Step, id: nat)
    requires Enabled(s, t) && id in s.calls && StorySuits(s.calls[id].stage, Story(s.history, id))
    ensures StorySuits(Do(s, t).calls[id].stage, Story(Do(s, t).history, id))
  {
    StepTellsStory(s, t, id);
    StepMoves(s, t, id);
    MovesKeepStory(s.calls[id].stage, if NewMark(s, t).Some? then ChapterOf(NewMark(s, t).value, id) else [],
                   Do(s, t).calls[id].stage, Story(s.history, id));
  }

  lemma StepTellsCall(s: State, t: Step, id: nat)
    requires Enabled(s, t) && CallIsTold(s, id)
    ensures CallIsTold(Do(s, t), id)
    ensures id in s.calls ==> Do(s, t).calls[id] == s.calls[id].(stage := Do(s, t).calls[id].stage)
  {
    if id in s.calls {
      StepKeepsNames(s, t, id);
      StepKeepsStory(s, t, id);
    } else {
      StepTellsStory(s, t, id);
      StepAppends(s, t);
      forall i | 0 <= i < |s.history| ensures !IsRecordOf(s.history[i], id) {
        NoStoryNoRecord(s.history, id, i);
      }
    }
  }

  lemma {:induction false} RunTellsCall(s: State, steps: seq<Step>, s': State, id: nat)
    requires Run(s, steps, s') && CallIsTold(s, id)
    ensures CallIsTold(s', id)
    ensures id in s.calls ==> id in s'.calls && s'.calls[id] == s.calls[id].(stage := s'.calls[id].stage)
    decreases |steps|
  {
    if steps != [] {
      StepTellsCall(s, steps[0], id);
      RunTellsCall(Do(s, steps[0]), steps[1..], s', id);
    }
  }

  /** In every run a call is either denied its origin, or reaches the barrier and is then denied
      or committed, and only a committed one runs a connector call, once. */
  lemma EveryCallTellsItsStory(s: State, steps: seq<Step>, s': State, id: nat)
    requires Initial(s) && Run(s, steps, s')
    ensures if id in s'.calls then StorySuits(s'.calls[id].stage, Story(s'.history, id)) else Story(s'.history, id) == []
  {
    RunTellsCall(s, steps, s', id);
  }

  /** What a call's last mark tells. */
  lemma {:induction false} LastChapter(history: seq<Mark>, id: nat) returns (i: nat)
    requires Story(history, id) != []
    ensures i < |history| && ChapterOf(history[i], id) == [Story(history, id)[|Story(history, id)| - 1]]
    ensures Story(history[..i], id) == Story(history, id)[..|Story(history, id)| - 1]
    ensures forall j :: i < j < |history| ==> ChapterOf(history[j], id) == []
  {
    var front, last := history[..|history| - 1], history[|history| - 1];
    assert Story(history, id) == Story(front, id) + ChapterOf(last, id);
    if ChapterOf(last, id) == [] {
      assert Story(front, id) + [] == Story(front, id);
      i := LastChapter(front, id);
      assert front[..i] == history[..i] && front[i] == history[i];
      forall j | i < j < |history| ensures ChapterOf(history[j], id) == [] {
        if j < |front| {
          assert front[j] == history[j];
        }
      }
    } else {
      i := |history| - 1;
      LastOfStory(Story(front, id), ChapterOf(last, id));
    }
  }

  lemma LastOfStory(story: seq<Chapter>, last: seq<Chapter>)
    requires |last| == 1
    ensures last == [(story + last)[|story + last| - 1]] && (story + last)[..|story + last| - 1] == story
  {
  }

  /** So a running connector call has been committed by its own call, and not ended since. */
  lemma RunningIsCommitted(s: State, steps: seq<Step>, s': State, id: nat) returns (i: nat)
    requires Initial(s) && Run(s, steps, s') && At(s', id, Running)
    ensures i < |s'.history| && IsDispatch(s'.history[i]) && s'.history[i].id == id
    ensures forall j :: i < j < |s'.history| ==> s'.history[j] != Ended(id)
  {
    EveryCallTellsItsStory(s, steps, s', id);
    i := LastChapter(s'.history, id);
    forall j | i < j < |s'.history| ensures s'.history[j] != Ended(id) {
      assert ChapterOf(s'.history[j], id) == [];
    }
  }

  /** And each end of a connector call is behind such a commitment. */
  lemma EndedWasCommitted(s: State, steps: seq<Step>, s': State, id: nat, e: nat) returns (i: nat)
    requires Initial(s) && Run(s, steps, s') && e < |s'.history| && s'.history[e] == Ended(id)
    ensures i < e && IsDispatch(s'.history[i]) && s'.history[i].id == id
  {
    EveryCallTellsItsStory(s, steps, s', id);
    var story := Story(s'.history, id);
    if story == [] {
      NoStoryNoRecord(s'.history, id, e);
    }
    StoryHasEnd(s'.history, id, e);
    assert story == RAN;
    var last := LastChapter(s'.history, id);
    assert ChapterOf(s'.history[e], id) == [End];
    if e < last {
      StoryHasEnd(s'.history[..last], id, e);
    }
    i := LastChapter(s'.history[..last], id);
  }

  lemma {:induction false} StoryHasEnd(history: seq<Mark>, id: nat, e: nat)
    requires e < |history| && history[e] == Ended(id)
    ensures End in Story(history, id)
  {
    if e < |history| - 1 {
      StoryHasEnd(history[..|history| - 1], id, e);
    }
  }

  /** Every record of a call names the revision it resolved, and the digest that revision was
      registered with when the call arrived. */
  lemma RecordsNameWhatWasResolved(
      start: State, before: seq<Step>, s: State, id: nat, tool: RevisionKey, steps: seq<Step>, s': State)
    requires Initial(start) && Run(start, before, s) && Enabled(s, Arrive(id, tool)) && Run(Do(s, Arrive(id, tool)), steps, s')
    ensures RecordsName(s'.history, id, tool, s.registry[tool].digest) && Active(s.registry, tool)
  {
    RunTellsCall(start, before, s, id);
    StepTellsCall(s, Arrive(id, tool), id);
    RunTellsCall(Do(s, Arrive(id, tool)), steps, s', id);
  }

  // ---------------------------------------------------------------------------
  // What harmless runs keep, and exactly they.

  /** Outside the moment between removing a revision and recording it, the registry and the
      history agree on what is active. */
  ghost predicate RegistryMatchesHistory(s: State) {
    forall tool :: Agree(s, tool)
  }

  ghost predicate Agree(s: State, tool: RevisionKey) {
    || (s.controller.Removed? && s.controller.selected == Some(tool))
    || ActiveDigest(s.history, tool) == if Active(s.registry, tool) then Some(s.registry[tool].digest) else None
  }

  /** The revision a withdrawal is about to record is inactive, and was active until then with
      the digest to be recorded. */
  ghost predicate WithdrawalInvariant(s: State) {
    s.controller.Removed? && s.controller.selected.Some? ==>
      && !Active(s.registry, s.controller.selected.value)
      && ActiveDigest(s.history, s.controller.selected.value) == Some(s.controller.digest)
  }

  ghost predicate AdmittedCallsAreActive(s: State) {
    forall id :: id in s.calls && s.calls[id].stage.Admitted? ==>
                   RevisionActive(s.registry, s.calls[id].tool, s.calls[id].digest)
  }

  /** Each recorded withdrawal names a revision that was active, with that content, until then. */
  ghost predicate WithdrawalsAreReal(history: seq<Mark>) {
    forall i :: 0 <= i < |history| && IsWithdrawal(history[i]) ==>
                  ActiveDigest(history[..i], history[i].event.tool) == Some(history[i].event.digest)
  }

  ghost predicate AuthorityInvariant(s: State) {
    && LockInvariant(s)
    && WithdrawalInvariant(s)
    && RegistryMatchesHistory(s)
    && AdmittedCallsAreActive(s)
    && DispatchesAreAuthorized(s.history)
    && WithdrawalsAreReal(s.history)
  }

  /** The latest digest mark of `tool` after a step. */
  lemma StepActiveDigest(s: State, t: Step, tool: RevisionKey)
    requires Enabled(s, t)
    ensures ActiveDigest(Do(s, t).history, tool) ==
            if t.Register? && t.tool == tool then Some(t.digest)
            else if t.RecordWithdrawal? && s.controller.selected == Some(tool) then None
            else ActiveDigest(s.history, tool)
  {
    StepAppends(s, t);
    if NewMark(s, t).Some? {
      Appended(s.history, NewMark(s, t).value);
    }
  }

  lemma StepKeepsAgreement(s: State, t: Step, tool: RevisionKey)
    requires Enabled(s, t) && AuthorityInvariant(s) && Harmless(s, t)
    ensures Agree(Do(s, t), tool)
  {
    StepActiveDigest(s, t, tool);
    assert Agree(s, tool);
  }

  lemma StepKeepsAdmitted(s: State, t: Step, id: nat)
    requires Enabled(s, t) && AuthorityInvariant(s) && Harmless(s, t)
    requires At(Do(s, t), id, Admitted)
    ensures RevisionActive(Do(s, t).registry, Do(s, t).calls[id].tool, Do(s, t).calls[id].digest)
  {
    assert t != CheckActive(id) ==> At(s, id, Admitted) && HoldsReadLock(s.calls[id].stage);
  }

  lemma StepKeepsWithdrawal(s: State, t: Step)
    requires Enabled(s, t) && AuthorityInvariant(s) && Harmless(s, t)
    ensures WithdrawalInvariant(Do(s, t))
  {
    if t.RemoveRevision? && t.matched.Some? {
      assert Agree(s, t.matched.value);
    }
    if s.controller.Removed? && s.controller.selected.Some? {
      StepActiveDigest(s, t, s.controller.selected.value);
    }
  }

  lemma StepKeepsWithdrawalsReal(s: State, t: Step)
    requires Enabled(s, t) && AuthorityInvariant(s)
    ensures WithdrawalsAreReal(Do(s, t).history)
  {
    StepAppends(s, t);
    var h := Extended(s.history, NewMark(s, t));
    forall i | 0 <= i < |h| && IsWithdrawal(h[i])
      ensures ActiveDigest(h[..i], h[i].event.tool) == Some(h[i].event.digest)
    {
      assert h[..i] == if i < |s.history| then s.history[..i] else s.history;
    }
  }

  lemma CommitIsAuthorized(s: State, t: Step)
    requires Enabled(s, t) && AuthorityInvariant(s) && t.Commit?
    ensures var call := s.calls[t.id];
            && ActiveDigest(s.history, call.tool).Some?
            && (call.digest == "" || ActiveDigest(s.history, call.tool).value == call.digest)
  {
    assert At(s, t.id, Admitted) && HoldsReadLock(s.calls[t.id].stage);
    assert Agree(s, s.calls[t.id].tool);
  }

  lemma StepKeepsDispatches(s: State, t: Step)
    requires Enabled(s, t) && AuthorityInvariant(s)
    ensures DispatchesAreAuthorized(Do(s, t).history)
  {
    StepAppends(s, t);
    var h := Extended(s.history, NewMark(s, t));
    forall i | 0 <= i < |h| && IsDispatch(h[i])
      ensures ActiveDigest(h[..i], h[i].event.tool).Some?
      ensures h[i].event.digest == "" || ActiveDigest(h[..i], h[i].event.tool).value == h[i].event.digest
    {
      if i < |s.history| {
        assert h[..i] == s.history[..i];
      } else {
        assert h[..i] == s.history;
        CommitIsAuthorized(s, t);
      }
    }
  }

  lemma StepKeepsAuthority(s: State, t: Step)
    requires Enabled(s, t) && AuthorityInvariant(s) && Harmless(s, t)
    ensures AuthorityInvariant(Do(s, t))
  {
    var s' := Do(s, t);
    forall tool ensures Agree(s', tool) {
      StepKeepsAgreement(s, t, tool);
    }
    forall id | At(s', id, Admitted)
      ensures RevisionActive(s'.registry, s'.calls[id].tool, s'.calls[id].digest)
    {
      StepKeepsAdmitted(s, t, id);
    }
    StepKeepsLocks(s, t);
    StepKeepsWithdrawal(s, t);
    StepKeepsDispatches(s, t);
    StepKeepsWithdrawalsReal(s, t);
  }

  lemma {:induction false} RunKeepsAuthority(s: State, steps: seq<Step>, s': State)
    requires AuthorityInvariant(s) && Run(s, steps, s') && HarmlessRun(s, steps)
    ensures AuthorityInvariant(s')
    decreases |steps|
  {
    if steps != [] {
      StepKeepsAuthority(s, steps[0]);
      RunKeepsAuthority(Do(s, steps[0]), steps[1..], s');
    }
  }

  /** In every run of harmless steps each committed dispatch happens while its content is the
      active revision, with no recorded withdrawal since its last registration, and each
      recorded withdrawal ends just that. */
  lemma DispatchOnlyWhileActive(s: State, steps: seq<Step>, s': State)
    requires Initial(s) && Run(s, steps, s') && HarmlessRun(s, steps)
    ensures DispatchesAreAuthorized(s'.history) && WithdrawalsAreReal(s'.history)
  {
    RunKeepsAuthority(s, steps, s');
  }

  /** In a sound state the check admits a call if and only if the history says that its content
      is active. */
  lemma CheckIsExact(s: State, id: nat)
    requires AuthorityInvariant(s) && Enabled(s, CheckActive(id))
    ensures var c := s.calls[id];
            Do(s, CheckActive(id)).calls[id].stage ==
            if ActiveDigest(s.history, c.tool).Some? && c.digest in {"", ActiveDigest(s.history, c.tool).value}
            then Admitted else Refused
  {
    assert HoldsReadLock(s.calls[id].stage) && Agree(s, s.calls[id].tool);
  }

  // ----- What a step that is not harmless leads to ---------------------------------------

  /** Harmless steps alone lead from here to a dispatch that is not authorized. */
  ghost predicate Endangered(s: State) {
    exists steps, s' :: Run(s, steps, s') && HarmlessRun(s, steps) && !DispatchesAreAuthorized(s'.history)
  }

  lemma EndangeredBefore(s: State, t: Step)
    requires Enabled(s, t) && Harmless(s, t) && Endangered(Do(s, t))
    ensures Endangered(s)
  {
    var more, s' :| Run(Do(s, t), more, s') && HarmlessRun(Do(s, t), more) && !DispatchesAreAuthorized(s'.history);
    var steps := [t] + more;
    assert steps[1..] == more;
    assert Run(s, steps, s') && HarmlessRun(s, steps);
  }

  lemma UnauthorizedCommit(s: State, id: nat)
    requires At(s, id, Admitted)
    requires ActiveDigest(s.history, s.calls[id].tool).None?
             || s.calls[id].digest !in {"", ActiveDigest(s.history, s.calls[id].tool).value}
    ensures Endangered(s)
  {
    var s' := Do(s, Commit(id));
    assert s'.history[..|s.history|] == s.history;
    assert IsDispatch(s'.history[|s.history|]);
    assert [Commit(id)][1..] == [];
    assert Run(s, [Commit(id)], s') && HarmlessRun(s, [Commit(id)]);
  }

  /** A number larger than all in a set. */
  ghost function Fresh(used: set<nat>): (id: nat)
    ensures forall u :: u in used ==> u < id
    decreases used
  {
    if used == {} then 0
    else
      var u :| u in used;
      var id := Fresh(used - {u});
      assert forall v :: v in used ==> v == u || v in used - {u};
      if id <= u then u + 1 else id
  }

  lemma ReadingCallEndangers(s: State, id: nat)
    requires At(s, id, Reading) && s.calls[id].tool in s.registry
    requires s.registry[s.calls[id].tool] == Registration(true, s.calls[id].digest)
    requires ActiveDigest(s.history, s.calls[id].tool).None?
    ensures Endangered(s)
  {
    UnauthorizedCommit(Do(s, CheckActive(id)), id);
    EndangeredBefore(s, CheckActive(id));
  }

  /** A new call of an active revision that counts as withdrawn is dispatched all the same. */
  lemma FreshCallEndangers(s: State, tool: RevisionKey)
    requires !WriteLocked(s.controller) && Active(s.registry, tool) && ActiveDigest(s.history, tool).None?
    ensures Endangered(s)
  {
    var id := Fresh(s.calls.Keys);
    var arrived := Do(s, Arrive(id, tool));
    var waiting := Do(arrived, Barrier(id));
    StepActiveDigest(arrived, Barrier(id), tool);
    ReadingCallEndangers(Do(waiting, EnterRead(id)), id);
    EndangeredBefore(waiting, EnterRead(id));
    EndangeredBefore(arrived, Barrier(id));
    EndangeredBefore(s, Arrive(id, tool));
  }

  /** Recording the withdrawal of an active revision. */
  lemma FalseRecordEndangers(s: State)
    requires s.controller.Removed? && s.controller.selected.Some? && Active(s.registry, s.controller.selected.value)
    ensures Endangered(s)
  {
    var recorded := Do(s, RecordWithdrawal);
    StepActiveDigest(s, RecordWithdrawal, s.controller.selected.value);
    FreshCallEndangers(Do(recorded, EndWithdrawal), s.controller.selected.value);
    EndangeredBefore(recorded, EndWithdrawal);
    EndangeredBefore(s, RecordWithdrawal);
  }

  lemma SwapEndangers(s: State, tool: RevisionKey, digest: string, underLifecycle: bool, id: nat)
    requires Enabled(s, Register(tool, digest, underLifecycle))
    requires At(s, id, Admitted) && s.calls[id].tool == tool && s.calls[id].digest !in {"", digest}
    ensures Endangered(Do(s, Register(tool, digest, underLifecycle)))
  {
    var t := Register(tool, digest, underLifecycle);
    StepActiveDigest(s, t, tool);
    UnauthorizedCommit(Do(s, t), id);
  }

  lemma HarmEndangers(s: State, t: Step)
    requires Enabled(s, t) && !Harmless(s, t)
    ensures Endangered(Do(s, t))
  {
    match t
    case Register(tool, digest, underLifecycle) =>
      if s.controller.Removed? && s.controller.selected == Some(tool) {
        FalseRecordEndangers(Do(s, t));
      } else {
        var id :| At(s, id, Admitted) && s.calls[id].tool == tool && s.calls[id].digest !in {"", digest};
        SwapEndangers(s, tool, digest, underLifecycle, id);
      }
    case RemoveRevision(matched) => FalseRecordEndangers(Do(s, t));
  }

  /** From a sound state a step is harmless if and only if it keeps the state sound, and if
      and only if no way of harmless steps behind it ends with an unauthorized dispatch. */
  lemma HarmlessExactly(s: State, t: Step)
    requires Enabled(s, t) && AuthorityInvariant(s)
    ensures Harmless(s, t) <==> AuthorityInvariant(Do(s, t))
    ensures Harmless(s, t) <==> !Endangered(Do(s, t))
  {
    if Harmless(s, t) {
      StepKeepsAuthority(s, t);
    } else {
      HarmEndangers(s, t);
    }
    if AuthorityInvariant(Do(s, t)) {
      SoundIsNotEndangered(Do(s, t));
    }
  }

  lemma SoundIsNotEndangered(s: State)
    requires AuthorityInvariant(s)
    ensures !Endangered(s)
  {
    forall steps, s' | Run(s, steps, s') && HarmlessRun(s, steps) ensures DispatchesAreAuthorized(s'.history) {
      RunKeepsAuthority(s, steps, s');
    }
  }

  // ----- A discipline that suffices ------------------------------------------------------

  /** Registration never swaps the content of an active revision, and happens under the
      lifecycle lock; a withdrawal names a revision the registry knows. */
  predicate Disciplined(s: State, t: Step) {
    match t
    case Register(tool, digest, underLifecycle) =>
      underLifecycle && (Active(s.registry, tool) ==> s.registry[tool].digest == digest)
    case BeginWithdrawal(requested) => requested in s.registry
    case _ => true
  }

  ghost predicate DisciplinedRun(s: State, steps: seq<Step>)
    decreases |steps|
  {
    steps != [] && Enabled(s, steps[0]) ==>
      Disciplined(s, steps[0]) && DisciplinedRun(Do(s, steps[0]), steps[1..])
  }

  predicate KnownRequest(s: State) {
    s.controller.Withdrawing? ==> s.controller.requested in s.registry
  }

  lemma DisciplinedStepIsHarmless(s: State, t: Step)
    requires Enabled(s, t) && AuthorityInvariant(s) && KnownRequest(s) && Disciplined(s, t)
    ensures Harmless(s, t) && KnownRequest(Do(s, t))
  {
  }

  /** Who registers under the lifecycle lock, never swaps active content and withdraws known
      versions only takes harmless steps. */
  lemma {:induction false} DisciplinedRunIsHarmless(s: State, steps: seq<Step>)
    requires AuthorityInvariant(s) && KnownRequest(s) && DisciplinedRun(s, steps)
    ensures HarmlessRun(s, steps)
    decreases |steps|
  {
    if steps != [] && Enabled(s, steps[0]) {
      DisciplinedStepIsHarmless(s, steps[0]);
      StepKeepsAuthority(s, steps[0]);
      DisciplinedRunIsHarmless(Do(s, steps[0]), steps[1..]);
    }
  }

  // ----- Each kind of harm can be reached ------------------------------------------------

  const SHOP := Revision("orders", "1.2.0")

  /** Some steps lead from here to a dispatch that is not authorized. */
  ghost predicate Falls(s: State) {
    exists steps, s' :: Run(s, steps, s') && !DispatchesAreAuthorized(s'.history)
  }

  lemma FallsBefore(s: State, t: Step)
    requires Enabled(s, t) && Falls(Do(s, t))
    ensures Falls(s)
  {
    var more, s' :| Run(Do(s, t), more, s') && !DispatchesAreAuthorized(s'.history);
    var steps := [t] + more;
    assert steps[1..] == more;
    assert Run(s, steps, s');
  }

  lemma HarmFalls(s: State, t: Step)
    requires Enabled(s, t) && !Harmless(s, t)
    ensures Falls(s)
  {
    HarmEndangers(s, t);
    FallsBefore(s, t);
  }

  /** The registry holds the revision, registered under the lifecycle lock. */
  function Started(s: State): State {
    s.(registry := map[SHOP := Registration(true, "d1")], controller := Controlling(9), history := [Registered(SHOP, "d1")])
  }

  lemma FallsFromStart(s: State)
    requires Initial(s) && Falls(Started(s))
    ensures Falls(s)
  {
    var taken := Do(s, TakeLifecycle(9));
    assert Do(taken, Register(SHOP, "d1", true)) == Started(s);
    FallsBefore(taken, Register(SHOP, "d1", true));
    FallsBefore(s, TakeLifecycle(9));
  }

  /** Registering other content over an active revision, between a call's check and its
      commitment, dispatches content that is not the active one. */
  lemma SwappingContentBreaksAuthority(s: State)
    requires Initial(s)
    ensures exists steps, s' :: Run(s, steps, s') && !DispatchesAreAuthorized(s'.history)
  {
    var arrived := Do(Started(s), Arrive(0, SHOP));
    var waiting := Do(arrived, Barrier(0));
    var reading := Do(waiting, EnterRead(0));
    var checked := Do(reading, CheckActive(0));
    assert At(checked, 0, Admitted) && checked.calls[0].digest == "d1";
    HarmFalls(checked, Register(SHOP, "d2", true));
    FallsBefore(reading, CheckActive(0));
    FallsBefore(waiting, EnterRead(0));
    FallsBefore(arrived, Barrier(0));
    FallsBefore(Started(s), Arrive(0, SHOP));
    FallsFromStart(s);
  }

  /** Withdrawing by a version constraint removes nothing, yet records the withdrawal of the
      active revision that matches the constraint: that revision keeps being dispatched. */
  lemma ConstraintWithdrawalBreaksAuthority(s: State)
    requires Initial(s)
    ensures exists steps, s' :: Run(s, steps, s') && !DispatchesAreAuthorized(s'.history)
  {
    var asked := Revision("orders", "^1.0.0");
    var begun := Do(Started(s), BeginWithdrawal(asked));
    HarmFalls(begun, RemoveRevision(Some(SHOP)));
    FallsBefore(Started(s), BeginWithdrawal(asked));
    FallsFromStart(s);
  }

  /** A registration outside the lifecycle lock can slip between the removal and its record:
      the record then denies a revision that is active again. */
  lemma UnlockedRegistrationBreaksAuthority(s: State)
    requires Initial(s)
    ensures exists steps, s' :: Run(s, steps, s') && !DispatchesAreAuthorized(s'.history)
  {
    var begun := Do(Started(s), BeginWithdrawal(SHOP));
    var removed := Do(begun, RemoveRevision(Some(SHOP)));
    HarmFalls(removed, Register(SHOP, "d1", false));
    FallsBefore(begun, RemoveRevision(Some(SHOP)));
    FallsBefore(Started(s), BeginWithdrawal(SHOP));
    FallsFromStart(s);
  }

  // ---------------------------------------------------------------------------
  // Nobody gets stuck.

  ghost predicate AllDone(s: State) {
    s.controller.Free? && forall id :: id in s.calls ==> s.calls[id].stage.Done?
  }

  /** A run leads from one state to the other. */
  ghost predicate LeadsTo(s: State, s': State) {
    exists steps :: Run(s, steps, s')
  }

  lemma LeadsOn(s: State, t: Step, s': State)
    requires Enabled(s, t) && LeadsTo(Do(s, t), s')
    ensures LeadsTo(s, s')
  {
    var steps :| Run(Do(s, t), steps, s');
    assert ([t] + steps)[1..] == steps;
    assert Run(s, [t] + steps, s');
  }

  /** What a call can do next; it waits for the authority write lock only. */
  function NextStep(s: State, id: nat): Step
    requires id in s.calls && !s.calls[id].stage.Done?
  {
    match s.calls[id].stage
    case Resolved => Barrier(id)
    case AtBarrier => EnterRead(id)
    case Reading => CheckActive(id)
    case Admitted => Commit(id)
    case Refused => Refuse(id)
    case Running => ConnectorReturns(id)
    case _ => LeaveRead(id)
  }

  function Distance(stage: CallStage): nat {
    match stage
    case Resolved => 6
    case AtBarrier => 5
    case Reading => 4
    case Admitted => 3
    case Refused => 2
    case Running => 2
    case Leaving => 1
    case Done => 0
  }

  ghost function Unfinished(s: State): set<nat> {
    set id | id in s.calls && !s.calls[id].stage.Done?
  }

  ghost predicate Nearer(s: State, s': State, id: nat)
    requires id in s.calls
  {
    && s'.controller == s.controller && s'.calls.Keys == s.calls.Keys
    && (forall j :: j in s.calls && j != id ==> s'.calls[j] == s.calls[j])
    && Distance(s'.calls[id].stage) < Distance(s.calls[id].stage)
  }

  lemma NextStepIsNearer(s: State, id: nat)
    requires id in Unfinished(s) && s.controller.Free?
    ensures Enabled(s, NextStep(s, id)) && Nearer(s, Do(s, NextStep(s, id)), id)
  {
  }

  lemma NearerUnfinished(s: State, s': State, id: nat)
    requires id in Unfinished(s) && Nearer(s, s', id)
    ensures Unfinished(s') == if s'.calls[id].stage.Done? then Unfinished(s) - {id} else Unfinished(s)
  {
  }

  lemma CallsFinish(s: State) returns (s': State)
    requires s.controller.Free?
    ensures LeadsTo(s, s') && AllDone(s')
    decreases |Unfinished(s)|, 10
  {
    if id :| id in Unfinished(s) {
      s' := CallFinishes(s, id);
    } else {
      s' := s;
      assert Run(s, [], s');
      forall id | id in s.calls ensures s.calls[id].stage.Done? {
        assert id !in Unfinished(s);
      }
    }
  }

  lemma CallFinishes(s: State, id: nat) returns (s': State)
    requires s.controller.Free? && id in Unfinished(s)
    ensures LeadsTo(s, s') && AllDone(s')
    decreases |Unfinished(s)|, Distance(s.calls[id].stage)
  {
    NextStepIsNearer(s, id);
    var next := Do(s, NextStep(s, id));
    NearerUnfinished(s, next, id);
    if next.calls[id].stage.Done? {
      s' := CallsFinish(next);
    } else {
      s' := CallFinishes(next, id);
    }
    LeadsOn(s, NextStep(s, id), s');
  }

  /** What the holder of the lifecycle lock can do to come to its end. */
  function NextControl(s: State): Step
    requires !s.controller.Free?
  {
    match s.controller
    case Withdrawing(_, requested) => RemoveRevision(if Active(s.registry, requested) then Some(requested) else None)
    case Removed(_, _, _) => RecordWithdrawal
    case Withdrawn(_) => EndWithdrawal
    case _ => ReleaseLifecycle
  }

  /** From every state there is a run in which the controller and all calls come to their end:
      the two locks, taken one inside the other, leave nobody waiting for ever. */
  lemma EverybodyCanFinish(s: State) returns (s': State)
    ensures LeadsTo(s, s') && AllDone(s')
    decreases match s.controller { case Free => 0 case Controlling(_) => 1 case Withdrawn(_) => 2 case Removed(_, _, _) => 3 case Withdrawing(_, _) => 4 }
  {
    if s.controller.Free? {
      s' := CallsFinish(s);
    } else {
      s' := EverybodyCanFinish(Do(s, NextControl(s)));
      LeadsOn(s, NextControl(s), s');
    }
  }
}

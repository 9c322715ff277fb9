/** The four `resolve_cached_*_live_stream` functions of src/football.rs, which share one body, run by
    any number of tasks at once, interleaved at every table access and every await with each other,
    with `prune`, with the clock and with cancellation. */
module ResolveProtocol {
  import opened Text
  import opened ResolveTables

  // ---------------------------------------------------------------------------
  // State
  // ---------------------------------------------------------------------------

  /** What the uncached resolve returned; `Busy` is any error with status 429. */
  datatype Outcome = Resolved(stream: Stream) | Failed(message: string) | Busy

  datatype Answer =
    | Found(stream: Stream)              // Ok: a cached or a newly resolved stream
    | CachedFailure(message: string)     // 502: failed recently
    | Refused                            // 429: no permit in time, or the upstream said busy
    | Error(message: string)             // the upstream error itself
    | Dropped                            // the future was dropped before it finished

  /** Where a task stands in the function body. */
  datatype Pc =
    | Start                              // before the first look at the success table
    | MissedSuccess                      // before the first look at the failure table
    | MissedBoth                         // before taking a reference to the key's mutex
    | Waiting                            // awaiting the mutex
    | Locked                             // holding it, before the second look at the success table
    | RemissedSuccess                    // before the second look at the failure table
    | AwaitingPermit
    | Resolving                          // awaiting the uncached resolve
    | Publishing(outcome: Outcome)       // before recording the outcome
    | Trimming                           // removing overflow entries one by one
    | Leaving                            // dropping permit, guard and mutex reference, in that order
    | Done

  datatype Task = Task(key: string, candidateIndex: nat, pc: Pc, mutexRef: Option<nat>,
                       holdsMutex: bool, holdsPermit: bool, answer: Option<Answer>)

  /** `lockedMutexes` are the mutexes a guard exists for. */
  datatype State = State(entries: Table<Stream>, failures: Table<string>, locks: map<string, nat>, nextMutex: nat,
                         lockedMutexes: set<nat>, permits: nat, tasks: map<nat, Task>, now: int)

  /** In `t` parameters a task carries a clock reading it took earlier, at most the present. */
  datatype Step =
    | Tick(later: int)
    | Spawn(id: nat, key: string, candidateIndex: nat)
    | LookSuccess(id: nat, t: int)
    | LookFailure(id: nat, t: int)
    | TakeReference(id: nat)
    | Lock(id: nat)
    | RelookSuccess(id: nat, t: int)
    | RelookFailure(id: nat, t: int)
    | GetPermit(id: nat)
    | PermitTimeout(id: nat)
    | Upstream(id: nat, outcome: Outcome)
    | Publish(id: nat, t: int)
    | TrimEntry(id: nat, victim: string)
    | TrimFailure(id: nat, victim: string)
    | TrimDone(id: nat)
    | DropPermit(id: nat)
    | Unlock(id: nat)
    | DropReference(id: nat)
    | Cancel(id: nat)
    | PruneEntry(victim: string, t: int)
    | PruneFailure(victim: string, t: int)
    | PruneLock(victim: string)

  predicate Init(s: State, maxConcurrent: nat) {
    && s.entries == map[] && s.failures == map[] && s.locks == map[] && s.lockedMutexes == {}
    && s.tasks == map[] && s.permits == maxConcurrent
  }

  function Answered(task: Task, answer: Answer): Task {
    task.(answer := Some(answer), pc := if task.mutexRef.Some? then Leaving else Done)
  }

  /** A stream as handed to the caller: it carries the caller's own candidate index. */
  function ForCaller(stream: Stream, candidateIndex: nat): Stream {
    stream.(candidateIndex := candidateIndex, attemptedStreams := candidateIndex + 1)
  }

  /** The uncached resolve puts the index it was called with into the stream. */
  predicate OwnOutcome(outcome: Outcome, candidateIndex: nat) {
    outcome.Resolved? ==> outcome.stream == ForCaller(outcome.stream, candidateIndex)
  }

  predicate At(s: State, id: nat, pc: Pc) { id in s.tasks && s.tasks[id].pc == pc }

  predicate References(s: State, mutex: nat) {
    exists id | id in s.tasks :: s.tasks[id].mutexRef == Some(mutex)
  }

  predicate Enabled(s: State, step: Step) {
    match step
    case Tick(later) => s.now <= later
    case Spawn(id, _, _) => id !in s.tasks
    case LookSuccess(id, t) => At(s, id, Start) && t <= s.now
    case LookFailure(id, t) => At(s, id, MissedSuccess) && t <= s.now
    case TakeReference(id) => At(s, id, MissedBoth)
    case Lock(id) => At(s, id, Waiting) && s.tasks[id].mutexRef.Some? && s.tasks[id].mutexRef.value !in s.lockedMutexes
    case RelookSuccess(id, t) => At(s, id, Locked) && t <= s.now
    case RelookFailure(id, t) => At(s, id, RemissedSuccess) && t <= s.now
    case GetPermit(id) => At(s, id, AwaitingPermit) && s.permits > 0
    case PermitTimeout(id) => At(s, id, AwaitingPermit)
    case Upstream(id, outcome) => At(s, id, Resolving) && OwnOutcome(outcome, s.tasks[id].candidateIndex)
    case Publish(id, t) => id in s.tasks && s.tasks[id].pc.Publishing? && t <= s.now
    case TrimEntry(id, _) => At(s, id, Trimming)
    case TrimFailure(id, _) => At(s, id, Trimming)
    case TrimDone(id) => At(s, id, Trimming)
    case DropPermit(id) => At(s, id, Leaving) && s.tasks[id].holdsPermit
    case Unlock(id) => At(s, id, Leaving) && !s.tasks[id].holdsPermit && s.tasks[id].holdsMutex
                       && s.tasks[id].mutexRef.Some?
    case DropReference(id) => At(s, id, Leaving) && !s.tasks[id].holdsPermit && !s.tasks[id].holdsMutex
    case Cancel(id) => id in s.tasks && s.tasks[id].pc in {Start, Waiting, AwaitingPermit, Resolving}
    case PruneEntry(victim, t) => t <= s.now && victim in s.entries && t > s.entries[victim].expiresAt
    case PruneFailure(victim, t) => t <= s.now && victim in s.failures && t > s.failures[victim].expiresAt
    case PruneLock(victim) => victim in s.locks && !References(s, s.locks[victim])
  }

  /** Steps taken by a task; the others are the clock's and the background sweep's. */
  predicate ByTask(step: Step) {
    !step.Tick? && !step.PruneEntry? && !step.PruneFailure? && !step.PruneLock?
  }

  /** Looking a key up either answers a task or moves it on. */
  function AfterSuccessLookup(s: State, task: Task, t: int, onMiss: Pc): Task {
    match Lookup(s.entries, task.key, t)
    case Some(stream) => Answered(task, Found(ForCaller(stream, task.candidateIndex)))
    case None => task.(pc := onMiss)
  }

  function AfterFailureLookup(s: State, task: Task, t: int, onMiss: Pc): Task {
    match Lookup(s.failures, task.key, t)
    case Some(message) => Answered(task, CachedFailure(message))
    case None => task.(pc := onMiss)
  }

  /** A task after its own step. */
  function TaskAfter(s: State, step: Step): Task
    requires Enabled(s, step) && ByTask(step)
  {
    if step.Spawn? then Task(step.key, step.candidateIndex, Start, None, false, false, None)
    else
      var task := s.tasks[step.id];
      match step
      case LookSuccess(_, t) => AfterSuccessLookup(s, task, t, MissedSuccess)
      case LookFailure(_, t) => AfterFailureLookup(s, task, t, MissedBoth)
      case TakeReference(_) => task.(pc := Waiting,
          mutexRef := Some(WithLock(s.locks, s.nextMutex, task.key)[task.key]))
      case Lock(_) => task.(pc := Locked, holdsMutex := true)
      case RelookSuccess(_, t) => AfterSuccessLookup(s, task, t, RemissedSuccess)
      case RelookFailure(_, t) => AfterFailureLookup(s, task, t, AwaitingPermit)
      case GetPermit(_) => task.(pc := Resolving, holdsPermit := true)
      case PermitTimeout(_) => Answered(task, Refused)
      case Upstream(_, outcome) => task.(pc := Publishing(outcome))
      case Publish(_, _) =>
        (match task.pc.outcome
         case Resolved(stream) => task.(pc := Trimming, answer := Some(Found(stream)))
         case Failed(message) => task.(pc := Trimming, answer := Some(Error(message)))
         case Busy => Answered(task, Refused))
      case TrimDone(_) => task.(pc := Leaving)
      case DropPermit(_) => task.(holdsPermit := false)
      case Unlock(_) => task.(holdsMutex := false)
      case DropReference(_) => task.(pc := Done, mutexRef := None)
      case Cancel(_) => Answered(task, Dropped)
      case _ => task
  }

  /** Which keys a trim removes depends on what it saw while other tasks were inserting, so here it
      may remove any. */
  function EntriesAfter(s: State, step: Step): Table<Stream>
    requires Enabled(s, step)
  {
    match step
    case Publish(id, t) =>
      var task := s.tasks[id];
      if task.pc.outcome.Resolved? then s.entries[task.key := Stamped(task.pc.outcome.stream, t, SUCCESS_TTL_MS)]
      else s.entries
    case TrimEntry(_, victim) => s.entries - {victim}
    case PruneEntry(victim, _) => s.entries - {victim}
    case _ => s.entries
  }

  function FailuresAfter(s: State, step: Step): Table<string>
    requires Enabled(s, step)
  {
    match step
    case Publish(id, t) =>
      var task := s.tasks[id];
      if task.pc.outcome.Failed? then s.failures[task.key := Stamped(task.pc.outcome.message, t, FAILURE_TTL_MS)]
      else s.failures
    case TrimFailure(_, victim) => s.failures - {victim}
    case PruneFailure(victim, _) => s.failures - {victim}
    case _ => s.failures
  }

  function LocksAfter(s: State, step: Step): map<string, nat>
    requires Enabled(s, step)
  {
    match step
    case TakeReference(id) => WithLock(s.locks, s.nextMutex, s.tasks[id].key)
    case PruneLock(victim) => s.locks - {victim}
    case _ => s.locks
  }

  function LockedAfter(s: State, step: Step): set<nat>
    requires Enabled(s, step)
  {
    match step
    case Lock(id) => s.lockedMutexes + {s.tasks[id].mutexRef.value}
    case Unlock(id) => s.lockedMutexes - {s.tasks[id].mutexRef.value}
    case _ => s.lockedMutexes
  }

  function PermitsAfter(s: State, step: Step): nat
    requires Enabled(s, step)
  {
    match step
    case GetPermit(_) => s.permits - 1
    case DropPermit(_) => s.permits + 1
    case _ => s.permits
  }

  /** The state a step leads to. */
  function Apply(s: State, step: Step): State
    requires Enabled(s, step)
  {
    State(EntriesAfter(s, step), FailuresAfter(s, step), LocksAfter(s, step),
          if step.TakeReference? && s.tasks[step.id].key !in s.locks then s.nextMutex + 1 else s.nextMutex,
          LockedAfter(s, step), PermitsAfter(s, step),
          if ByTask(step) then s.tasks[step.id := TaskAfter(s, step)] else s.tasks,
          if step.Tick? then step.later else s.now)
  }

  /** A run: every state follows from the one before by an enabled step. */
  ghost predicate IsRun(states: seq<State>, steps: seq<Step>, maxConcurrent: nat) {
    && |states| == |steps| + 1
    && Init(states[0], maxConcurrent)
    && forall i | 0 <= i < |steps| :: Enabled(states[i], steps[i]) && states[i + 1] == Apply(states[i], steps[i])
  }

  // ---------------------------------------------------------------------------
  // Invariant
  // ---------------------------------------------------------------------------

  /** From the moment it holds the mutex until it lets go. */
  predicate InCriticalSection(task: Task) {
    task.holdsMutex
  }

  /** What a task holds at each point of the body. */
  predicate WellPlaced(task: Task) {
    && (task.answer.Some? ==> task.pc.Trimming? || task.pc.Leaving? || task.pc.Done?)
    && match task.pc
    case Start | MissedSuccess | MissedBoth | Done => task.mutexRef.None? && !task.holdsMutex && !task.holdsPermit
    case Waiting => task.mutexRef.Some? && !task.holdsMutex && !task.holdsPermit
    case Locked | RemissedSuccess | AwaitingPermit => task.mutexRef.Some? && task.holdsMutex && !task.holdsPermit
    case Resolving | Publishing(_) | Trimming => task.mutexRef.Some? && task.holdsMutex && task.holdsPermit
    case Leaving => task.mutexRef.Some? && (task.holdsPermit ==> task.holdsMutex)
  }

  ghost predicate TasksWellPlaced(s: State) {
    forall id | id in s.tasks :: WellPlaced(s.tasks[id])
  }

  /** Every reference points at the mutex that is in the table for that key. */
  ghost predicate ReferencesInTable(s: State) {
    forall id | id in s.tasks && s.tasks[id].mutexRef.Some? ::
      s.tasks[id].key in s.locks && s.locks[s.tasks[id].key] == s.tasks[id].mutexRef.value
  }

  ghost predicate MutexesDistinct(s: State) {
    && (forall key | key in s.locks :: s.locks[key] < s.nextMutex)
    && (forall k1, k2 | k1 in s.locks && k2 in s.locks && s.locks[k1] == s.locks[k2] :: k1 == k2)
  }

  ghost predicate GuardsMatch(s: State) {
    && (forall id | id in s.tasks && s.tasks[id].holdsMutex && s.tasks[id].mutexRef.Some? ::
          s.tasks[id].mutexRef.value in s.lockedMutexes)
    && (forall i, j | i in s.tasks && j in s.tasks && s.tasks[i].holdsMutex && s.tasks[j].holdsMutex
                      && s.tasks[i].mutexRef == s.tasks[j].mutexRef :: i == j)
    && (forall m | m in s.lockedMutexes ::
          exists id :: id in s.tasks && s.tasks[id].holdsMutex && s.tasks[id].mutexRef == Some(m))
  }

  function PermitHolders(s: State): set<nat> {
    set id | id in s.tasks && s.tasks[id].holdsPermit
  }

  /** Past the second look at the success table and not yet published. */
  predicate KnowsSuccessMissing(pc: Pc) {
    pc.RemissedSuccess? || pc.AwaitingPermit? || pc.Resolving? || pc.Publishing?
  }

  predicate KnowsBothMissing(pc: Pc) {
    pc.AwaitingPermit? || pc.Resolving? || pc.Publishing?
  }

  ghost predicate MissesStillHold(s: State) {
    forall id | id in s.tasks ::
      && (KnowsSuccessMissing(s.tasks[id].pc) ==> !IsFresh(s.entries, s.tasks[id].key, s.now))
      && (KnowsBothMissing(s.tasks[id].pc) ==> !IsFresh(s.failures, s.tasks[id].key, s.now))
  }

  ghost predicate NeverBothFresh(s: State) {
    forall key | key in s.entries && key in s.failures ::
      !(IsFresh(s.entries, key, s.now) && IsFresh(s.failures, key, s.now))
  }

  ghost predicate LockInvariant(s: State) {
    TasksWellPlaced(s) && ReferencesInTable(s) && MutexesDistinct(s) && GuardsMatch(s)
  }

  ghost predicate Invariant(s: State, maxConcurrent: nat) {
    && LockInvariant(s)
    && s.permits + |PermitHolders(s)| == maxConcurrent
    && MissesStillHold(s) && NeverBothFresh(s)
  }

  lemma TaskStaysPlaced(s: State, step: Step)
    requires TasksWellPlaced(s) && Enabled(s, step) && ByTask(step)
    ensures WellPlaced(TaskAfter(s, step))
  {
    hide Lookup, WithLock;
  }

  lemma PlacementStep(s: State, step: Step)
    requires TasksWellPlaced(s) && Enabled(s, step)
    ensures TasksWellPlaced(Apply(s, step))
  {
    hide TaskAfter, WellPlaced, Enabled, EntriesAfter, FailuresAfter, LocksAfter, LockedAfter, PermitsAfter;
    if ByTask(step) { TaskStaysPlaced(s, step); }
  }

  lemma TakeReferenceStep(s: State, step: Step)
    requires LockInvariant(s) && Enabled(s, step) && step.TakeReference?
    ensures ReferencesInTable(Apply(s, step)) && MutexesDistinct(Apply(s, step))
  {
    assert Apply(s, step).locks == WithLock(s.locks, s.nextMutex, s.tasks[step.id].key);
  }

  lemma PruneLockStep(s: State, step: Step)
    requires LockInvariant(s) && Enabled(s, step) && step.PruneLock?
    ensures ReferencesInTable(Apply(s, step)) && MutexesDistinct(Apply(s, step))
  {
  }

  lemma LocksUntouched(s: State, step: Step)
    requires Enabled(s, step) && !step.TakeReference? && !step.PruneLock?
    ensures Apply(s, step).locks == s.locks && Apply(s, step).nextMutex == s.nextMutex
  {
  }

  lemma ReferencesUntouched(s: State, step: Step, id: nat)
    requires Enabled(s, step) && !step.TakeReference? && TasksWellPlaced(s)
    requires id in Apply(s, step).tasks && Apply(s, step).tasks[id].mutexRef.Some?
    ensures id in s.tasks && s.tasks[id].key == Apply(s, step).tasks[id].key
         && s.tasks[id].mutexRef == Apply(s, step).tasks[id].mutexRef
  {
  }

  lemma ReferenceStep(s: State, step: Step)
    requires LockInvariant(s) && Enabled(s, step)
    ensures ReferencesInTable(Apply(s, step)) && MutexesDistinct(Apply(s, step))
  {
    if step.TakeReference? {
      TakeReferenceStep(s, step);
    } else if step.PruneLock? {
      PruneLockStep(s, step);
    } else {
      LocksUntouched(s, step);
      var s' := Apply(s, step);
      forall id | id in s'.tasks && s'.tasks[id].mutexRef.Some?
        ensures s'.tasks[id].key in s'.locks && s'.locks[s'.tasks[id].key] == s'.tasks[id].mutexRef.value
      {
        ReferencesUntouched(s, step, id);
      }
    }
  }

  /** The mutex a task has a guard for. */
  function Guarded(s: State, id: nat): Option<nat> {
    if id in s.tasks && s.tasks[id].holdsMutex then s.tasks[id].mutexRef else None
  }

  /** Only `Lock` and `Unlock` change who holds a mutex. */
  lemma GuardsUntouched(s: State, step: Step, id: nat)
    requires Enabled(s, step) && !step.Lock? && !step.Unlock? && TasksWellPlaced(s)
    ensures Guarded(Apply(s, step), id) == Guarded(s, id)
  {
  }

  lemma LockedMutexesUntouched(s: State, step: Step)
    requires Enabled(s, step) && !step.Lock? && !step.Unlock?
    ensures Apply(s, step).lockedMutexes == s.lockedMutexes
  {
  }

  lemma GuardStep(s: State, step: Step)
    requires LockInvariant(s) && Enabled(s, step)
    ensures GuardsMatch(Apply(s, step))
  {
    if step.Lock? || step.Unlock? {
      LockStep(s, step);
    } else {
      var s' := Apply(s, step);
      forall id: nat ensures Guarded(s', id) == Guarded(s, id) {
        GuardsUntouched(s, step, id);
      }
      LockedMutexesUntouched(s, step);
      PlacementStep(s, step);
      GuardsCarryOver(s, s');
    }
  }

  lemma GuardsCarryOver(s: State, s': State)
    requires GuardsMatch(s) && s'.lockedMutexes == s.lockedMutexes
    requires TasksWellPlaced(s) && TasksWellPlaced(s')
    requires forall id: nat :: Guarded(s', id) == Guarded(s, id)
    ensures GuardsMatch(s')
  {
    assert forall id | id in s'.tasks && s'.tasks[id].holdsMutex :: Guarded(s', id) == s'.tasks[id].mutexRef;
    assert forall id | id in s'.tasks && s'.tasks[id].holdsMutex :: id in s.tasks && s.tasks[id].holdsMutex;
    forall m | m in s'.lockedMutexes
      ensures exists id :: id in s'.tasks && s'.tasks[id].holdsMutex && s'.tasks[id].mutexRef == Some(m)
    {
      var id :| id in s.tasks && s.tasks[id].holdsMutex && s.tasks[id].mutexRef == Some(m);
      assert Guarded(s, id) == Some(m) && Guarded(s', id) == Some(m);
    }
  }

  lemma LockStep(s: State, step: Step)
    requires LockInvariant(s) && Enabled(s, step) && (step.Lock? || step.Unlock?)
    ensures GuardsMatch(Apply(s, step))
  {
    var s' := Apply(s, step);
    forall m | m in s'.lockedMutexes
      ensures exists id :: id in s'.tasks && s'.tasks[id].holdsMutex && s'.tasks[id].mutexRef == Some(m)
    {
      if m in s.lockedMutexes {
        var id :| id in s.tasks && s.tasks[id].holdsMutex && s.tasks[id].mutexRef == Some(m);
        assert s'.tasks[id].holdsMutex && s'.tasks[id].mutexRef == Some(m);
      } else {
        assert s'.tasks[step.id].holdsMutex && s'.tasks[step.id].mutexRef == Some(m);
      }
    }
  }

  /** Only `GetPermit` and `DropPermit` change who holds a permit. */
  lemma PermitsUntouched(s: State, step: Step, id: nat)
    requires Enabled(s, step) && !step.GetPermit? && !step.DropPermit? && TasksWellPlaced(s)
    ensures Apply(s, step).permits == s.permits
    ensures id in PermitHolders(Apply(s, step)) <==> id in PermitHolders(s)
  {
  }

  lemma PermitStep(s: State, step: Step, maxConcurrent: nat)
    requires TasksWellPlaced(s) && Enabled(s, step)
    requires s.permits + |PermitHolders(s)| == maxConcurrent
    ensures Apply(s, step).permits + |PermitHolders(Apply(s, step))| == maxConcurrent
  {
    var s' := Apply(s, step);
    if step.GetPermit? {
      assert PermitHolders(s') == PermitHolders(s) + {step.id};
    } else if step.DropPermit? {
      assert PermitHolders(s') == PermitHolders(s) - {step.id};
    } else {
      forall id: nat ensures id in PermitHolders(s') <==> id in PermitHolders(s) {
        PermitsUntouched(s, step, id);
      }
      PermitsUntouched(s, step, 0);
      assert PermitHolders(s') == PermitHolders(s);
    }
  }

  /** The holder of a key's mutex is alone in it. */
  lemma OneInCriticalSection(s: State, i: nat, j: nat)
    requires LockInvariant(s)
    requires i in s.tasks && j in s.tasks && s.tasks[i].key == s.tasks[j].key
    requires InCriticalSection(s.tasks[i]) && InCriticalSection(s.tasks[j])
    ensures i == j
  {
    assert s.tasks[i].mutexRef == Some(s.locks[s.tasks[i].key]);
    assert s.tasks[j].mutexRef == Some(s.locks[s.tasks[i].key]);
  }

  /** A table entry other than the one just published is fresh afterwards only if it was before. */
  lemma NothingElseTurnsFresh(s: State, step: Step, key: string)
    requires Enabled(s, step)
    requires step.Publish? ==> key != s.tasks[step.id].key
    ensures var s' := Apply(s, step);
      && (IsFresh(s'.entries, key, s'.now) ==> IsFresh(s.entries, key, s.now))
      && (IsFresh(s'.failures, key, s'.now) ==> IsFresh(s.failures, key, s.now))
  {
  }

  function KeyAt(s: State, id: nat): Option<string> {
    if id in s.tasks then Some(s.tasks[id].key) else None
  }

  predicate KnowsSuccessMissingAt(s: State, id: nat) { id in s.tasks && KnowsSuccessMissing(s.tasks[id].pc) }

  predicate KnowsBothMissingAt(s: State, id: nat) { id in s.tasks && KnowsBothMissing(s.tasks[id].pc) }

  lemma KeysKept(s: State, step: Step, id: nat)
    requires Enabled(s, step) && id in s.tasks
    ensures KeyAt(Apply(s, step), id) == KeyAt(s, id)
  {
  }

  /** What a task that is past its second looks knows, it either knew before or has just seen. */
  lemma SuccessKnowledgeGained(s: State, step: Step, id: nat)
    requires Enabled(s, step) && KnowsSuccessMissingAt(Apply(s, step), id)
    ensures id in s.tasks && !(step.Publish? && step.id == id)
    ensures KnowsSuccessMissingAt(s, id) || !IsFresh(s.entries, s.tasks[id].key, s.now)
  {
  }

  lemma FailureKnowledgeGained(s: State, step: Step, id: nat)
    requires Enabled(s, step) && KnowsBothMissingAt(Apply(s, step), id)
    ensures id in s.tasks && !(step.Publish? && step.id == id)
    ensures KnowsBothMissingAt(s, id) || !IsFresh(s.failures, s.tasks[id].key, s.now)
  {
  }

  lemma CriticalKnowledge(s: State, step: Step, id: nat)
    requires Enabled(s, step) && TasksWellPlaced(s) && step.Publish?
    requires KnowsSuccessMissingAt(Apply(s, step), id)
    ensures id in s.tasks && InCriticalSection(s.tasks[id])
  {
  }

  lemma MissesStep(s: State, step: Step)
    requires LockInvariant(s) && MissesStillHold(s) && Enabled(s, step)
    ensures MissesStillHold(Apply(s, step))
  {
    var s' := Apply(s, step);
    forall id | id in s'.tasks
      ensures KnowsSuccessMissing(s'.tasks[id].pc) ==> !IsFresh(s'.entries, s'.tasks[id].key, s'.now)
      ensures KnowsBothMissing(s'.tasks[id].pc) ==> !IsFresh(s'.failures, s'.tasks[id].key, s'.now)
    {
      if KnowsSuccessMissingAt(s', id) {
        SuccessKnowledgeGained(s, step, id);
        KeysKept(s, step, id);
        if step.Publish? && s.tasks[id].key == s.tasks[step.id].key {
          CriticalKnowledge(s, step, id);
          OneInCriticalSection(s, id, step.id);
        } else {
          NothingElseTurnsFresh(s, step, s.tasks[id].key);
          if KnowsBothMissingAt(s', id) { FailureKnowledgeGained(s, step, id); }
        }
      }
    }
  }

  /** Publishing one outcome leaves the other table as it was. */
  lemma PublishOneTable(s: State, step: Step)
    requires Enabled(s, step) && step.Publish? && MissesStillHold(s)
    ensures var s', key := Apply(s, step), s.tasks[step.id].key;
            !IsFresh(s'.entries, key, s'.now) || !IsFresh(s'.failures, key, s'.now)
  {
  }

  lemma FreshnessStep(s: State, step: Step)
    requires LockInvariant(s) && MissesStillHold(s) && NeverBothFresh(s) && Enabled(s, step)
    ensures MissesStillHold(Apply(s, step)) && NeverBothFresh(Apply(s, step))
  {
    MissesStep(s, step);
    var s' := Apply(s, step);
    forall key | key in s'.entries && key in s'.failures
      ensures !(IsFresh(s'.entries, key, s'.now) && IsFresh(s'.failures, key, s'.now))
    {
      if step.Publish? && key == s.tasks[step.id].key {
        PublishOneTable(s, step);
      } else {
        NothingElseTurnsFresh(s, step, key);
      }
    }
  }

  lemma InvariantStep(s: State, step: Step, maxConcurrent: nat)
    requires Invariant(s, maxConcurrent) && Enabled(s, step)
    ensures Invariant(Apply(s, step), maxConcurrent)
  {
    PlacementStep(s, step);
    ReferenceStep(s, step);
    GuardStep(s, step);
    PermitStep(s, step, maxConcurrent);
    FreshnessStep(s, step);
  }

  lemma {:induction false} InvariantOverRun(states: seq<State>, steps: seq<Step>, maxConcurrent: nat, i: nat)
    requires IsRun(states, steps, maxConcurrent) && i < |states|
    ensures Invariant(states[i], maxConcurrent)
  {
    if i > 0 {
      InvariantOverRun(states, steps, maxConcurrent, i - 1);
      InvariantStep(states[i - 1], steps[i - 1], maxConcurrent);
    } else {
      assert PermitHolders(states[0]) == {};
    }
  }

  // ---------------------------------------------------------------------------
  // What every run promises
  // ---------------------------------------------------------------------------

  /** Whoever refers to a key's mutex refers to the one in the table, however sweeps are
      interleaved, so at most one task per key is past the lock. */
  lemma SingleFlight(states: seq<State>, steps: seq<Step>, maxConcurrent: nat, i: nat, a: nat, b: nat)
    requires IsRun(states, steps, maxConcurrent) && i < |states|
    requires a in states[i].tasks && b in states[i].tasks && states[i].tasks[a].key == states[i].tasks[b].key
    ensures var s := states[i];
      && (s.tasks[a].mutexRef.Some?
          ==> s.tasks[a].key in s.locks && s.tasks[a].mutexRef.value == s.locks[s.tasks[a].key])
      && (InCriticalSection(s.tasks[a]) && InCriticalSection(s.tasks[b]) ==> a == b)
  {
    InvariantOverRun(states, steps, maxConcurrent, i);
    if InCriticalSection(states[i].tasks[a]) && InCriticalSection(states[i].tasks[b]) {
      OneInCriticalSection(states[i], a, b);
    }
  }

  /** Permits are neither lost nor made, whatever is cancelled. */
  lemma PermitsConserved(states: seq<State>, steps: seq<Step>, maxConcurrent: nat, i: nat)
    requires IsRun(states, steps, maxConcurrent) && i < |states|
    ensures states[i].permits + |PermitHolders(states[i])| == maxConcurrent
  {
    InvariantOverRun(states, steps, maxConcurrent, i);
  }

  /** A key never has a fresh success and a fresh failure at once. */
  lemma NeverFreshBothWays(states: seq<State>, steps: seq<Step>, maxConcurrent: nat, i: nat, key: string)
    requires IsRun(states, steps, maxConcurrent) && i < |states|
    ensures !(IsFresh(states[i].entries, key, states[i].now) && IsFresh(states[i].failures, key, states[i].now))
  {
    InvariantOverRun(states, steps, maxConcurrent, i);
  }

  /** From the grant of the permit until the outcome is recorded, neither a success nor a failure is
      fresh for the key: no uncached resolve starts, or is under way, while the answer is cached. */
  lemma NoUpstreamWhileCached(states: seq<State>, steps: seq<Step>, maxConcurrent: nat, i: nat, id: nat)
    requires IsRun(states, steps, maxConcurrent) && i < |states| && id in states[i].tasks
    requires KnowsBothMissing(states[i].tasks[id].pc)
    ensures !IsFresh(states[i].entries, states[i].tasks[id].key, states[i].now)
    ensures !IsFresh(states[i].failures, states[i].tasks[id].key, states[i].now)
  {
    InvariantOverRun(states, steps, maxConcurrent, i);
  }

  /** No task is stuck: as long as one has not finished, some task can take a step of its own,
      without the help of a cancellation. */
  lemma NoDeadlock(states: seq<State>, steps: seq<Step>, maxConcurrent: nat, i: nat, id: nat) returns (step: Step)
    requires IsRun(states, steps, maxConcurrent) && i < |states| && id in states[i].tasks
    requires states[i].tasks[id].pc != Done
    ensures Enabled(states[i], step) && ByTask(step) && !step.Spawn? && !step.Cancel?
  {
    InvariantOverRun(states, steps, maxConcurrent, i);
    var s := states[i];
    if s.tasks[id].pc == Waiting && s.tasks[id].mutexRef.value in s.lockedMutexes {
      var holder :| holder in s.tasks && s.tasks[holder].holdsMutex && s.tasks[holder].mutexRef == s.tasks[id].mutexRef;
      step := OwnStep(s, holder);
    } else {
      step := OwnStep(s, id);
    }
  }

  lemma OwnStep(s: State, id: nat) returns (step: Step)
    requires TasksWellPlaced(s) && id in s.tasks && s.tasks[id].pc != Done
    requires s.tasks[id].pc == Waiting ==> s.tasks[id].mutexRef.value !in s.lockedMutexes
    ensures Enabled(s, step) && ByTask(step) && !step.Spawn? && !step.Cancel?
  {
    var task := s.tasks[id];
    match task.pc
    case Start => step := LookSuccess(id, s.now);
    case MissedSuccess => step := LookFailure(id, s.now);
    case MissedBoth => step := TakeReference(id);
    case Waiting => step := Lock(id);
    case Locked => step := RelookSuccess(id, s.now);
    case RemissedSuccess => step := RelookFailure(id, s.now);
    case AwaitingPermit => step := PermitTimeout(id);
    case Resolving => step := Upstream(id, Busy);
    case Publishing(_) => step := Publish(id, s.now);
    case Trimming => step := TrimDone(id);
    case Leaving =>
      step := if task.holdsPermit then DropPermit(id) else if task.holdsMutex then Unlock(id) else DropReference(id);
  }

  /** Nothing leaks: once every task is done, finished or cancelled, all permits are back, no mutex is
      locked and the next sweep may delete every lock. */
  lemma NothingLeaks(states: seq<State>, steps: seq<Step>, maxConcurrent: nat, i: nat)
    requires IsRun(states, steps, maxConcurrent) && i < |states|
    requires forall id | id in states[i].tasks :: states[i].tasks[id].pc == Done
    ensures states[i].permits == maxConcurrent && states[i].lockedMutexes == {}
    ensures forall key | key in states[i].locks :: Enabled(states[i], PruneLock(key))
  {
    InvariantOverRun(states, steps, maxConcurrent, i);
    assert forall id | id in states[i].tasks :: WellPlaced(states[i].tasks[id]);
    assert PermitHolders(states[i]) == {};
    assert forall m :: m !in states[i].lockedMutexes;
  }

  /** A step that records a success or a failure. */
  predicate Records(s: State, step: Step) {
    step.Publish? && Enabled(s, step) && !s.tasks[step.id].pc.outcome.Busy?
  }

  /** Between recordings both tables only forget. Permit timeouts, busy upstreams, cancellations and
      cached answers leave no trace in them. */
  lemma {:induction false} OnlyRecordingAdds(states: seq<State>, steps: seq<Step>, maxConcurrent: nat, i: nat, j: nat)
    requires IsRun(states, steps, maxConcurrent) && i <= j < |states|
    requires forall k | i <= k < j :: !Records(states[k], steps[k])
    ensures SubTable(states[j].entries, states[i].entries) && SubTable(states[j].failures, states[i].failures)
    decreases j
  {
    if i < j {
      OnlyRecordingAdds(states, steps, maxConcurrent, i, j - 1);
      ForgettingStep(states[j - 1], steps[j - 1]);
    }
  }

  lemma ForgettingStep(s: State, step: Step)
    requires Enabled(s, step) && !Records(s, step)
    ensures SubTable(Apply(s, step).entries, s.entries) && SubTable(Apply(s, step).failures, s.failures)
  {
  }

  // ---------------------------------------------------------------------------
  // One upstream resolve per time to live
  // ---------------------------------------------------------------------------

  /** The step records a success for `key`. */
  predicate RecordsSuccess(s: State, step: Step, key: string) {
    Records(s, step) && s.tasks[step.id].key == key && s.tasks[step.id].pc.outcome.Resolved?
  }

  /** The step records for `key` that its resolve failed with `message`. */
  predicate RecordsFailure(s: State, step: Step, key: string, message: string) {
    Records(s, step) && s.tasks[step.id].key == key && s.tasks[step.id].pc.outcome == Failed(message)
  }

  predicate Evicts(step: Step, key: string) { step.TrimEntry? && step.victim == key }

  predicate EvictsFailure(step: Step, key: string) { step.TrimFailure? && step.victim == key }

  /** A recorded success stays in the table, untouched, until its time to live is over. */
  lemma {:induction false} SuccessLasts(states: seq<State>, steps: seq<Step>, maxConcurrent: nat,
                                        key: string, i: nat, j: nat)
    requires IsRun(states, steps, maxConcurrent) && i < j < |states|
    requires RecordsSuccess(states[i], steps[i], key)
    requires forall k | i < k < j :: !Evicts(steps[k], key)
    ensures var end := SaturatingAdd(steps[i].t, SUCCESS_TTL_MS);
            states[j].now > end
            || (key in states[j].entries && states[j].entries[key].expiresAt == end
                && states[j].entries[key].value == states[i].tasks[steps[i].id].pc.outcome.stream)
    decreases j
  {
    if i + 1 < j {
      hide Enabled, Apply, LockInvariant, Init;
      SuccessLasts(states, steps, maxConcurrent, key, i, j - 1);
      InvariantOverRun(states, steps, maxConcurrent, j - 1);
      EntryStays(states[j - 1], steps[j - 1], key);
    } else {
      EntryRecorded(states[i], steps[i], key);
    }
  }

  lemma EntryRecorded(s: State, step: Step, key: string)
    requires RecordsSuccess(s, step, key)
    ensures Apply(s, step).entries
         == s.entries[key := Stamped(s.tasks[step.id].pc.outcome.stream, step.t, SUCCESS_TTL_MS)]
  {
  }

  lemma FailureRecorded(s: State, step: Step, key: string, message: string)
    requires RecordsFailure(s, step, key, message)
    ensures Apply(s, step).failures == s.failures[key := Stamped(message, step.t, FAILURE_TTL_MS)]
  {
  }

  /** As long as it is fresh an entry is neither replaced nor swept. */
  lemma EntryStays(s: State, step: Step, key: string)
    requires Enabled(s, step) && MissesStillHold(s) && !Evicts(step, key)
    ensures s.now <= Apply(s, step).now
    ensures IsFresh(s.entries, key, s.now) ==>
              key in Apply(s, step).entries && Apply(s, step).entries[key] == s.entries[key]
  {
  }

  lemma FailureStays(s: State, step: Step, key: string)
    requires Enabled(s, step) && MissesStillHold(s) && !EvictsFailure(step, key)
    ensures s.now <= Apply(s, step).now
    ensures IsFresh(s.failures, key, s.now) ==>
              key in Apply(s, step).failures && Apply(s, step).failures[key] == s.failures[key]
  {
  }

  /** And so does a recorded failure. */
  lemma {:induction false} FailureLasts(states: seq<State>, steps: seq<Step>, maxConcurrent: nat,
                                        key: string, message: string, i: nat, j: nat)
    requires IsRun(states, steps, maxConcurrent) && i < j < |states|
    requires RecordsFailure(states[i], steps[i], key, message)
    requires forall k | i < k < j :: !EvictsFailure(steps[k], key)
    ensures var end := SaturatingAdd(steps[i].t, FAILURE_TTL_MS);
            states[j].now > end
            || (key in states[j].failures && states[j].failures[key].expiresAt == end
                && states[j].failures[key].value == message)
    decreases j
  {
    if i + 1 < j {
      hide Enabled, Apply, LockInvariant, Init;
      FailureLasts(states, steps, maxConcurrent, key, message, i, j - 1);
      InvariantOverRun(states, steps, maxConcurrent, j - 1);
      FailureStays(states[j - 1], steps[j - 1], key);
    } else {
      FailureRecorded(states[i], steps[i], key, message);
    }
  }

  /** After a success is recorded with time stamp t, the next uncached resolve for that key gets its
      permit only after t + 60 s, unless trimming evicted the entry. */
  lemma OneUpstreamPerTtl(states: seq<State>, steps: seq<Step>, maxConcurrent: nat, key: string, i: nat, j: nat)
    requires IsRun(states, steps, maxConcurrent) && i < j < |steps|
    requires RecordsSuccess(states[i], steps[i], key)
    requires forall k | i < k < j :: !Evicts(steps[k], key)
    requires steps[j].GetPermit? && states[j].tasks[steps[j].id].key == key
    ensures states[j].now > SaturatingAdd(steps[i].t, 60_000)
  {
    SuccessLasts(states, steps, maxConcurrent, key, i, j);
    InvariantOverRun(states, steps, maxConcurrent, j);
  }

  /** After a failure is recorded with time stamp t, only after t + 45 s, unless trimming evicted it. */
  lemma OneUpstreamPerFailure(states: seq<State>, steps: seq<Step>, maxConcurrent: nat, key: string, message: string,
                              i: nat, j: nat)
    requires IsRun(states, steps, maxConcurrent) && i < j < |steps|
    requires RecordsFailure(states[i], steps[i], key, message)
    requires forall k | i < k < j :: !EvictsFailure(steps[k], key)
    requires steps[j].GetPermit? && states[j].tasks[steps[j].id].key == key
    ensures states[j].now > SaturatingAdd(steps[i].t, 45_000)
  {
    FailureLasts(states, steps, maxConcurrent, key, message, i, j);
    InvariantOverRun(states, steps, maxConcurrent, j);
  }

  /** A step looks `key` up in the success table, or in the failure table. */
  predicate LooksFor(s: State, step: Step, key: string, failures: bool) {
    && Enabled(s, step)
    && (if failures then step.LookFailure? || step.RelookFailure? else step.LookSuccess? || step.RelookSuccess?)
    && s.tasks[step.id].key == key
  }

  lemma SuccessFound(s: State, step: Step, key: string)
    requires LooksFor(s, step, key, false) && key in s.entries && step.t <= s.entries[key].expiresAt
    ensures var task := Apply(s, step).tasks[step.id];
            task.answer == Some(Found(ForCaller(s.entries[key].value, task.candidateIndex)))
  {
  }

  lemma FailureFound(s: State, step: Step, key: string)
    requires LooksFor(s, step, key, true) && key in s.failures && step.t <= s.failures[key].expiresAt
    ensures Apply(s, step).tasks[step.id].answer == Some(CachedFailure(s.failures[key].value))
  {
  }

  /** In the time to live of a recorded success every look-up in the success table, before the mutex or
      behind it, answers with that stream under the caller's own index. */
  lemma SuccessAnswers(states: seq<State>, steps: seq<Step>, maxConcurrent: nat, key: string, i: nat, j: nat)
    requires IsRun(states, steps, maxConcurrent) && i < j < |steps|
    requires RecordsSuccess(states[i], steps[i], key) && (forall k | i < k < j :: !Evicts(steps[k], key))
    requires LooksFor(states[j], steps[j], key, false) && states[j].now <= SaturatingAdd(steps[i].t, 60_000)
    ensures var stream, task := states[i].tasks[steps[i].id].pc.outcome.stream, states[j + 1].tasks[steps[j].id];
            task.answer == Some(Found(ForCaller(stream, task.candidateIndex)))
  {
    hide Apply;
    SuccessLasts(states, steps, maxConcurrent, key, i, j);
    SuccessFound(states[j], steps[j], key);
  }

  /** In the time to live of a recorded failure every look-up in the failure table, which is the one that
      follows when no success is fresh, answers with that failure. */
  lemma FailureAnswers(states: seq<State>, steps: seq<Step>, maxConcurrent: nat, key: string, message: string,
                       i: nat, j: nat)
    requires IsRun(states, steps, maxConcurrent) && i < j < |steps|
    requires RecordsFailure(states[i], steps[i], key, message)
            && (forall k | i < k < j :: !EvictsFailure(steps[k], key))
    requires LooksFor(states[j], steps[j], key, true) && states[j].now <= SaturatingAdd(steps[i].t, 45_000)
    ensures states[j + 1].tasks[steps[j].id].answer == Some(CachedFailure(message))
  {
    hide Apply;
    FailureLasts(states, steps, maxConcurrent, key, message, i, j);
    FailureFound(states[j], steps[j], key);
  }

  /** When no success is found, the look-up in the failure table is the task's only next step of its own. */
  lemma MissedSuccessLooksOn(s: State, step: Step, key: string)
    requires LooksFor(s, step, key, false) && !IsFresh(s.entries, key, step.t)
    ensures var after := Apply(s, step).tasks[step.id];
            after == s.tasks[step.id].(pc := if step.LookSuccess? then MissedSuccess else RemissedSuccess)
  {
  }

  // ---------------------------------------------------------------------------
  // Where answers come from
  // ---------------------------------------------------------------------------

  /** Before state `i`, some task's upstream resolve for `key` returned `stream`. */
  ghost predicate ResolvedFor(states: seq<State>, steps: seq<Step>, i: nat, key: string, stream: Stream)
    requires |states| == |steps| + 1 && i <= |steps|
  {
    exists j :: 0 <= j < i && steps[j].Upstream? && steps[j].outcome == Resolved(stream)
      && steps[j].id in states[j].tasks && states[j].tasks[steps[j].id].key == key
  }

  /** `stream` is one that was resolved for the task's key, with the task's own candidate index. */
  ghost predicate StreamFor(states: seq<State>, steps: seq<Step>, i: nat, task: Task, stream: Stream)
    requires |states| == |steps| + 1 && i <= |steps|
  {
    exists original :: ResolvedFor(states, steps, i, task.key, original)
      && stream == ForCaller(original, task.candidateIndex)
  }

  ghost predicate Sourced(states: seq<State>, steps: seq<Step>, i: nat)
    requires |states| == |steps| + 1 && i <= |steps|
  {
    var s := states[i];
    && (forall key | key in s.entries :: ResolvedFor(states, steps, i, key, s.entries[key].value))
    && (forall id | id in s.tasks && s.tasks[id].pc.Publishing? && s.tasks[id].pc.outcome.Resolved? ::
          ResolvedFor(states, steps, i, s.tasks[id].key, s.tasks[id].pc.outcome.stream)
          && OwnOutcome(s.tasks[id].pc.outcome, s.tasks[id].candidateIndex))
    && (forall id | id in s.tasks && s.tasks[id].answer.Some? && s.tasks[id].answer.value.Found? ::
          StreamFor(states, steps, i, s.tasks[id], s.tasks[id].answer.value.stream))
  }

  /** What a caller is answered that resolved upstream itself. */
  function OwnAnswer(outcome: Outcome): Answer {
    match outcome
    case Resolved(stream) => Found(stream)
    case Failed(message) => Error(message)
    case Busy => Refused
  }

  /** The task has come past its uncached resolve, with this outcome. */
  predicate CameFrom(task: Task, outcome: Outcome) {
    match task.pc
    case Publishing(published) => published == outcome
    case Trimming | Leaving | Done => task.answer == Some(OwnAnswer(outcome))
    case _ => false
  }

  /** Whatever a task's own uncached resolve returned is what the task publishes and answers with. */
  ghost predicate OwnUpstream(states: seq<State>, steps: seq<Step>, i: nat)
    requires |states| == |steps| + 1 && i <= |steps|
  {
    forall j | 0 <= j < i && steps[j].Upstream? ::
      steps[j].id in states[i].tasks && CameFrom(states[i].tasks[steps[j].id], steps[j].outcome)
  }

  lemma CameFromStep(s: State, step: Step, id: nat, outcome: Outcome)
    requires Enabled(s, step) && id in s.tasks && CameFrom(s.tasks[id], outcome)
    ensures id in Apply(s, step).tasks && CameFrom(Apply(s, step).tasks[id], outcome)
  {
  }

  lemma UpstreamReturns(s: State, step: Step)
    requires Enabled(s, step) && step.Upstream?
    ensures step.id in Apply(s, step).tasks && CameFrom(Apply(s, step).tasks[step.id], step.outcome)
  {
  }

  lemma OwnUpstreamStep(states: seq<State>, steps: seq<Step>, maxConcurrent: nat, i: nat)
    requires IsRun(states, steps, maxConcurrent) && i < |steps| && OwnUpstream(states, steps, i)
    ensures OwnUpstream(states, steps, i + 1)
  {
    hide Enabled, Apply, CameFrom;
    forall j | 0 <= j < i + 1 && steps[j].Upstream?
      ensures steps[j].id in states[i + 1].tasks && CameFrom(states[i + 1].tasks[steps[j].id], steps[j].outcome)
    {
      if j == i {
        UpstreamReturns(states[i], steps[i]);
      } else {
        CameFromStep(states[i], steps[i], steps[j].id, steps[j].outcome);
      }
    }
  }

  lemma ResolvedForLater(states: seq<State>, steps: seq<Step>, i: nat, key: string, stream: Stream)
    requires |states| == |steps| + 1 && i < |steps| && ResolvedFor(states, steps, i, key, stream)
    ensures ResolvedFor(states, steps, i + 1, key, stream)
  {
  }

  lemma SourcedStep(states: seq<State>, steps: seq<Step>, maxConcurrent: nat, i: nat)
    requires IsRun(states, steps, maxConcurrent) && i < |steps| && Sourced(states, steps, i)
    ensures Sourced(states, steps, i + 1)
  {
    var s, step, s' := states[i], steps[i], states[i + 1];
    forall key | key in s'.entries ensures ResolvedFor(states, steps, i + 1, key, s'.entries[key].value) {
      EntrySource(s, step, key);
      ResolvedForLater(states, steps, i, key, s'.entries[key].value);
    }
    forall id | id in s'.tasks && s'.tasks[id].pc.Publishing? && s'.tasks[id].pc.outcome.Resolved?
      ensures ResolvedFor(states, steps, i + 1, s'.tasks[id].key, s'.tasks[id].pc.outcome.stream)
      ensures OwnOutcome(s'.tasks[id].pc.outcome, s'.tasks[id].candidateIndex)
    {
      PublishingSource(s, step, id);
      if step.Upstream? && step.id == id {
        assert steps[i].outcome == Resolved(s'.tasks[id].pc.outcome.stream);
      } else {
        ResolvedForLater(states, steps, i, s'.tasks[id].key, s'.tasks[id].pc.outcome.stream);
      }
    }
    forall id | id in s'.tasks && s'.tasks[id].answer.Some? && s'.tasks[id].answer.value.Found?
      ensures StreamFor(states, steps, i + 1, s'.tasks[id], s'.tasks[id].answer.value.stream)
    {
      AnswerSourced(states, steps, maxConcurrent, i, id);
    }
  }

  lemma AnswerSourced(states: seq<State>, steps: seq<Step>, maxConcurrent: nat, i: nat, id: nat)
    requires IsRun(states, steps, maxConcurrent) && i < |steps| && Sourced(states, steps, i)
    requires id in states[i + 1].tasks && states[i + 1].tasks[id].answer.Some?
            && states[i + 1].tasks[id].answer.value.Found?
    ensures StreamFor(states, steps, i + 1, states[i + 1].tasks[id], states[i + 1].tasks[id].answer.value.stream)
  {
    var s, step, task := states[i], steps[i], states[i + 1].tasks[id];
    var stream := task.answer.value.stream;
    var source := AnswerSource(s, step, id);
    match source
    case Kept =>
      var original :| ResolvedFor(states, steps, i, task.key, original)
          && stream == ForCaller(original, task.candidateIndex);
      ResolvedForLater(states, steps, i, task.key, original);
    case FromTable => ResolvedForLater(states, steps, i, task.key, s.entries[task.key].value);
    case FromUpstream => ResolvedForLater(states, steps, i, task.key, stream);
  }

  datatype Source = Kept | FromTable | FromUpstream

  lemma AnswerSource(s: State, step: Step, id: nat) returns (source: Source)
    requires Enabled(s, step) && id in Apply(s, step).tasks
    requires Apply(s, step).tasks[id].answer.Some? && Apply(s, step).tasks[id].answer.value.Found?
    ensures id in s.tasks
    ensures var was, task := s.tasks[id], Apply(s, step).tasks[id];
      && was.key == task.key && was.candidateIndex == task.candidateIndex
      && (source == Kept ==> was.answer == task.answer)
      && (source == FromTable ==>
            task.key in s.entries
            && task.answer.value.stream == ForCaller(s.entries[task.key].value, task.candidateIndex))
      && (source == FromUpstream ==> was.pc == Publishing(Resolved(task.answer.value.stream)))
  {
    var task := Apply(s, step).tasks[id];
    source :=
      if !ByTask(step) || step.id != id || s.tasks[id].answer == task.answer then Kept
      else if step.Publish? then FromUpstream
      else FromTable;
  }

  lemma EntrySource(s: State, step: Step, key: string)
    requires Enabled(s, step) && key in Apply(s, step).entries
    ensures || (key in s.entries && s.entries[key] == Apply(s, step).entries[key])
            || exists id | id in s.tasks :: s.tasks[id].key == key
                 && s.tasks[id].pc == Publishing(Resolved(Apply(s, step).entries[key].value))
  {
    if step.Publish? && s.tasks[step.id].key == key && s.tasks[step.id].pc.outcome.Resolved? {
      assert s.tasks[step.id].pc == Publishing(Resolved(Apply(s, step).entries[key].value));
    }
  }

  lemma PublishingSource(s: State, step: Step, id: nat)
    requires Enabled(s, step) && id in Apply(s, step).tasks && Apply(s, step).tasks[id].pc.Publishing?
    ensures id in s.tasks && s.tasks[id].key == Apply(s, step).tasks[id].key
    ensures s.tasks[id].candidateIndex == Apply(s, step).tasks[id].candidateIndex
    ensures (step.Upstream? && step.id == id && Apply(s, step).tasks[id].pc == Publishing(step.outcome)
             && OwnOutcome(step.outcome, s.tasks[id].candidateIndex))
         || s.tasks[id].pc == Apply(s, step).tasks[id].pc
  {
  }

  lemma {:induction false} SourcedOverRun(states: seq<State>, steps: seq<Step>, maxConcurrent: nat, i: nat)
    requires IsRun(states, steps, maxConcurrent) && i < |states|
    ensures Sourced(states, steps, i) && OwnUpstream(states, steps, i)
  {
    if i > 0 {
      hide Sourced, OwnUpstream, IsRun;
      SourcedOverRun(states, steps, maxConcurrent, i - 1);
      RunLength(states, steps, maxConcurrent);
      SourcedStep(states, steps, maxConcurrent, i - 1);
      OwnUpstreamStep(states, steps, maxConcurrent, i - 1);
    }
  }

  lemma AnsweredTasks(states: seq<State>, steps: seq<Step>, maxConcurrent: nat, i: nat, id: nat)
    requires IsRun(states, steps, maxConcurrent) && i < |states|
    requires id in states[i].tasks && states[i].tasks[id].answer.Some?
    ensures !states[i].tasks[id].pc.Publishing?
  {
    hide IsRun;
    InvariantOverRun(states, steps, maxConcurrent, i);
    assert WellPlaced(states[i].tasks[id]);
  }

  lemma RunLength(states: seq<State>, steps: seq<Step>, maxConcurrent: nat)
    requires IsRun(states, steps, maxConcurrent)
    ensures |states| == |steps| + 1
  {
  }

  /** Every stream a caller is given was resolved upstream for that caller's key in the same run and
      carries the caller's own candidate index; and when the caller resolved upstream itself, it is given
      the very stream its own resolve returned. */
  lemma AnswersAreResolved(states: seq<State>, steps: seq<Step>, maxConcurrent: nat, i: nat, id: nat)
    requires IsRun(states, steps, maxConcurrent) && i < |states|
    requires id in states[i].tasks && states[i].tasks[id].answer.Some? && states[i].tasks[id].answer.value.Found?
    ensures var task := states[i].tasks[id]; var stream := task.answer.value.stream;
      && stream.candidateIndex == task.candidateIndex && stream.attemptedStreams == task.candidateIndex + 1
      && (exists original :: ResolvedFor(states, steps, i, task.key, original)
                             && stream.playbackUrl == original.playbackUrl
                             && stream.playerPageUrl == original.playerPageUrl
                             && stream.playbackType == original.playbackType)
      && forall j | 0 <= j < i && steps[j].Upstream? && steps[j].id == id :: steps[j].outcome == Resolved(stream)
  {
    hide IsRun, ResolvedFor, LockInvariant;
    RunLength(states, steps, maxConcurrent);
    SourcedOverRun(states, steps, maxConcurrent, i);
    AnsweredTasks(states, steps, maxConcurrent, i, id);
    assert StreamFor(states, steps, i, states[i].tasks[id], states[i].tasks[id].answer.value.stream);
  }

  // ---------------------------------------------------------------------------
  // Where refusals and errors come from
  // ---------------------------------------------------------------------------

  /** Before state `i` a failure with that message was recorded for the key. */
  ghost predicate FailedFor(states: seq<State>, steps: seq<Step>, i: nat, key: string, message: string)
    requires |states| == |steps| + 1 && i <= |steps|
  {
    exists j | 0 <= j < i :: RecordsFailure(states[j], steps[j], key, message)
  }

  ghost predicate Took(steps: seq<Step>, i: nat, step: Step)
    requires i <= |steps|
  {
    exists j | 0 <= j < i :: steps[j] == step
  }

  /** What must have happened for a task to have this answer. */
  ghost predicate Explained(states: seq<State>, steps: seq<Step>, i: nat, id: nat, key: string, answer: Answer)
    requires |states| == |steps| + 1 && i <= |steps|
  {
    match answer
    case Found(_) => true
    case CachedFailure(message) => FailedFor(states, steps, i, key, message)
    case Error(message) => Took(steps, i, Upstream(id, Failed(message)))
    case Refused => Took(steps, i, PermitTimeout(id)) || Took(steps, i, Upstream(id, Busy))
    case Dropped => Took(steps, i, Cancel(id))
  }

  ghost predicate AllExplained(states: seq<State>, steps: seq<Step>, i: nat)
    requires |states| == |steps| + 1 && i <= |steps|
  {
    var s := states[i];
    && (forall key | key in s.failures :: FailedFor(states, steps, i, key, s.failures[key].value))
    && (forall id | id in s.tasks && s.tasks[id].pc.Publishing? ::
          Took(steps, i, Upstream(id, s.tasks[id].pc.outcome)))
    && (forall id | id in s.tasks && s.tasks[id].answer.Some? ::
          Explained(states, steps, i, id, s.tasks[id].key, s.tasks[id].answer.value))
  }

  lemma ExplainedLater(states: seq<State>, steps: seq<Step>, i: nat, id: nat, key: string, answer: Answer)
    requires |states| == |steps| + 1 && i < |steps| && Explained(states, steps, i, id, key, answer)
    ensures Explained(states, steps, i + 1, id, key, answer)
  {
    hide RecordsFailure;
  }

  lemma FailedForLater(states: seq<State>, steps: seq<Step>, i: nat, key: string, message: string)
    requires |states| == |steps| + 1 && i < |steps|
    requires FailedFor(states, steps, i, key, message) || RecordsFailure(states[i], steps[i], key, message)
    ensures FailedFor(states, steps, i + 1, key, message)
  {
    hide RecordsFailure;
  }

  lemma FailureSource(s: State, step: Step, key: string)
    requires Enabled(s, step) && key in Apply(s, step).failures
    ensures (key in s.failures && s.failures[key] == Apply(s, step).failures[key])
         || RecordsFailure(s, step, key, Apply(s, step).failures[key].value)
  {
  }

  lemma PublishedFrom(s: State, step: Step, id: nat)
    requires Enabled(s, step) && id in Apply(s, step).tasks && Apply(s, step).tasks[id].pc.Publishing?
    ensures (id in s.tasks && s.tasks[id].pc == Apply(s, step).tasks[id].pc)
         || step == Upstream(id, Apply(s, step).tasks[id].pc.outcome)
  {
  }

  /** Which step gives a task its answer. */
  lemma AnswerFrom(s: State, step: Step, id: nat)
    requires Enabled(s, step) && id in Apply(s, step).tasks && Apply(s, step).tasks[id].answer.Some?
    ensures id in s.tasks && s.tasks[id].key == Apply(s, step).tasks[id].key
    ensures var was, answer := s.tasks[id], Apply(s, step).tasks[id].answer.value;
            was.answer == Some(answer)
            || match answer
               case Found(_) => true
               case CachedFailure(message) => was.key in s.failures && s.failures[was.key].value == message
               case Error(message) => was.pc == Publishing(Failed(message))
               case Refused => step == PermitTimeout(id) || was.pc == Publishing(Busy)
               case Dropped => step == Cancel(id)
  {
  }

  lemma ExplainedStep(states: seq<State>, steps: seq<Step>, maxConcurrent: nat, i: nat)
    requires IsRun(states, steps, maxConcurrent) && i < |steps| && AllExplained(states, steps, i)
    ensures AllExplained(states, steps, i + 1)
  {
    hide Enabled, Apply, Took, FailedFor, RecordsFailure;
    var s, step, s' := states[i], steps[i], states[i + 1];
    forall key | key in s'.failures ensures FailedFor(states, steps, i + 1, key, s'.failures[key].value) {
      FailureSource(s, step, key);
      FailedForLater(states, steps, i, key, s'.failures[key].value);
    }
    forall id | id in s'.tasks && s'.tasks[id].pc.Publishing?
      ensures Took(steps, i + 1, Upstream(id, s'.tasks[id].pc.outcome))
    {
      PublishedFrom(s, step, id);
      TookLater(steps, i, Upstream(id, s'.tasks[id].pc.outcome));
    }
    forall id | id in s'.tasks && s'.tasks[id].answer.Some?
      ensures Explained(states, steps, i + 1, id, s'.tasks[id].key, s'.tasks[id].answer.value)
    {
      AnswerFrom(s, step, id);
      ExplainedNow(states, steps, maxConcurrent, i, id);
    }
  }

  lemma TookLater(steps: seq<Step>, i: nat, step: Step)
    requires i < |steps| && (Took(steps, i, step) || steps[i] == step)
    ensures Took(steps, i + 1, step)
  {
  }

  lemma ExplainedNow(states: seq<State>, steps: seq<Step>, maxConcurrent: nat, i: nat, id: nat)
    requires IsRun(states, steps, maxConcurrent) && i < |steps| && AllExplained(states, steps, i)
    requires id in states[i + 1].tasks && states[i + 1].tasks[id].answer.Some?
    ensures Explained(states, steps, i + 1, id, states[i + 1].tasks[id].key, states[i + 1].tasks[id].answer.value)
  {
    hide Enabled, Apply, Took, FailedFor, RecordsFailure;
    var s, step, task := states[i], steps[i], states[i + 1].tasks[id];
    AnswerFrom(s, step, id);
    if s.tasks[id].answer == task.answer {
      ExplainedLater(states, steps, i, id, task.key, task.answer.value);
    } else {
      match task.answer.value
      case Found(_) =>
      case CachedFailure(message) => FailedForLater(states, steps, i, task.key, message);
      case Error(message) => TookLater(steps, i, Upstream(id, Failed(message)));
      case Refused =>
        if step == PermitTimeout(id) { TookLater(steps, i, step); } else { TookLater(steps, i, Upstream(id, Busy)); }
      case Dropped => TookLater(steps, i, step);
    }
  }

  /** Over every run, an answer tells what happened: a cached failure was recorded for the key earlier in the
      run, an error is what the caller's own resolve returned, a refusal means that it waited in vain for a
      permit or that the upstream was busy, and only a cancelled call has none. */
  lemma {:induction false} RefusalsAreExplained(states: seq<State>, steps: seq<Step>, maxConcurrent: nat, i: nat)
    requires IsRun(states, steps, maxConcurrent) && i < |states|
    ensures AllExplained(states, steps, i)
  {
    if i > 0 {
      hide AllExplained, Enabled, Apply;
      RefusalsAreExplained(states, steps, maxConcurrent, i - 1);
      ExplainedStep(states, steps, maxConcurrent, i - 1);
    }
  }

  /** And the other way round: a caller that resolves upstream is answered what that returned, success, error
      or refusal. */
  lemma OwnOutcomeIsAnswered(states: seq<State>, steps: seq<Step>, maxConcurrent: nat, i: nat, j: nat)
    requires IsRun(states, steps, maxConcurrent) && j < i < |states| && steps[j].Upstream?
    requires steps[j].id in states[i].tasks && states[i].tasks[steps[j].id].answer.Some?
    ensures states[i].tasks[steps[j].id].answer == Some(OwnAnswer(steps[j].outcome))
  {
    hide IsRun, LockInvariant, CameFrom;
    RunLength(states, steps, maxConcurrent);
    SourcedOverRun(states, steps, maxConcurrent, i);
    AnsweredTasks(states, steps, maxConcurrent, i, steps[j].id);
    CameFromAnswer(states[i].tasks[steps[j].id], steps[j].outcome);
  }

  lemma CameFromAnswer(task: Task, outcome: Outcome)
    requires CameFrom(task, outcome) && !task.pc.Publishing?
    ensures task.answer == Some(OwnAnswer(outcome))
  {
  }

  // ---------------------------------------------------------------------------
  // A call that nothing disturbs
  // ---------------------------------------------------------------------------

  ghost function Play(s: State, steps: seq<Step>): Option<State>
    decreases |steps|
  {
    if steps == [] then Some(s)
    else if !Enabled(s, steps[0]) then None
    else Play(Apply(s, steps[0]), steps[1..])
  }

  /** The state in which a task alone has changed. */
  function WithTask(s: State, id: nat, task: Task): State { s.(tasks := s.tasks[id := task]) }

  ghost predicate Leads(s: State, step: Step, after: State) { Enabled(s, step) && Apply(s, step) == after }

  lemma PlayCons(s: State, step: Step, after: State, steps: seq<Step>)
    requires Leads(s, step, after)
    ensures Play(s, [step] + steps) == Play(after, steps)
  {
    hide Apply, Enabled;
    assert ([step] + steps)[1..] == steps;
  }

  lemma PlayOne(s: State, step: Step, after: State)
    requires Leads(s, step, after)
    ensures Play(s, [step]) == Some(after)
  {
    hide Apply, Enabled;
    assert [step][1..] == [];
  }

  lemma Overwritten(tasks: map<nat, Task>, id: nat, a: Task, b: Task)
    ensures tasks[id := a][id := b] == tasks[id := b]
  {
  }

  /** A task that has just been called, and one that is over and holds nothing. */
  function Called(key: string, candidateIndex: nat): Task {
    Task(key, candidateIndex, Start, None, false, false, None)
  }

  function Over(key: string, candidateIndex: nat, answer: Answer): Task {
    Called(key, candidateIndex).(pc := Done, answer := Some(answer))
  }

  lemma SpawnLeads(s: State, id: nat, key: string, candidateIndex: nat)
    requires id !in s.tasks
    ensures Leads(s, Spawn(id, key, candidateIndex), WithTask(s, id, Called(key, candidateIndex)))
  {
  }

  lemma LookLeads(s: State, id: nat, task: Task, miss: Pc)
    requires (task.pc == Start && miss == MissedSuccess) || (task.pc == Locked && miss == RemissedSuccess)
    requires !IsFresh(s.entries, task.key, s.now)
    ensures Leads(WithTask(s, id, task), if task.pc == Start then LookSuccess(id, s.now) else RelookSuccess(id, s.now),
                  WithTask(s, id, task.(pc := miss)))
  {
    Overwritten(s.tasks, id, task, task.(pc := miss));
  }

  lemma LookFailureLeads(s: State, id: nat, task: Task, miss: Pc)
    requires (task.pc == MissedSuccess && miss == MissedBoth) || (task.pc == RemissedSuccess && miss == AwaitingPermit)
    requires !IsFresh(s.failures, task.key, s.now)
    ensures Leads(WithTask(s, id, task),
                  if task.pc == MissedSuccess then LookFailure(id, s.now) else RelookFailure(id, s.now),
                  WithTask(s, id, task.(pc := miss)))
  {
    Overwritten(s.tasks, id, task, task.(pc := miss));
  }

  lemma FoundLeads(s: State, id: nat, task: Task)
    requires task.pc == Start && task.mutexRef.None? && IsFresh(s.entries, task.key, s.now)
    ensures Leads(WithTask(s, id, task), LookSuccess(id, s.now),
                  WithTask(s, id, task.(pc := Done, answer := Some(Found(ForCaller(s.entries[task.key].value,
                                                                                   task.candidateIndex))))))
  {
    Overwritten(s.tasks, id, task, AfterSuccessLookup(s, task, s.now, MissedSuccess));
  }

  lemma FailedLeads(s: State, id: nat, task: Task)
    requires task.pc == MissedSuccess && task.mutexRef.None? && IsFresh(s.failures, task.key, s.now)
    ensures Leads(WithTask(s, id, task), LookFailure(id, s.now),
                  WithTask(s, id, task.(pc := Done, answer := Some(CachedFailure(s.failures[task.key].value)))))
  {
    Overwritten(s.tasks, id, task, AfterFailureLookup(s, task, s.now, MissedBoth));
  }

  function WithMutex(s: State, key: string): State {
    s.(locks := WithLock(s.locks, s.nextMutex, key),
       nextMutex := if key in s.locks then s.nextMutex else s.nextMutex + 1)
  }

  lemma ReferenceLeads(s: State, id: nat, task: Task)
    requires task.pc == MissedBoth
    ensures var mutex := WithLock(s.locks, s.nextMutex, task.key)[task.key];
            Leads(WithTask(s, id, task), TakeReference(id),
                  WithTask(WithMutex(s, task.key), id, task.(pc := Waiting, mutexRef := Some(mutex))))
  {
    var mutex := WithLock(s.locks, s.nextMutex, task.key)[task.key];
    Overwritten(s.tasks, id, task, task.(pc := Waiting, mutexRef := Some(mutex)));
  }

  lemma LockLeads(s: State, id: nat, task: Task)
    requires task.pc == Waiting && task.mutexRef.Some? && task.mutexRef.value !in s.lockedMutexes
    ensures Leads(WithTask(s, id, task), Lock(id),
                  WithTask(s.(lockedMutexes := s.lockedMutexes + {task.mutexRef.value}), id,
                           task.(pc := Locked, holdsMutex := true)))
  {
    Overwritten(s.tasks, id, task, task.(pc := Locked, holdsMutex := true));
  }

  lemma PermitLeads(s: State, id: nat, task: Task)
    requires task.pc == AwaitingPermit && s.permits > 0
    ensures Leads(WithTask(s, id, task), GetPermit(id),
                  WithTask(s.(permits := s.permits - 1), id, task.(pc := Resolving, holdsPermit := true)))
  {
    Overwritten(s.tasks, id, task, task.(pc := Resolving, holdsPermit := true));
  }

  lemma UpstreamLeads(s: State, id: nat, task: Task, outcome: Outcome)
    requires task.pc == Resolving && OwnOutcome(outcome, task.candidateIndex)
    ensures Leads(WithTask(s, id, task), Upstream(id, outcome), WithTask(s, id, task.(pc := Publishing(outcome))))
  {
    Overwritten(s.tasks, id, task, task.(pc := Publishing(outcome)));
  }

  /** What a resolve leaves in the two tables. */
  function Recorded(s: State, key: string, outcome: Outcome): State {
    match outcome
    case Resolved(stream) =>
      s.(entries := s.entries[key := Cached(stream, s.now, SaturatingAdd(s.now, 60_000))])
    case Failed(message) =>
      s.(failures := s.failures[key := Cached(message, s.now, SaturatingAdd(s.now, 45_000))])
    case Busy => s
  }

  lemma PublishLeads(s: State, id: nat, task: Task, outcome: Outcome)
    requires task.pc == Publishing(outcome) && task.mutexRef.Some?
    ensures Leads(WithTask(s, id, task), Publish(id, s.now),
                  WithTask(Recorded(s, task.key, outcome), id,
                           task.(pc := if outcome.Busy? then Leaving
                               else Trimming, answer := Some(OwnAnswer(outcome)))))
  {
    Overwritten(s.tasks, id, task,
                task.(pc := if outcome.Busy? then Leaving else Trimming, answer := Some(OwnAnswer(outcome))));
  }

  lemma TrimmedLeads(s: State, id: nat, task: Task)
    requires task.pc == Trimming
    ensures Leads(WithTask(s, id, task), TrimDone(id), WithTask(s, id, task.(pc := Leaving)))
  {
    Overwritten(s.tasks, id, task, task.(pc := Leaving));
  }

  lemma DropPermitLeads(s: State, id: nat, task: Task)
    requires task.pc == Leaving && task.holdsPermit
    ensures Leads(WithTask(s, id, task), DropPermit(id),
                  WithTask(s.(permits := s.permits + 1), id, task.(holdsPermit := false)))
  {
    Overwritten(s.tasks, id, task, task.(holdsPermit := false));
  }

  lemma UnlockLeads(s: State, id: nat, task: Task)
    requires task.pc == Leaving && !task.holdsPermit && task.holdsMutex && task.mutexRef.Some?
    ensures Leads(WithTask(s, id, task), Unlock(id),
                  WithTask(s.(lockedMutexes := s.lockedMutexes - {task.mutexRef.value}), id,
                           task.(holdsMutex := false)))
  {
    Overwritten(s.tasks, id, task, task.(holdsMutex := false));
  }

  lemma DropReferenceLeads(s: State, id: nat, task: Task)
    requires task.pc == Leaving && !task.holdsPermit && !task.holdsMutex
    ensures Leads(WithTask(s, id, task), DropReference(id), WithTask(s, id, task.(pc := Done, mutexRef := None)))
  {
    Overwritten(s.tasks, id, task, task.(pc := Done, mutexRef := None));
  }

  /** With a fresh success for its key a call is over after one look. */
  lemma CachedCall(s: State, id: nat, key: string, candidateIndex: nat)
    requires id !in s.tasks && IsFresh(s.entries, key, s.now)
    ensures Play(s, [Spawn(id, key, candidateIndex)] + [LookSuccess(id, s.now)])
         == Some(WithTask(s, id, Over(key, candidateIndex, Found(ForCaller(s.entries[key].value, candidateIndex)))))
  {
    hide Play, Leads, WithTask;
    var task := Called(key, candidateIndex);
    SpawnLeads(s, id, key, candidateIndex);
    PlayCons(s, Spawn(id, key, candidateIndex), WithTask(s, id, task), [LookSuccess(id, s.now)]);
    FoundLeads(s, id, task);
    PlayOne(WithTask(s, id, task), LookSuccess(id, s.now),
            WithTask(s, id, Over(key, candidateIndex, Found(ForCaller(s.entries[key].value, candidateIndex)))));
  }

  /** With a fresh failure, after a second one. */
  lemma CachedFailureCall(s: State, id: nat, key: string, candidateIndex: nat)
    requires id !in s.tasks && !IsFresh(s.entries, key, s.now) && IsFresh(s.failures, key, s.now)
    ensures Play(s, [Spawn(id, key, candidateIndex)] + ([LookSuccess(id, s.now)] + [LookFailure(id, s.now)]))
         == Some(WithTask(s, id, Over(key, candidateIndex, CachedFailure(s.failures[key].value))))
  {
    hide Play, Leads, WithTask;
    var task := Called(key, candidateIndex);
    var missed := task.(pc := MissedSuccess);
    SpawnLeads(s, id, key, candidateIndex);
    PlayCons(s, Spawn(id, key, candidateIndex), WithTask(s, id, task),
             [LookSuccess(id, s.now)] + [LookFailure(id, s.now)]);
    LookLeads(s, id, task, MissedSuccess);
    PlayCons(WithTask(s, id, task), LookSuccess(id, s.now), WithTask(s, id, missed), [LookFailure(id, s.now)]);
    FailedLeads(s, id, missed);
    PlayOne(WithTask(s, id, missed), LookFailure(id, s.now),
            WithTask(s, id, Over(key, candidateIndex, CachedFailure(s.failures[key].value))));
  }

  function StepsToLock(id: nat, key: string, candidateIndex: nat, t: int, rest: seq<Step>): seq<Step> {
    [Spawn(id, key, candidateIndex)] + ([LookSuccess(id, t)] + ([LookFailure(id, t)] + ([TakeReference(id)] + rest)))
  }

  function StepsToPermit(id: nat, t: int, rest: seq<Step>): seq<Step> {
    [Lock(id)] + ([RelookSuccess(id, t)] + ([RelookFailure(id, t)] + ([GetPermit(id)] + rest)))
  }

  function StepsToLeave(id: nat, outcome: Outcome, t: int, rest: seq<Step>): seq<Step> {
    [Upstream(id, outcome)] + ([Publish(id, t)] + if outcome.Busy? then rest else [TrimDone(id)] + rest)
  }

  function StepsOut(id: nat): seq<Step> { [DropPermit(id)] + ([Unlock(id)] + [DropReference(id)]) }

  /** The steps of a call that finds nothing cached. */
  function StepsOfCall(id: nat, key: string, candidateIndex: nat, outcome: Outcome, t: int): seq<Step> {
    StepsToLock(id, key, candidateIndex, t, StepsToPermit(id, t, StepsToLeave(id, outcome, t, StepsOut(id))))
  }

  lemma ToLock(s: State, id: nat, key: string, candidateIndex: nat, rest: seq<Step>)
    requires id !in s.tasks && !IsFresh(s.entries, key, s.now) && !IsFresh(s.failures, key, s.now)
    ensures var mutex := WithLock(s.locks, s.nextMutex, key)[key];
            Play(s, StepsToLock(id, key, candidateIndex, s.now, rest))
            == Play(WithTask(WithMutex(s, key), id,
                             Called(key, candidateIndex).(pc := Waiting, mutexRef := Some(mutex))), rest)
  {
    hide Play, Leads, WithTask, WithMutex, WithLock, IsFresh;
    var task := Called(key, candidateIndex);
    var missed, both := task.(pc := MissedSuccess), task.(pc := MissedBoth);
    var mutex := WithLock(s.locks, s.nextMutex, key)[key];
    SpawnLeads(s, id, key, candidateIndex);
    PlayCons(s, Spawn(id, key, candidateIndex), WithTask(s, id, task),
             [LookSuccess(id, s.now)] + ([LookFailure(id, s.now)] + ([TakeReference(id)] + rest)));
    LookLeads(s, id, task, MissedSuccess);
    PlayCons(WithTask(s, id, task), LookSuccess(id, s.now), WithTask(s, id, missed),
             [LookFailure(id, s.now)] + ([TakeReference(id)] + rest));
    LookFailureLeads(s, id, missed, MissedBoth);
    PlayCons(WithTask(s, id, missed), LookFailure(id, s.now), WithTask(s, id, both), [TakeReference(id)] + rest);
    ReferenceLeads(s, id, both);
    PlayCons(WithTask(s, id, both), TakeReference(id),
             WithTask(WithMutex(s, key), id, task.(pc := Waiting, mutexRef := Some(mutex))), rest);
  }

  lemma ToPermit(s: State, id: nat, task: Task, rest: seq<Step>)
    requires task.pc == Waiting && task.mutexRef.Some? && s.permits > 0
    requires task.mutexRef.value !in s.lockedMutexes
    requires !IsFresh(s.entries, task.key, s.now) && !IsFresh(s.failures, task.key, s.now)
    ensures Play(WithTask(s, id, task), StepsToPermit(id, s.now, rest))
         == Play(WithTask(s.(lockedMutexes := s.lockedMutexes + {task.mutexRef.value}, permits := s.permits - 1), id,
                          task.(pc := Resolving, holdsMutex := true, holdsPermit := true)), rest)
  {
    hide Play, Leads, WithTask, IsFresh;
    var locked := s.(lockedMutexes := s.lockedMutexes + {task.mutexRef.value});
    var t1 := task.(pc := Locked, holdsMutex := true);
    var t2, t3 := t1.(pc := RemissedSuccess), t1.(pc := AwaitingPermit);
    LockLeads(s, id, task);
    PlayCons(WithTask(s, id, task), Lock(id), WithTask(locked, id, t1),
             [RelookSuccess(id, s.now)] + ([RelookFailure(id, s.now)] + ([GetPermit(id)] + rest)));
    LookLeads(locked, id, t1, RemissedSuccess);
    PlayCons(WithTask(locked, id, t1), RelookSuccess(id, s.now), WithTask(locked, id, t2),
             [RelookFailure(id, s.now)] + ([GetPermit(id)] + rest));
    LookFailureLeads(locked, id, t2, AwaitingPermit);
    PlayCons(WithTask(locked, id, t2), RelookFailure(id, s.now), WithTask(locked, id, t3), [GetPermit(id)] + rest);
    PermitLeads(locked, id, t3);
    PlayCons(WithTask(locked, id, t3), GetPermit(id),
             WithTask(locked.(permits := s.permits - 1), id, t3.(pc := Resolving, holdsPermit := true)), rest);
  }

  lemma ToLeave(s: State, id: nat, task: Task, outcome: Outcome, rest: seq<Step>)
    requires task.pc == Resolving && task.mutexRef.Some? && OwnOutcome(outcome, task.candidateIndex)
    ensures Play(WithTask(s, id, task), StepsToLeave(id, outcome, s.now, rest))
         == Play(WithTask(Recorded(s, task.key, outcome), id,
                          task.(pc := Leaving, answer := Some(OwnAnswer(outcome)))), rest)
  {
    hide Play, Leads, WithTask, Recorded;
    var t1 := task.(pc := Publishing(outcome));
    var t2 := task.(pc := if outcome.Busy? then Leaving else Trimming, answer := Some(OwnAnswer(outcome)));
    var after, last := Recorded(s, task.key, outcome), if outcome.Busy? then rest else [TrimDone(id)] + rest;
    UpstreamLeads(s, id, task, outcome);
    PlayCons(WithTask(s, id, task), Upstream(id, outcome), WithTask(s, id, t1), [Publish(id, s.now)] + last);
    PublishLeads(s, id, t1, outcome);
    PlayCons(WithTask(s, id, t1), Publish(id, s.now), WithTask(after, id, t2), last);
    if !outcome.Busy? {
      TrimmedLeads(after, id, t2);
      PlayCons(WithTask(after, id, t2), TrimDone(id), WithTask(after, id, t2.(pc := Leaving)), rest);
    }
  }

  lemma ToDone(s: State, id: nat, task: Task)
    requires task.pc == Leaving && task.mutexRef.Some? && task.holdsPermit && task.holdsMutex
    ensures Play(WithTask(s, id, task), StepsOut(id))
         == Some(WithTask(s.(permits := s.permits + 1, lockedMutexes := s.lockedMutexes - {task.mutexRef.value}), id,
                          task.(pc := Done, mutexRef := None, holdsPermit := false, holdsMutex := false)))
  {
    hide Play, Leads, WithTask;
    var s1 := s.(permits := s.permits + 1);
    var s2 := s1.(lockedMutexes := s.lockedMutexes - {task.mutexRef.value});
    var t1 := task.(holdsPermit := false);
    var t2 := t1.(holdsMutex := false);
    DropPermitLeads(s, id, task);
    PlayCons(WithTask(s, id, task), DropPermit(id), WithTask(s1, id, t1), [Unlock(id)] + [DropReference(id)]);
    UnlockLeads(s1, id, t1);
    PlayCons(WithTask(s1, id, t1), Unlock(id), WithTask(s2, id, t2), [DropReference(id)]);
    DropReferenceLeads(s2, id, t2);
    PlayOne(WithTask(s2, id, t2), DropReference(id), WithTask(s2, id, t2.(pc := Done, mutexRef := None)));
  }

  lemma SameState(s: State, key: string, outcome: Outcome, mutex: nat)
    requires mutex !in s.lockedMutexes && s.permits > 0
    ensures var held := s.(lockedMutexes := s.lockedMutexes + {mutex}, permits := s.permits - 1);
            var after := Recorded(held, key, outcome);
            after.(permits := after.permits + 1, lockedMutexes := after.lockedMutexes - {mutex})
            == Recorded(s, key, outcome)
  {
    assert s.lockedMutexes + {mutex} - {mutex} == s.lockedMutexes;
  }

  /** And with neither, while a permit is free and nobody is at the key: the call resolves upstream, records what
      comes of it, hands it out and leaves nothing behind but the key's mutex in the table. */
  lemma UndisturbedCall(s: State, id: nat, key: string, candidateIndex: nat, outcome: Outcome)
    requires id !in s.tasks && !IsFresh(s.entries, key, s.now) && !IsFresh(s.failures, key, s.now)
    requires s.permits > 0 && WithLock(s.locks, s.nextMutex, key)[key] !in s.lockedMutexes
    requires OwnOutcome(outcome, candidateIndex)
    ensures Play(s, StepsOfCall(id, key, candidateIndex, outcome, s.now))
         == Some(WithTask(Recorded(WithMutex(s, key), key, outcome), id,
                          Over(key, candidateIndex, OwnAnswer(outcome))))
  {
    hide Play, IsFresh, StepsToLock, StepsToPermit, StepsToLeave, StepsOut, WithLock, Recorded, WithTask, OwnOutcome;
    var mutex := WithLock(s.locks, s.nextMutex, key)[key];
    var s1 := WithMutex(s, key);
    var t1 := Called(key, candidateIndex).(pc := Waiting, mutexRef := Some(mutex));
    ToLock(s, id, key, candidateIndex, StepsToPermit(id, s.now, StepsToLeave(id, outcome, s.now, StepsOut(id))));
    ToPermit(s1, id, t1, StepsToLeave(id, outcome, s.now, StepsOut(id)));
    var s2 := s1.(lockedMutexes := s1.lockedMutexes + {mutex}, permits := s1.permits - 1);
    var t2 := t1.(pc := Resolving, holdsMutex := true, holdsPermit := true);
    ToLeave(s2, id, t2, outcome, StepsOut(id));
    var t3 := t2.(pc := Leaving, answer := Some(OwnAnswer(outcome)));
    ToDone(Recorded(s2, key, outcome), id, t3);
    SameState(s1, key, outcome, mutex);
  }
}

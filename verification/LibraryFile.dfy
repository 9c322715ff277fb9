/** The library file protocol of src/library.rs: locked read-modify-write, with the new contents going
    to a temporary file that is renamed over the old one. */
module LibraryFile {
  import opened Text
  import opened LibraryText
  import N = LibraryNormaliser

  /** JSON text and the normaliser's surroundings. */
  datatype Codec = Codec(parse: string -> Option<N.Value>, render: N.Library -> string, env: N.Env)

  /** What is used of `serde_json`: printing and parsing a library gives its JSON value. */
  ghost predicate CodecOk(c: Codec) {
    LowerOk(c.env.lower) && forall l :: c.parse(c.render(l)) == Some(N.LibraryJson(l))
  }

  const EMPTY := N.Library([], [])

  /** `read_local_library_unlocked`; a missing file is an empty library, text that is no JSON an error. */
  function Load(c: Codec, file: Option<string>): Option<N.Library> {
    match file
    case None => Some(EMPTY)
    case Some(text) =>
      match c.parse(text)
      case Some(value) => Some(N.Normalize(c.env, value))
      case None => None
  }

  function Contents(c: Codec, value: N.Value): string { c.render(N.Normalize(c.env, value)) }

  // ---------------------------------------------------------------------------
  // The atomic write
  // ---------------------------------------------------------------------------

  /** Which calls of one write succeed. */
  datatype Faults = Faults(directory: bool, create: bool, write: bool, sync: bool, rename: bool, cleanUp: bool,
      written: nat)

  class LibraryDir {
    var file: Option<string>
    var temp: Option<string>

    /** `write_local_library_file_atomically` */
    method WriteAtomically(contents: string, ok: Faults) returns (done: bool)
      modifies this
      ensures done == (ok.directory && ok.create && ok.write && ok.sync && ok.rename)
      ensures file == if done then Some(contents) else old(file)
      ensures done ==> temp == None
    {
      if !ok.directory {
        return false;
      }
      if !ok.create {
        return false;
      }
      temp := Some("");
      if !ok.write {
        temp := Some(contents[..if ok.written < |contents| then ok.written else |contents|]);
        if ok.cleanUp { temp := None; }
        return false;
      }
      temp := Some(contents);
      if !ok.sync {
        if ok.cleanUp { temp := None; }
        return false;
      }
      if !ok.rename {
        if ok.cleanUp { temp := None; }
        return false;
      }
      file, temp := temp, None;
      return true;
    }
  }

  // ---------------------------------------------------------------------------
  // Operations, one at a time
  // ---------------------------------------------------------------------------

  /** A mutation may fail, and yields the new library and an answer. */
  datatype Op = ReadOp | WriteOp(payload: N.Value) | MutateOp(f: N.Library -> Option<(N.Library, string)>)

  /** What an operation answers. */
  datatype Answer = Got(library: N.Library) | Wrote(written: N.Library) | Mutated(output: string)

  /** What an operation does when nothing else runs: its answer and the file afterwards; None if it fails. */
  function Exec(c: Codec, file: Option<string>, op: Op): Option<(Answer, Option<string>)> {
    match op
    case WriteOp(payload) => Some((Wrote(N.Normalize(c.env, payload)), Some(Contents(c, payload))))
    case ReadOp =>
      (match Load(c, file)
       case Some(l) => Some((Got(l), file))
       case None => None)
    case MutateOp(f) =>
      match Load(c, file)
      case None => None
      case Some(l) =>
        match f(l)
        case None => None
        case Some((changed, output)) => Some((Mutated(output), Some(Contents(c, N.LibraryJson(changed)))))
  }

  /** A successful operation with the answer it gave. */
  datatype Commit = Commit(task: nat, op: Op, answer: Answer)

  /** The file after the operations of a log, run one after another; None when one of them would have
      failed or answered differently. */
  function Serial(c: Codec, start: Option<string>, log: seq<Commit>): Option<Option<string>> {
    if log == [] then Some(start)
    else
      var last := log[|log| - 1];
      match Serial(c, start, log[..|log| - 1])
      case None => None
      case Some(file) =>
        match Exec(c, file, last.op)
        case Some((answer, after)) => if answer == last.answer then Some(after) else None
        case None => None
  }

  /** A library that the normaliser leaves as it is, whenever it is read. */
  ghost predicate InNormalForm(c: Codec, l: N.Library) {
    && (forall m | m in l.movies :: N.NormalisedMovie(m))
    && (forall s | s in l.series :: N.GoodSeries(c.env, s) && N.OrdinalsFit(s))
  }

  lemma NormalFormStays(c: Codec, reader: N.Env, l: N.Library)
    requires LowerOk(c.env.lower) && reader.lower == c.env.lower && InNormalForm(c, l)
    ensures N.Normalize(reader, N.LibraryJson(l)) == l
  {
    hide N.NormalMovies, N.NormalSeriesList, N.NormalisedMovie, N.GoodSeries, N.OrdinalsFit, LowerOk, N.MovieJson,
         N.SeriesJson;
    N.MoviesStay(reader, l.movies);
    forall s | s in l.series ensures N.GoodSeries(reader, s) { N.SameForReader(c.env, reader, s); }
    N.SeriesListReadBack(reader, l.series);
    N.LibraryJsonIs(l);
  }

  /** What an operation is for. A read changes nothing and answers what the file holds, an absent file being an
      empty library; a mutation starts from what a read would answer, fails only if the read or the change
      fails, and leaves a file from which every later read gets the changed library, if that is in normal
      form; a write never fails and answers the library it was given, normalised. */
  lemma OperationsDo(c: Codec, file: Option<string>, f: N.Library -> Option<(N.Library, string)>, payload: N.Value,
                     later: int)
    requires CodecOk(c)
    ensures var read := Exec(c, file, ReadOp);
      && (read.None? <==> file.Some? && c.parse(file.value).None?)
      && (file.None? ==> read == Some((Got(N.Library([], [])), None)))
      && (read.Some? && file.Some? ==> read.value == (Got(N.Normalize(c.env, c.parse(file.value).value)), file))
    ensures var read, done := Exec(c, file, ReadOp), Exec(c, file, MutateOp(f));
      && (done.None? <==> read.None? || f(read.value.0.library).None?)
      && (done.Some? ==>
            var (changed, output) := f(read.value.0.library).value;
            done.value.0 == Mutated(output)
            && (InNormalForm(c, changed) ==> Load(c.(env := c.env.(now := later)), done.value.1) == Some(changed)))
    ensures var done := Exec(c, file, WriteOp(payload));
            done.Some? && done.value.0 == Wrote(N.Normalize(c.env, payload)) && done.value.1.Some?
            && c.parse(done.value.1.value) == Some(N.LibraryJson(N.Normalize(c.env, payload)))
  {
    hide N.Normalize, N.LibraryJson, InNormalForm, LowerOk;
    var read := Exec(c, file, ReadOp);
    if read.Some? && f(read.value.0.library).Some? {
      var changed := f(read.value.0.library).value.0;
      if InNormalForm(c, changed) {
        NormalFormStays(c, c.env, changed);
        NormalFormStays(c, c.env.(now := later), changed);
      }
    }
  }

  // ---------------------------------------------------------------------------
  // Tasks, step by step
  // ---------------------------------------------------------------------------

  /** Where a task stands. `text` is the whole new contents, `answer` what the caller will get. */
  datatype Phase =
    | Queued(op: Op)
    | Holding(op: Op)
    | Prepared(op: Op, answer: Answer, text: string)
    | Filling(op: Op, answer: Answer, text: string)
    | Filled(op: Op, answer: Answer, text: string)
    | Renaming(op: Op, answer: Answer, text: string)
    | Finished

  /** The file, temporary files by task, renames on their way, the lock, and two records: who got the
      lock in which order and which operations took effect in which order. */
  datatype State = State(file: Option<string>, temps: map<nat, string>, renames: set<nat>, holder: Option<nat>,
                         tasks: map<nat, Phase>, acquired: seq<nat>, log: seq<Commit>)

  datatype Step =
    | Submit(task: nat, op: Op)
    | Acquire(task: nat)
    | LoadFails(task: nat)                 // reading, parsing or the mutation fails
    | ReadDone(task: nat)
    | Prepare(task: nat)                   // the library is read, changed, normalised and printed
    | CreateTemp(task: nat, ok: bool)
    | WriteTemp(task: nat, part: nat)      // some of the text has reached the temporary file
    | FillTemp(task: nat, ok: bool)        // all of it, and it is synced
    | IssueRename(task: nat)
    | RenameLands(task: nat, ok: bool)
    | Cancel(task: nat)                    // it is dropped where it waits

  predicate At(s: State, task: nat) { task in s.tasks && s.holder == Some(task) }

  ghost predicate Enabled(c: Codec, s: State, step: Step) {
    match step
    case Submit(task, _) => task !in s.tasks && task !in s.acquired && task !in s.renames && task !in s.temps
    case Acquire(task) => s.holder.None? && task in s.tasks && s.tasks[task].Queued?
    case LoadFails(task) => At(s, task) && s.tasks[task].Holding?
    case ReadDone(task) => At(s, task) && s.tasks[task].Holding? && s.tasks[task].op.ReadOp?
        && Exec(c, s.file, ReadOp).Some?
    case Prepare(task) =>
      At(s, task) && s.tasks[task].Holding? && !s.tasks[task].op.ReadOp? && Exec(c, s.file, s.tasks[task].op).Some?
    case CreateTemp(task, _) => At(s, task) && s.tasks[task].Prepared?
    case WriteTemp(task, part) => At(s, task) && s.tasks[task].Filling? && part <= |s.tasks[task].text|
    case FillTemp(task, _) => At(s, task) && s.tasks[task].Filling?
    case IssueRename(task) => At(s, task) && s.tasks[task].Filled?
    case RenameLands(task, _) => task in s.renames
    case Cancel(task) => task in s.tasks && !s.tasks[task].Finished?
  }

  function Released(s: State, task: nat): Option<nat> { if s.holder == Some(task) then None else s.holder }

  ghost function Next(c: Codec, s: State, step: Step): State
    requires Enabled(c, s, step)
  {
    match step
    case Submit(task, op) => s.(tasks := s.tasks[task := Queued(op)])
    case Acquire(task) =>
      s.(holder := Some(task), tasks := s.tasks[task := Holding(s.tasks[task].op)], acquired := s.acquired + [task])
    case LoadFails(task) => s.(holder := None, tasks := s.tasks[task := Finished])
    case ReadDone(task) =>
      s.(holder := None, tasks := s.tasks[task := Finished],
         log := s.log + [Commit(task, ReadOp, Exec(c, s.file, ReadOp).value.0)])
    case Prepare(task) =>
      var op := s.tasks[task].op;
      var (answer, after) := Exec(c, s.file, op).value;
      s.(tasks := s.tasks[task := Prepared(op, answer, if after.Some? then after.value else "")])
    case CreateTemp(task, ok) =>
      var p := s.tasks[task];
      if ok then s.(temps := s.temps[task := ""], tasks := s.tasks[task := Filling(p.op, p.answer, p.text)])
      else s.(holder := None, tasks := s.tasks[task := Finished])
    case WriteTemp(task, part) => s.(temps := s.temps[task := s.tasks[task].text[..part]])
    case FillTemp(task, ok) =>
      var p := s.tasks[task];
      if ok then s.(temps := s.temps[task := p.text], tasks := s.tasks[task := Filled(p.op, p.answer, p.text)])
      else s.(holder := None, tasks := s.tasks[task := Finished])
    case IssueRename(task) =>
      var p := s.tasks[task];
      s.(renames := s.renames + {task}, tasks := s.tasks[task := Renaming(p.op, p.answer, p.text)])
    case RenameLands(task, ok) =>
      var moved := s.(renames := s.renames - {task});
      var moved := if ok && task in s.temps then moved.(file := Some(s.temps[task]),
          temps := s.temps - {task}) else moved;
      if task in s.tasks && s.tasks[task].Renaming? then
        var p := s.tasks[task];
        moved.(holder := Released(s, task), tasks := s.tasks[task := Finished],
               log := if ok then s.log + [Commit(task, p.op, p.answer)] else s.log)
      else moved
    case Cancel(task) => s.(holder := Released(s, task), tasks := s.tasks[task := Finished])
  }

  /** The delicate moment for a task to be dropped: its rename is with the operating system, which carries
      it out all the same, while the lock is free again. */
  predicate DroppedWhileRenaming(s: State, step: Step) {
    step.Cancel? && step.task in s.tasks && s.tasks[step.task].Renaming?
  }

  /** A rename lands whose task was dropped. */
  predicate Late(s: State, step: Step) {
    step.RenameLands? && !(step.task in s.tasks && s.tasks[step.task].Renaming?)
  }

  /** A late rename puts in place what is there already. */
  predicate Harmless(s: State, step: Step) {
    Late(s, step) && step.ok && step.task in s.temps ==> s.file == Some(s.temps[step.task])
  }

  // ---------------------------------------------------------------------------
  // What every step keeps
  // ---------------------------------------------------------------------------

  predicate PhaseOk(c: Codec, s: State, task: nat)
    requires task in s.tasks
  {
    match s.tasks[task]
    case Queued(_) => s.holder != Some(task) && task !in s.acquired
    case Finished => s.holder != Some(task)
    case Holding(_) => s.holder == Some(task)
    case Prepared(op, answer, text) => s.holder == Some(task) && Exec(c, s.file, op) == Some((answer, Some(text)))
    case Filling(op, answer, text) => s.holder == Some(task) && Exec(c, s.file, op) == Some((answer, Some(text)))
    case Filled(op, answer, text) =>
      s.holder == Some(task) && Exec(c, s.file, op) == Some((answer, Some(text)))
      && task in s.temps && s.temps[task] == text
    case Renaming(op, answer, text) =>
      s.holder == Some(task) && Exec(c, s.file, op) == Some((answer, Some(text)))
      && task in s.temps && s.temps[task] == text && task in s.renames
  }

  /** Those of `order` whose operations took effect. */
  function Effective(order: seq<nat>, log: seq<Commit>): seq<nat> {
    if order == [] then []
    else
      var last := order[|order| - 1];
      Effective(order[..|order| - 1], log) + if InLog(log, last) then [last] else []
  }

  predicate InLog(log: seq<Commit>, task: nat) { task in LogTasks(log) }

  function LogTasks(log: seq<Commit>): (r: seq<nat>)
    ensures |r| == |log| && forall i | 0 <= i < |log| :: r[i] == log[i].task
  {
    seq(|log|, i requires 0 <= i < |log| => log[i].task)
  }

  predicate OrderOk(s: State) {
    && Effective(s.acquired, s.log) == LogTasks(s.log)
    && (s.holder.Some? ==> s.acquired != [] && s.acquired[|s.acquired| - 1] == s.holder.value)
    && (s.holder.Some? ==> !InLog(s.log, s.holder.value) && s.holder.value !in s.acquired[..|s.acquired| - 1])
    && forall task | task in LogTasks(s.log) :: task in s.acquired
  }

  ghost predicate Inv(c: Codec, start: Option<string>, s: State) {
    && Serial(c, start, s.log) == Some(s.file)
    && (s.holder.Some? ==> s.holder.value in s.tasks)
    && (forall task | task in s.tasks :: PhaseOk(c, s, task))
    && (forall task | task in s.renames ::
          task in s.tasks && (s.tasks[task].Renaming? || s.tasks[task].Finished?))
    && OrderOk(s)
  }

  lemma SerialSnoc(c: Codec, start: Option<string>, log: seq<Commit>, file: Option<string>, e: Commit,
      after: Option<string>)
    requires Serial(c, start, log) == Some(file) && Exec(c, file, e.op) == Some((e.answer, after))
    ensures Serial(c, start, log + [e]) == Some(after)
  {
    hide Exec;
    assert (log + [e])[..|log|] == log;
  }

  lemma {:induction false} EffectiveOther(order: seq<nat>, log: seq<Commit>, e: Commit)
    requires e.task !in order
    ensures Effective(order, log + [e]) == Effective(order, log)
  {
    if order != [] {
      var front, last := order[..|order| - 1], order[|order| - 1];
      EffectiveOther(front, log, e);
      InLogSnoc(log, e, last);
    }
  }

  lemma InLogSnoc(log: seq<Commit>, e: Commit, task: nat)
    ensures InLog(log + [e], task) <==> InLog(log, task) || e.task == task
  {
    assert LogTasks(log + [e]) == LogTasks(log) + [e.task];
  }

  /** A commit by the holder keeps the records in order. */
  lemma CommitKeepsOrder(s: State, task: nat, e: Commit)
    requires OrderOk(s) && s.holder == Some(task) && e.task == task
    ensures Effective(s.acquired, s.log + [e]) == LogTasks(s.log + [e])
    ensures forall x | x in LogTasks(s.log + [e]) :: x in s.acquired
  {
    var front := s.acquired[..|s.acquired| - 1];
    assert s.acquired == front + [task];
    EffectiveOther(front, s.log, e);
    InLogSnoc(s.log, e, task);
    assert Effective(s.acquired, s.log) == Effective(front, s.log);
    assert LogTasks(s.log + [e]) == LogTasks(s.log) + [task];
  }

  lemma AcquireKeepsOrder(s: State, task: nat)
    requires OrderOk(s) && task !in s.acquired
    ensures Effective(s.acquired + [task], s.log) == LogTasks(s.log) && !InLog(s.log, task)
  {
    assert (s.acquired + [task])[..|s.acquired|] == s.acquired;
    assert !InLog(s.log, task);
  }

  lemma OrderStep(c: Codec, start: Option<string>, s: State, step: Step)
    requires Inv(c, start, s) && Enabled(c, s, step) && Harmless(s, step)
    ensures OrderOk(Next(c, s, step))
  {
    hide Exec, Serial, Effective, InLog, LogTasks;
    match step
    case Acquire(task) =>
      assert PhaseOk(c, s, task);
      AcquireKeepsOrder(s, task);
      assert (s.acquired + [task])[..|s.acquired|] == s.acquired;
    case ReadDone(task) => CommitKeepsOrder(s, task, Commit(task, ReadOp, Exec(c, s.file, ReadOp).value.0));
    case RenameLands(task, ok) =>
      assert PhaseOk(c, s, task);
      if !Late(s, step) {
        CommitKeepsOrder(s, task, Commit(task, s.tasks[task].op, s.tasks[task].answer));
      }
    case _ =>
  }

  lemma ReadLeavesFile(c: Codec, file: Option<string>)
    ensures Exec(c, file, ReadOp).Some? ==> Exec(c, file, ReadOp).value.1 == file
  {
  }

  lemma WritesText(c: Codec, file: Option<string>, op: Op)
    ensures Exec(c, file, op).Some? && !op.ReadOp? ==> Exec(c, file, op).value.1.Some?
  {
  }

  lemma SerialStep(c: Codec, start: Option<string>, s: State, step: Step)
    requires Inv(c, start, s) && Enabled(c, s, step) && Harmless(s, step)
    ensures Serial(c, start, Next(c, s, step).log) == Some(Next(c, s, step).file)
  {
    hide Exec, Serial, OrderOk;
    match step
    case ReadDone(task) =>
      var e := Commit(task, ReadOp, Exec(c, s.file, ReadOp).value.0);
      ReadLeavesFile(c, s.file);
      SerialSnoc(c, start, s.log, s.file, e, s.file);
    case RenameLands(task, ok) =>
      assert PhaseOk(c, s, task);
      if !Late(s, step) {
        var p := s.tasks[task];
        SerialSnoc(c, start, s.log, s.file, Commit(task, p.op, p.answer), Some(p.text));
      }
    case _ =>
  }

  lemma PhaseStep(c: Codec, start: Option<string>, s: State, step: Step, task: nat)
    requires Inv(c, start, s) && Enabled(c, s, step) && Harmless(s, step) && task in Next(c, s, step).tasks
    ensures PhaseOk(c, Next(c, s, step), task)
  {
    hide Exec, Serial, OrderOk;
    if task in s.tasks { assert PhaseOk(c, s, task); }
    match step
    case Prepare(own) => WritesText(c, s.file, s.tasks[own].op);
    case RenameLands(own, _) => assert PhaseOk(c, s, own);
    case Cancel(own) => assert PhaseOk(c, s, own);
    case _ =>
  }

  lemma RenamesStep(c: Codec, start: Option<string>, s: State, step: Step)
    requires Inv(c, start, s) && Enabled(c, s, step) && Harmless(s, step)
    ensures var after := Next(c, s, step);
      (forall task | task in after.renames :: task in after.tasks
          && (after.tasks[task].Renaming? || after.tasks[task].Finished?))
      && (after.holder.Some? ==> after.holder.value in after.tasks)
  {
    hide Exec, Serial, OrderOk;
    forall task | task in s.tasks ensures PhaseOk(c, s, task) {
    }
  }

  lemma InvStep(c: Codec, start: Option<string>, s: State, step: Step)
    requires Inv(c, start, s) && Enabled(c, s, step) && Harmless(s, step)
    ensures Inv(c, start, Next(c, s, step))
  {
    hide Next, Enabled, PhaseOk, OrderOk, Serial, Harmless;
    SerialStep(c, start, s, step);
    OrderStep(c, start, s, step);
    RenamesStep(c, start, s, step);
    forall task | task in Next(c, s, step).tasks ensures PhaseOk(c, Next(c, s, step), task) {
      PhaseStep(c, start, s, step, task);
    }
  }

  // ---------------------------------------------------------------------------
  // Every run
  // ---------------------------------------------------------------------------

  ghost predicate Initial(s: State) {
    && s.holder == None && s.tasks == map[] && s.temps == map[] && s.renames == {} && s.acquired == [] && s.log == []
  }

  ghost predicate IsRun(c: Codec, states: seq<State>, steps: seq<Step>) {
    && |states| == |steps| + 1 && Initial(states[0])
    && forall i | 0 <= i < |steps| :: Enabled(c, states[i], steps[i]) && states[i + 1] == Next(c, states[i], steps[i])
  }

  /** No task is dropped while its rename is on its way. */
  predicate RenamesAwaited(states: seq<State>, steps: seq<Step>)
    requires |states| == |steps| + 1
  {
    forall i | 0 <= i < |steps| :: !DroppedWhileRenaming(states[i], steps[i])
  }

  /** Whatever lands late is harmless. */
  predicate LateIsHarmless(states: seq<State>, steps: seq<Step>)
    requires |states| == |steps| + 1
  {
    forall i | 0 <= i < |steps| :: Harmless(states[i], steps[i])
  }

  lemma InitialInv(c: Codec, s: State)
    requires Initial(s)
    ensures Inv(c, s.file, s)
  {
    assert LogTasks([]) == [];
  }

  lemma {:induction false} InvAt(c: Codec, states: seq<State>, steps: seq<Step>, i: nat)
    requires IsRun(c, states, steps) && LateIsHarmless(states, steps) && i < |states|
    ensures Inv(c, states[0].file, states[i])
  {
    hide Inv, Next, Enabled, Initial, Harmless;
    if i == 0 {
      InitialInv(c, states[0]);
    } else {
      InvAt(c, states, steps, i - 1);
      InvStep(c, states[0].file, states[i - 1], steps[i - 1]);
    }
  }

  lemma {:induction false} AwaitedAt(c: Codec, states: seq<State>, steps: seq<Step>, i: nat, task: nat)
    requires IsRun(c, states, steps) && RenamesAwaited(states, steps) && i < |states| && task in states[i].renames
    ensures task in states[i].tasks && states[i].tasks[task].Renaming?
  {
    hide Exec;
    assert i > 0;
    var s, step := states[i - 1], steps[i - 1];
    assert Enabled(c, s, step) && states[i] == Next(c, s, step);
    if step != IssueRename(task) {
      AwaitedAt(c, states, steps, i - 1, task);
      assert !DroppedWhileRenaming(s, step);
    }
  }

  /** When renames are awaited nothing lands late. */
  lemma AwaitedIsNeverLate(c: Codec, states: seq<State>, steps: seq<Step>)
    requires IsRun(c, states, steps) && RenamesAwaited(states, steps)
    ensures LateIsHarmless(states, steps)
  {
    hide Next, Initial, RenamesAwaited, Exec;
    forall i | 0 <= i < |steps| ensures Harmless(states[i], steps[i]) {
      assert Enabled(c, states[i], steps[i]);
      if steps[i].RenameLands? { AwaitedAt(c, states, steps, i, steps[i].task); }
    }
  }

  /** In every state of every interleaving, with any calls failing and tasks dropped at any other await,
      the file is what the operations that took effect produce when they run one after another, each
      gave the answer it gives then, and they took effect in the order in which they got the lock. */
  lemma EqualsSerialRun(c: Codec, states: seq<State>, steps: seq<Step>, i: nat)
    requires IsRun(c, states, steps) && RenamesAwaited(states, steps) && i < |states|
    ensures Serial(c, states[0].file, states[i].log) == Some(states[i].file)
    ensures LogTasks(states[i].log) == Effective(states[i].acquired, states[i].log)
  {
    hide IsRun, RenamesAwaited, LateIsHarmless, Serial, Effective, PhaseOk;
    AwaitedIsNeverLate(c, states, steps);
    InvAt(c, states, steps, i);
  }

  /** The file of every state is what its log produces. */
  ghost predicate AlwaysSerial(c: Codec, states: seq<State>) {
    forall i | 0 <= i < |states| :: Serial(c, states[0].file, states[i].log) == Some(states[i].file)
  }

  /** Tasks may be dropped at any await at all: then that is exact. The file stays what the log produces if
      and only if every rename of a dropped task finds the contents it brings already there. */
  lemma EqualsSerialExactly(c: Codec, states: seq<State>, steps: seq<Step>)
    requires IsRun(c, states, steps)
    ensures AlwaysSerial(c, states) <==> LateIsHarmless(states, steps)
  {
    hide Next, Initial, Serial, Enabled, Harmless, PhaseOk, OrderOk;
    if LateIsHarmless(states, steps) {
      forall i | 0 <= i < |states| ensures Serial(c, states[0].file, states[i].log) == Some(states[i].file) {
        InvAt(c, states, steps, i);
      }
    }
    if AlwaysSerial(c, states) {
      forall i | 0 <= i < |steps| ensures Harmless(states[i], steps[i]) {
        assert Serial(c, states[0].file, states[i].log) == Some(states[i].file);
        assert Serial(c, states[0].file, states[i + 1].log) == Some(states[i + 1].file);
        LogMovesWithFile(c, states[i], steps[i]);
      }
    }
  }

  /** The log moves with the file, but for late renames. */
  lemma LogMovesWithFile(c: Codec, s: State, step: Step)
    requires Enabled(c, s, step)
    ensures var after := Next(c, s, step);
      after.log == s.log ==> (after.file == s.file <==> Harmless(s, step))
    ensures !Harmless(s, step) ==> Next(c, s, step).log == s.log
  {
    hide Exec;
  }

  /** An operation that fails or is dropped before its rename is issued changes nothing: a step that lets no
      operation take effect leaves the file alone, unless it is a late rename that brings something else. */
  lemma FailureChangesNothing(c: Codec, states: seq<State>, steps: seq<Step>, i: nat)
    requires IsRun(c, states, steps) && i < |steps| && states[i + 1].log == states[i].log
    ensures states[i + 1].file == states[i].file <==> Harmless(states[i], steps[i])
  {
    hide Next, Enabled, Initial, Harmless;
    LogMovesWithFile(c, states[i], steps[i]);
  }

  // ---------------------------------------------------------------------------
  // Every run, whatever is dropped
  // ---------------------------------------------------------------------------

  /** Before state `i` the task made `text` of the file as it was then: the whole new contents. */
  ghost predicate Made(c: Codec, states: seq<State>, steps: seq<Step>, i: nat, task: nat, text: string)
    requires |states| == |steps| + 1 && i < |states|
  {
    exists k | 0 <= k < i :: MadeAt(c, states[k], steps[k], task, text)
  }

  predicate MadeAt(c: Codec, s: State, step: Step, task: nat, text: string) {
    && step == Prepare(task) && task in s.tasks && s.tasks[task].Holding?
    && Exec(c, s.file, s.tasks[task].op).Some? && Exec(c, s.file, s.tasks[task].op).value.1 == Some(text)
  }

  predicate HasText(phase: Phase) { phase.Prepared? || phase.Filling? || phase.Filled? || phase.Renaming? }

  predicate LockOk(s: State) {
    && (s.holder.Some? ==> s.holder.value in s.tasks)
    && forall t | t in s.tasks :: s.holder == Some(t) <==> !s.tasks[t].Queued? && !s.tasks[t].Finished?
  }

  predicate FilledOk(s: State) {
    forall t | t in s.tasks && (s.tasks[t].Filled? || s.tasks[t].Renaming?) ::
      t in s.temps && s.temps[t] == s.tasks[t].text
  }

  /** Who holds the lock is the one task under way, and what a rename brings was made by its task. */
  ghost predicate Sound(c: Codec, states: seq<State>, steps: seq<Step>, i: nat)
    requires |states| == |steps| + 1 && i < |states|
  {
    var s := states[i];
    && LockOk(s) && FilledOk(s)
    && (forall t | t in s.tasks && HasText(s.tasks[t]) :: Made(c, states, steps, i, t, s.tasks[t].text))
    && (forall t | t in s.renames ::
          && t in s.tasks && (s.tasks[t].Renaming? || s.tasks[t].Finished?)
          && t in s.temps && Made(c, states, steps, i, t, s.temps[t]))
  }

  lemma MadeStays(c: Codec, states: seq<State>, steps: seq<Step>, i: nat, task: nat, text: string)
    requires |states| == |steps| + 1 && i < |steps| && Made(c, states, steps, i, task, text)
    ensures Made(c, states, steps, i + 1, task, text)
  {
    hide MadeAt;
  }

  lemma LockStep(c: Codec, s: State, step: Step)
    requires LockOk(s) && Enabled(c, s, step)
    ensures LockOk(Next(c, s, step))
  {
    hide Exec;
  }

  lemma FilledStep(c: Codec, s: State, step: Step)
    requires LockOk(s) && FilledOk(s) && Enabled(c, s, step)
    requires forall t | t in s.renames :: t in s.tasks && (s.tasks[t].Renaming? || s.tasks[t].Finished?)
    ensures FilledOk(Next(c, s, step))
  {
    hide Exec;
  }

  lemma TextStep(c: Codec, states: seq<State>, steps: seq<Step>, i: nat, t: nat)
    requires IsRun(c, states, steps) && i < |steps| && Sound(c, states, steps, i)
    requires t in states[i + 1].tasks && HasText(states[i + 1].tasks[t])
    ensures Made(c, states, steps, i + 1, t, states[i + 1].tasks[t].text)
  {
    hide Exec, Made, MadeAt;
    assert Enabled(c, states[i], steps[i]) && states[i + 1] == Next(c, states[i], steps[i]);
    if steps[i] == Prepare(t) {
      WritesText(c, states[i].file, states[i].tasks[t].op);
      PrepareMakes(c, states, steps, i, t);
    } else {
      MadeStays(c, states, steps, i, t, states[i + 1].tasks[t].text);
    }
  }

  lemma PrepareMakes(c: Codec, states: seq<State>, steps: seq<Step>, i: nat, t: nat)
    requires IsRun(c, states, steps) && i < |steps| && steps[i] == Prepare(t)
    ensures t in states[i + 1].tasks && states[i + 1].tasks[t].Prepared?
    ensures Made(c, states, steps, i + 1, t, states[i + 1].tasks[t].text)
  {
    hide Exec;
    assert Enabled(c, states[i], steps[i]) && states[i + 1] == Next(c, states[i], steps[i]);
    WritesText(c, states[i].file, states[i].tasks[t].op);
    assert MadeAt(c, states[i], steps[i], t, states[i + 1].tasks[t].text);
  }

  lemma RenameStep(c: Codec, states: seq<State>, steps: seq<Step>, i: nat, t: nat)
    requires IsRun(c, states, steps) && i < |steps| && Sound(c, states, steps, i) && t in states[i + 1].renames
    ensures var s := states[i + 1];
      && t in s.tasks && (s.tasks[t].Renaming? || s.tasks[t].Finished?)
      && t in s.temps && Made(c, states, steps, i + 1, t, s.temps[t])
  {
    hide Exec, Made;
    assert Enabled(c, states[i], steps[i]) && states[i + 1] == Next(c, states[i], steps[i]);
    MadeStays(c, states, steps, i, t, states[i].temps[t]);
  }

  lemma {:induction false} SoundAt(c: Codec, states: seq<State>, steps: seq<Step>, i: nat)
    requires IsRun(c, states, steps) && i < |states|
    ensures Sound(c, states, steps, i)
  {
    if i > 0 {
      hide Next, Enabled, Initial, Made, HasText, LockOk, FilledOk;
      SoundAt(c, states, steps, i - 1);
      LockStep(c, states[i - 1], steps[i - 1]);
      FilledStep(c, states[i - 1], steps[i - 1]);
      forall t | t in states[i].tasks && HasText(states[i].tasks[t])
        ensures Made(c, states, steps, i, t, states[i].tasks[t].text)
      {
        TextStep(c, states, steps, i - 1, t);
      }
      forall t | t in states[i].renames
        ensures t in states[i].tasks && (states[i].tasks[t].Renaming? || states[i].tasks[t].Finished?)
        ensures t in states[i].temps && Made(c, states, steps, i, t, states[i].temps[t])
      {
        RenameStep(c, states, steps, i - 1, t);
      }
    }
  }

  /** The file is never torn, in any run: a step leaves it as it is, or it is a rename and replaces it by the
      complete contents that its task made of the file as it was at an earlier step. */
  lemma WhollyOldOrNew(c: Codec, states: seq<State>, steps: seq<Step>, i: nat)
    requires IsRun(c, states, steps) && i < |steps|
    ensures states[i + 1].file == states[i].file
         || (steps[i].RenameLands? && steps[i].ok && states[i + 1].file.Some?
             && Made(c, states, steps, i, steps[i].task, states[i + 1].file.value))
  {
    hide Exec, Made, HasText;
    SoundAt(c, states, steps, i);
    assert Enabled(c, states[i], steps[i]) && states[i + 1] == Next(c, states[i], steps[i]);
  }

  /** In every state the file is the one the process found or the complete contents some task made. */
  lemma {:induction false} NeverTorn(c: Codec, states: seq<State>, steps: seq<Step>, i: nat)
    requires IsRun(c, states, steps) && i < |states|
    ensures states[i].file == states[0].file
         || (states[i].file.Some? && exists task :: Made(c, states, steps, i, task, states[i].file.value))
  {
    hide Next, Enabled, Initial, Made;
    if i > 0 {
      NeverTorn(c, states, steps, i - 1);
      WhollyOldOrNew(c, states, steps, i - 1);
      if states[i].file != states[i - 1].file {
        MadeStays(c, states, steps, i - 1, steps[i - 1].task, states[i].file.value);
      } else if states[i].file != states[0].file {
        var task :| Made(c, states, steps, i - 1, task, states[i].file.value);
        MadeStays(c, states, steps, i - 1, task, states[i].file.value);
      }
    }
  }

  /** When no rename is dropped, what replaces the file is what the operation makes of the file it replaces,
      and that operation is the one that takes effect. */
  lemma ReplacesWhatItRead(c: Codec, states: seq<State>, steps: seq<Step>, i: nat)
    requires IsRun(c, states, steps) && RenamesAwaited(states, steps) && i < |steps|
    ensures states[i + 1].file == states[i].file
         || (steps[i].RenameLands? && steps[i].ok && |states[i + 1].log| == |states[i].log| + 1
             && (var e := states[i + 1].log[|states[i].log|];
                 e.task == steps[i].task && Exec(c, states[i].file, e.op) == Some((e.answer, states[i + 1].file))))
  {
    hide Exec, Serial, OrderOk, RenamesAwaited, LateIsHarmless;
    AwaitedIsNeverLate(c, states, steps);
    InvAt(c, states, steps, i);
    LateIsHarmlessAt(states, steps, i);
    FileStep(c, states[0].file, states[i], steps[i]);
  }

  lemma LateIsHarmlessAt(states: seq<State>, steps: seq<Step>, i: nat)
    requires |states| == |steps| + 1 && LateIsHarmless(states, steps) && i < |steps|
    ensures Harmless(states[i], steps[i])
  {
  }

  lemma FileStep(c: Codec, start: Option<string>, s: State, step: Step)
    requires Inv(c, start, s) && Enabled(c, s, step) && Harmless(s, step)
    ensures var after := Next(c, s, step);
      after.file == s.file
      || (step.RenameLands? && step.ok && |after.log| == |s.log| + 1
          && (var e := after.log[|s.log|];
              e.task == step.task && Exec(c, s.file, e.op) == Some((e.answer, after.file))))
  {
    hide Exec, Serial, OrderOk;
    if step.RenameLands? { assert PhaseOk(c, s, step.task); }
  }

  /** At most one task is between taking the lock and giving it back, in any run. */
  lemma MutualExclusion(c: Codec, states: seq<State>, steps: seq<Step>, i: nat, a: nat, b: nat)
    requires IsRun(c, states, steps) && i < |states|
    requires a in states[i].tasks && !states[i].tasks[a].Queued? && !states[i].tasks[a].Finished?
    requires b in states[i].tasks && !states[i].tasks[b].Queued? && !states[i].tasks[b].Finished?
    ensures a == b
  {
    hide Next, Enabled, Initial, Exec, Made, HasText;
    SoundAt(c, states, steps, i);
  }

  // ---------------------------------------------------------------------------
  // A rename that is not awaited
  // ---------------------------------------------------------------------------

  /** The first task is dropped while its rename is on its way, the second writes in between, and then
      the first rename lands. */
  function Overtaken(first: Op, second: Op): seq<Step> {
    [Submit(1, first), Acquire(1), Prepare(1), CreateTemp(1, true), FillTemp(1, true), IssueRename(1), Cancel(1),
     Submit(2, second), Acquire(2), Prepare(2), CreateTemp(2, true), FillTemp(2, true), IssueRename(2),
         RenameLands(2, true),
     RenameLands(1, true)]
  }

  /** The states it passes through, for two writes to a directory without a library file. */
  function OvertakenStates(first: Op, a: Answer, x: string, second: Op, b: Answer, y: string): seq<State> {
    var s0 := State(None, map[], {}, None, map[], [], []);
    var s1 := s0.(tasks := map[1 := Queued(first)]);
    var s2 := s1.(holder := Some(1), tasks := map[1 := Holding(first)], acquired := [1]);
    var s3 := s2.(tasks := map[1 := Prepared(first, a, x)]);
    var s4 := s3.(temps := map[1 := ""], tasks := map[1 := Filling(first, a, x)]);
    var s5 := s4.(temps := map[1 := x], tasks := map[1 := Filled(first, a, x)]);
    var s6 := s5.(renames := {1}, tasks := map[1 := Renaming(first, a, x)]);
    var s7 := s6.(holder := None, tasks := map[1 := Finished]);
    var s8 := s7.(tasks := map[1 := Finished, 2 := Queued(second)]);
    var s9 := s8.(holder := Some(2), tasks := map[1 := Finished, 2 := Holding(second)], acquired := [1, 2]);
    var s10 := s9.(tasks := map[1 := Finished, 2 := Prepared(second, b, y)]);
    var s11 := s10.(temps := map[1 := x, 2 := ""], tasks := map[1 := Finished, 2 := Filling(second, b, y)]);
    var s12 := s11.(temps := map[1 := x, 2 := y], tasks := map[1 := Finished, 2 := Filled(second, b, y)]);
    var s13 := s12.(renames := {1, 2}, tasks := map[1 := Finished, 2 := Renaming(second, b, y)]);
    var s14 := s13.(file := Some(y), temps := map[1 := x], renames := {1}, holder := None,
                    tasks := map[1 := Finished, 2 := Finished], log := [Commit(2, second, b)]);
    var s15 := s14.(file := Some(x), temps := map[], renames := {});
    [s0, s1, s2, s3, s4, s5, s6, s7, s8, s9, s10, s11, s12, s13, s14, s15]
  }

  ghost predicate Goes(c: Codec, s: State, step: Step, after: State) { Enabled(c, s, step) && after == Next(c, s,
      step) }

  lemma OvertakenStart(c: Codec, first: Op, a: Answer, x: string, second: Op, b: Answer, y: string, i: nat)
    requires i < 4 && !first.ReadOp? && Exec(c, None, first) == Some((a, Some(x)))
    ensures Goes(c, OvertakenStates(first, a, x, second, b, y)[i], Overtaken(first, second)[i],
                 OvertakenStates(first, a, x, second, b, y)[i + 1])
  {
    hide Exec;
  }

  lemma OvertakenFirst(c: Codec, first: Op, a: Answer, x: string, second: Op, b: Answer, y: string, i: nat)
    requires 4 <= i < 7
    ensures Goes(c, OvertakenStates(first, a, x, second, b, y)[i], Overtaken(first, second)[i],
                 OvertakenStates(first, a, x, second, b, y)[i + 1])
  {
    hide Exec;
  }

  lemma OvertakenSecond(c: Codec, first: Op, a: Answer, x: string, second: Op, b: Answer, y: string, i: nat)
    requires 7 <= i < 11 && !second.ReadOp? && Exec(c, None, second) == Some((b, Some(y)))
    ensures Goes(c, OvertakenStates(first, a, x, second, b, y)[i], Overtaken(first, second)[i],
                 OvertakenStates(first, a, x, second, b, y)[i + 1])
  {
    hide Exec;
  }

  lemma OvertakenThird(c: Codec, first: Op, a: Answer, x: string, second: Op, b: Answer, y: string, i: nat)
    requires 11 <= i < 13
    ensures Goes(c, OvertakenStates(first, a, x, second, b, y)[i], Overtaken(first, second)[i],
                 OvertakenStates(first, a, x, second, b, y)[i + 1])
  {
    hide Exec;
  }

  lemma OvertakenEnd(c: Codec, first: Op, a: Answer, x: string, second: Op, b: Answer, y: string, i: nat)
    requires 13 <= i < 15
    ensures Goes(c, OvertakenStates(first, a, x, second, b, y)[i], Overtaken(first, second)[i],
                 OvertakenStates(first, a, x, second, b, y)[i + 1])
  {
    hide Exec;
  }

  lemma RunFromGoes(c: Codec, states: seq<State>, steps: seq<Step>)
    requires |states| == |steps| + 1 && Initial(states[0])
    requires forall i | 0 <= i < |steps| :: Goes(c, states[i], steps[i], states[i + 1])
    ensures IsRun(c, states, steps)
  {
    hide Initial, Enabled, Next;
    forall i | 0 <= i < |steps|
      ensures Enabled(c, states[i], steps[i]) && states[i + 1] == Next(c, states[i], steps[i]) {
      assert Goes(c, states[i], steps[i], states[i + 1]);
    }
  }

  lemma OvertakenShape(first: Op, a: Answer, x: string, second: Op, b: Answer, y: string)
    ensures |OvertakenStates(first, a, x, second, b, y)| == 16 && |Overtaken(first, second)| == 15
    ensures Initial(OvertakenStates(first, a, x, second, b, y)[0])
  {
  }

  lemma OvertakenRun(c: Codec, first: Op, a: Answer, x: string, second: Op, b: Answer, y: string)
    requires !first.ReadOp? && Exec(c, None, first) == Some((a, Some(x)))
    requires !second.ReadOp? && Exec(c, None, second) == Some((b, Some(y)))
    ensures IsRun(c, OvertakenStates(first, a, x, second, b, y), Overtaken(first, second))
  {
    hide OvertakenStates, Overtaken, Goes, Exec, Initial, IsRun;
    var states, steps := OvertakenStates(first, a, x, second, b, y), Overtaken(first, second);
    OvertakenShape(first, a, x, second, b, y);
    forall i | 0 <= i < |steps| ensures Goes(c, states[i], steps[i], states[i + 1]) {
      if i < 4 { OvertakenStart(c, first, a, x, second, b, y, i); }
      else if i < 7 { OvertakenFirst(c, first, a, x, second, b, y, i); }
      else if i < 11 { OvertakenSecond(c, first, a, x, second, b, y, i); }
      else if i < 13 { OvertakenThird(c, first, a, x, second, b, y, i); }
      else { OvertakenEnd(c, first, a, x, second, b, y, i); }
    }
    RunFromGoes(c, states, steps);
  }

  lemma OvertakenResult(first: Op, a: Answer, x: string, second: Op, b: Answer, y: string)
    ensures var states := OvertakenStates(first, a, x, second, b, y);
      |states| == 16 && states[0].file == None && states[15].log == [Commit(2, second, b)] && states[15].file == Some(x)
  {
  }

  lemma SerialOne(c: Codec, start: Option<string>, e: Commit)
    requires Exec(c, start, e.op).Some? && Exec(c, start, e.op).value.0 == e.answer
    ensures Serial(c, start, [e]) == Some(Exec(c, start, e.op).value.1)
  {
    hide Exec;
    assert [e][..0] == [];
  }

  /** That is why renames have to be awaited: the second write succeeds and answers, it is the only one
      that took effect under the lock, and yet the file ends up with the first one's contents. */
  lemma DroppedRenameLosesUpdate(c: Codec, first: N.Value, second: N.Value) returns (states: seq<State>)
    requires Contents(c, first) != Contents(c, second)
    ensures IsRun(c, states, Overtaken(WriteOp(first), WriteOp(second))) && |states| == 16
    ensures states[15].log == [Commit(2, WriteOp(second), Wrote(N.Normalize(c.env, second)))]
    ensures states[15].file == Some(Contents(c, first))
    ensures Serial(c, states[0].file, states[15].log) != Some(states[15].file)
  {
    var a, x := Wrote(N.Normalize(c.env, first)), Contents(c, first);
    var b, y := Wrote(N.Normalize(c.env, second)), Contents(c, second);
    states := OvertakenStates(WriteOp(first), a, x, WriteOp(second), b, y);
    hide OvertakenStates, Overtaken, IsRun, Serial, Contents;
    OvertakenRun(c, WriteOp(first), a, x, WriteOp(second), b, y);
    OvertakenResult(WriteOp(first), a, x, WriteOp(second), b, y);
    SerialOne(c, None, Commit(2, WriteOp(second), b));
  }

  // ---------------------------------------------------------------------------
  // Read after write
  // ---------------------------------------------------------------------------

  /** What a write answers is what a read of the written file gives, at any later time, exactly unless
      normalising left an episode number above 999. */
  lemma ReadReturnsWritten(c: Codec, payload: N.Value, later: int)
    requires CodecOk(c)
    ensures Load(c.(env := c.env.(now := later)), Some(Contents(c, payload))) == Some(N.Normalize(c.env, payload))
       <==> N.AllOrdinalsFit(N.Normalize(c.env, payload))
  {
    hide N.Normalize, N.LibraryJson, LowerOk;
    N.ReadsBackExactly(c.env, payload, later);
  }

  // ---------------------------------------------------------------------------
  // An operation that nothing disturbs
  // ---------------------------------------------------------------------------

  ghost function Play(c: Codec, s: State, steps: seq<Step>): Option<State>
    decreases |steps|
  {
    if steps == [] then Some(s)
    else if !Enabled(c, s, steps[0]) then None
    else Play(c, Next(c, s, steps[0]), steps[1..])
  }

  lemma PlayCons(c: Codec, s: State, step: Step, steps: seq<Step>)
    requires Enabled(c, s, step)
    ensures Play(c, s, [step] + steps) == Play(c, Next(c, s, step), steps)
  {
    hide Next, Enabled;
    assert ([step] + steps)[1..] == steps;
  }

  lemma PlayOne(c: Codec, s: State, step: Step)
    requires Enabled(c, s, step)
    ensures Play(c, s, [step]) == Some(Next(c, s, step))
  {
    hide Next, Enabled;
    assert [step][1..] == [];
  }

  /** The steps of an operation that succeeds. */
  function StepsOf(task: nat, op: Op): seq<Step> {
    [Submit(task, op)] + ([Acquire(task)] + if op.ReadOp? then [ReadDone(task)]
        else [Prepare(task)] + StepsOfWrite(task))
  }

  function StepsOfWrite(task: nat): seq<Step> {
    [CreateTemp(task, true)] + ([FillTemp(task, true)] + ([IssueRename(task)] + [RenameLands(task, true)]))
  }

  lemma WritePlays(c: Codec, s: State, task: nat, op: Op, answer: Answer, text: string)
    requires s.holder == Some(task) && task in s.tasks && s.tasks[task] == Prepared(op, answer, text)
    requires task !in s.temps && task !in s.renames
    ensures Play(c, s, StepsOfWrite(task))
         == Some(s.(file := Some(text), holder := None, tasks := s.tasks[task := Finished],
                    log := s.log + [Commit(task, op, answer)]))
  {
    hide Play, Exec;
    var s1 := s.(temps := s.temps[task := ""], tasks := s.tasks[task := Filling(op, answer, text)]);
    var s2 := s.(temps := s.temps[task := text], tasks := s.tasks[task := Filled(op, answer, text)]);
    var s3 := s2.(renames := s.renames + {task}, tasks := s.tasks[task := Renaming(op, answer, text)]);
    PlayCons(c, s, CreateTemp(task, true), [FillTemp(task, true)] + ([IssueRename(task)] + [RenameLands(task, true)]));
    assert Next(c, s, CreateTemp(task, true)) == s1;
    PlayCons(c, s1, FillTemp(task, true), [IssueRename(task)] + [RenameLands(task, true)]);
    assert Next(c, s1, FillTemp(task, true)) == s2;
    PlayCons(c, s2, IssueRename(task), [RenameLands(task, true)]);
    assert Next(c, s2, IssueRename(task)) == s3;
    RenameUndone(s, task, text);
    PlayOne(c, s3, RenameLands(task, true));
    assert Next(c, s3, RenameLands(task, true))
        == s.(file := Some(text), holder := None, tasks := s.tasks[task := Finished],
              log := s.log + [Commit(task, op, answer)]);
  }

  lemma RenameUndone(s: State, task: nat, text: string)
    requires task !in s.temps && task !in s.renames
    ensures s.temps[task := text] - {task} == s.temps && s.renames + {task} - {task} == s.renames
  {
  }

  /** Step by step the protocol does what the operation does: whenever the lock is free, a new task can run its
      operation to the end, and the file, the answer and what else is on disk are as if nothing else ran. */
  lemma UndisturbedOperation(c: Codec, s: State, task: nat, op: Op)
    requires s.holder.None? && task !in s.tasks && task !in s.acquired && task !in s.renames && task !in s.temps
    requires Exec(c, s.file, op).Some?
    ensures var (answer, after) := Exec(c, s.file, op).value;
            Play(c, s, StepsOf(task, op))
            == Some(s.(file := after, tasks := s.tasks[task := Finished], acquired := s.acquired + [task],
                       log := s.log + [Commit(task, op, answer)]))
  {
    hide Play, Exec, StepsOfWrite;
    ExecFile(c, s.file, op);
    var s1 := s.(tasks := s.tasks[task := Queued(op)]);
    var s2 := s.(holder := Some(task), tasks := s.tasks[task := Holding(op)], acquired := s.acquired + [task]);
    var rest := if op.ReadOp? then [ReadDone(task)] else [Prepare(task)] + StepsOfWrite(task);
    PlayCons(c, s, Submit(task, op), [Acquire(task)] + rest);
    assert Next(c, s, Submit(task, op)) == s1;
    PlayCons(c, s1, Acquire(task), rest);
    assert Next(c, s1, Acquire(task)) == s2;
    HoldingPlays(c, s2, task, op);
    Overwritten(s, task, op);
  }

  lemma Overwritten(s: State, task: nat, op: Op)
    ensures s.tasks[task := Holding(op)][task := Finished] == s.tasks[task := Finished]
  {
  }

  lemma ExecFile(c: Codec, file: Option<string>, op: Op)
    requires Exec(c, file, op).Some?
    ensures if op.ReadOp? then Exec(c, file, op).value.1 == file else Exec(c, file, op).value.1.Some?
  {
  }

  lemma HoldingPlays(c: Codec, s: State, task: nat, op: Op)
    requires s.holder == Some(task) && task in s.tasks && s.tasks[task] == Holding(op)
    requires task !in s.temps && task !in s.renames && Exec(c, s.file, op).Some?
    ensures var (answer, after) := Exec(c, s.file, op).value;
            Play(c, s, if op.ReadOp? then [ReadDone(task)] else [Prepare(task)] + StepsOfWrite(task))
            == Some(s.(file := after, holder := None, tasks := s.tasks[task := Finished],
                       log := s.log + [Commit(task, op, answer)]))
  {
    hide Play, Exec, StepsOfWrite;
    ExecFile(c, s.file, op);
    var (answer, after) := Exec(c, s.file, op).value;
    if op.ReadOp? {
      PlayOne(c, s, ReadDone(task));
    } else {
      var s1 := s.(tasks := s.tasks[task := Prepared(op, answer, after.value)]);
      PlayCons(c, s, Prepare(task), StepsOfWrite(task));
      assert Next(c, s, Prepare(task)) == s1;
      WritePlays(c, s1, task, op, answer, after.value);
      assert s1.tasks[task := Finished] == s.tasks[task := Finished];
    }
  }
}

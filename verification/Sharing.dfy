// Several processes on one database: internal/app/wire.go:52-54 marks every running record failed, the live ones of
// other processes included, and internal/sync/engine.go:316 writes its verdict over that.

module Sharing {
  import opened Locks
  import opened Runs
  import opened Lifecycle

  // A step of this process, or what another one does to the lock row and the records.
  datatype SharedStep =
    | Own(step: Step)
    | OthersLock(row: LockRow)
    | OthersBegin(run: Id)
    | OthersFinal(run: Id, status: Status)
    | OthersStart

  predicate Possible(s: State, step: SharedStep) {
    match step
    case Own(own) => Enabled(s, own)
    case OthersLock(_) => true
    case OthersBegin(run) => run !in s.records
    case OthersFinal(run, status) => run in s.records && status != Running
    case OthersStart => true
  }

  function Next(s: State, step: SharedStep): State
    requires Possible(s, step)
  {
    match step
    case Own(own) => Do(s, own)
    case OthersLock(row) => s.(row := row)
    case OthersBegin(run) => s.(records := s.records[run := Running])
    case OthersFinal(run, status) => s.(records := s.records[run := status])
    case OthersStart => s.(records := CleanedUp(s.records))
  }

  predicate AllPossible(s: State, steps: seq<SharedStep>)
    decreases |steps|
  {
    steps == [] || (Possible(s, steps[0]) && AllPossible(Next(s, steps[0]), steps[1..]))
  }

  function Finally(s: State, steps: seq<SharedStep>): State
    requires AllPossible(s, steps)
    decreases |steps|
  {
    if steps == [] then s else Finally(Next(s, steps[0]), steps[1..])
  }

  // What a step of this process does to the records.
  function RecordsOf(s: State, step: Step): map<Id, Status>
    requires Enabled(s, step)
  {
    match step
    case Begin(_, run) => s.records[run := Running]
    case BeginLost(_, run) => s.records[run := Running]
    case Final(t, status, saved) =>
      var run := s.tasks[t].run;
      if saved && run in s.records then s.records[run := status] else s.records
    case Start => CleanedUp(s.records)
    case _ => s.records
  }

  lemma RecordsAfter(s: State, step: Step)
    requires Enabled(s, step)
    ensures Do(s, step).records == RecordsOf(s, step)
  {
  }

  lemma {:induction false} TerminalStep(s: State, step: SharedStep, r: Id)
    requires Possible(s, step) && r in s.records && s.records[r] != Running
    ensures r in Next(s, step).records && Next(s, step).records[r] != Running
  {
    if step.Own? {
      RecordsAfter(s, step.step);
    }
    hide Do, Takeable, ContextLive;
  }

  // Whatever the processes do, a terminal record never runs again.
  lemma {:induction false} NeverRunningAgain(s: State, steps: seq<SharedStep>, r: Id)
    requires AllPossible(s, steps) && r in s.records && s.records[r] != Running
    ensures r in Finally(s, steps).records && Finally(s, steps).records[r] != Running
    decreases |steps|
  {
    hide Possible, Next;
    if steps != [] {
      TerminalStep(s, steps[0], r);
      NeverRunningAgain(Next(s, steps[0]), steps[1..], r);
    }
  }

  // Its verdict changes only by a final update of that run.
  lemma {:induction false} VerdictChanges(s: State, step: SharedStep, r: Id)
    requires Possible(s, step) && r in s.records && s.records[r] != Running
    requires Next(s, step).records[r] != s.records[r]
    ensures (step.OthersFinal? && step.run == r)
            || (step.Own? && step.step.Final? && step.step.t in s.tasks && s.tasks[step.step.t].run == r)
  {
    if step.Own? {
      RecordsAfter(s, step.step);
    }
    hide Do, Takeable, ContextLive;
  }

  lemma First(s: State, step: SharedStep, rest: seq<SharedStep>)
    requires Possible(s, step) && AllPossible(Next(s, step), rest)
    ensures AllPossible(s, [step] + rest) && Finally(s, [step] + rest) == Finally(Next(s, step), rest)
  {
    hide Possible, Next;
    assert ([step] + rest)[1..] == rest;
  }

  // A live run: its record is running and its task has still to close it.
  predicate LiveRun(s: State, t: Id, r: Id) {
    t in s.tasks && s.tasks[t].kind == Blocking && s.tasks[t].phase == Recorded && s.tasks[t].run == r
    && r in s.records && s.records[r] == Running
  }

  // The start of another process marks a live run failed; its own success then overwrites that.
  lemma FailedBecomesSuccess(s: State, t: Id, r: Id)
    requires LiveRun(s, t, r)
    ensures Next(s, OthersStart).records[r] == Failure
    ensures var steps := [OthersStart] + ([Own(Final(t, Success, true))] + []);
            AllPossible(s, steps) && r in Finally(s, steps).records && Finally(s, steps).records[r] == Success
  {
    var s1 := Next(s, OthersStart);
    First(s1, Own(Final(t, Success, true)), []);
    First(s, OthersStart, [Own(Final(t, Success, true))] + []);
  }

  // Such a state is reached by the first run of a process.
  lemma LiveRunReached()
    ensures var steps := [Start] + ([Enter("t", Blocking)] + ([AcquireOk("t")] + ([Begin("t", "r")] + [])));
            Legal(FIRST, steps) && LiveRun(After(FIRST, steps), "t", "r")
  {
    var s1 := Do(FIRST, Start);
    var s2 := Do(s1, Enter("t", Blocking));
    var s3 := Do(s2, AcquireOk("t"));
    Prepend(s3, Begin("t", "r"), []);
    Prepend(s2, AcquireOk("t"), [Begin("t", "r")] + []);
    Prepend(s1, Enter("t", Blocking), [AcquireOk("t")] + ([Begin("t", "r")] + []));
    Prepend(FIRST, Start, [Enter("t", Blocking)] + ([AcquireOk("t")] + ([Begin("t", "r")] + [])));
  }
}

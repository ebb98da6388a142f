// internal/sync/engine.go:113-391 and internal/app/wire.go:48-68: the life of a run in one process, over
// every interleaving of triggers, uploads, scheduled runs, shutdown, crashes and restarts.

module Lifecycle {
  import opened Locks
  import opened Runs

  type Id = string

  datatype Kind = Blocking | Async  // Run and UploadFull block their caller; TriggerAsync does not

  // Entered: called, the lock not yet asked for. Held: lock acquired. Recorded: sync_runs row created.
  // Spawned: handed to the background goroutine. Closing: only the release is left. Freed: released.
  datatype Phase = Entered | Held | Recorded | Spawned | Closing | Freed

  datatype Task = Task(kind: Kind, phase: Phase, run: Id, since: int, counted: bool, acquires: nat, releases: nat)

  datatype State = State(
    up: bool, clock: int, row: LockRow,
    tasks: map<Id, Task>, finished: map<Id, Task>, used: set<Id>,
    records: map<Id, Status>, lost: set<Id>,
    wg: int, cancelled: bool)

  datatype Step =
    | Tick(to: int)
    | Enter(t: Id, kind: Kind)
    | AcquireOk(t: Id)
    | AcquireNo(t: Id, tookEffect: bool)   // busy, or an error
    | Begin(t: Id, run: Id)
    | BeginLost(t: Id, run: Id)            // Create took effect and reported an error
    | Abort(t: Id)                         // resolveType or Create failed without effect
    | Spawn(t: Id)
    | Final(t: Id, status: Status, saved: bool)
    | Release(t: Id, tookEffect: bool)
    | Leave(t: Id)
    | Cancel
    | ShutdownReturns
    | Crash
    | Start

  // The statements of an async call run under asyncCtx until its goroutine has started; they fail once it is cancelled.
  predicate ContextLive(s: State, task: Task) {
    task.kind == Async ==> !s.cancelled
  }

  predicate AtWork(task: Task) {
    task.phase in {Held, Recorded, Spawned, Closing}
  }

  // The record of the task is still running.
  predicate Open(task: Task) {
    task.phase in {Recorded, Spawned}
  }

  predicate Enabled(s: State, step: Step) {
    match step
    case Tick(to) => s.clock <= to
    case Enter(t, kind) => s.up && t != "" && t !in s.used && (kind == Async ==> !s.cancelled)
    case AcquireOk(t) => t in s.tasks && s.tasks[t].phase == Entered && Takeable(s.row, s.clock)
        && ContextLive(s, s.tasks[t])
    case AcquireNo(t, tookEffect) => t in s.tasks && s.tasks[t].phase == Entered
        && (tookEffect ==> Takeable(s.row, s.clock))
    case Begin(t, run) => t in s.tasks && s.tasks[t].phase == Held && run !in s.records && ContextLive(s, s.tasks[t])
    case BeginLost(t, run) => t in s.tasks && s.tasks[t].phase == Held && run !in s.records
    case Abort(t) => t in s.tasks && s.tasks[t].phase == Held
    case Spawn(t) => t in s.tasks && s.tasks[t].phase == Recorded && s.tasks[t].kind == Async
    case Final(t, status, _) =>
      t in s.tasks && status != Running && s.tasks[t].phase == (if s.tasks[t].kind == Async then Spawned else Recorded)
    case Release(t, _) => t in s.tasks && s.tasks[t].phase == Closing
    case Leave(t) => t in s.tasks && s.tasks[t].phase == Freed
    case Cancel => s.up
    case ShutdownReturns => s.up && s.cancelled && s.wg == 0
    case Crash => true
    case Start => !s.up
  }

  // MarkRunningFailed.
  function CleanedUp(records: map<Id, Status>): map<Id, Status> {
    map r | r in records :: if records[r] == Running then Failure else records[r]
  }

  function Do(s: State, step: Step): State
    requires Enabled(s, step)
  {
    match step
    case Tick(to) => s.(clock := to)
    case Enter(t, kind) => s.(tasks := s.tasks[t := Task(kind, Entered, "", 0, false, 0, 0)], used := s.used + {t})
    case AcquireOk(t) =>
      s.(row := LockRow(true, t, s.clock), tasks := s.tasks[t := s.tasks[t].(phase := Held, since := s.clock,
          acquires := s.tasks[t].acquires + 1)])
    case AcquireNo(t, tookEffect) =>
      s.(row := if tookEffect then LockRow(true, t, s.clock)
         else s.row, tasks := s.tasks - {t}, finished := s.finished[t := s.tasks[t]])
    case Begin(t, run) =>
      s.(records := s.records[run := Running], tasks := s.tasks[t := s.tasks[t].(phase := Recorded, run := run)])
    case BeginLost(t, run) =>
      s.(records := s.records[run := Running], lost := s.lost + {run},
         tasks := s.tasks[t := s.tasks[t].(phase := Closing)])
    case Abort(t) => s.(tasks := s.tasks[t := s.tasks[t].(phase := Closing)])
    case Spawn(t) => s.(wg := s.wg + 1, tasks := s.tasks[t := s.tasks[t].(phase := Spawned, counted := true)])
    case Final(t, status, saved) =>
      var run := s.tasks[t].run;
      s.(records := if saved && run in s.records then s.records[run := status] else s.records,
         lost := if saved then s.lost else s.lost + {run},
         tasks := s.tasks[t := s.tasks[t].(phase := Closing)])
    case Release(t, tookEffect) =>
      s.(row := if tookEffect then Released(s.row, t) else s.row,
         tasks := s.tasks[t := s.tasks[t].(phase := Freed, releases := s.tasks[t].releases + 1)])
    case Leave(t) =>
      s.(wg := if s.tasks[t].counted then s.wg - 1 else s.wg, tasks := s.tasks - {t},
         finished := s.finished[t := s.tasks[t]])
    case Cancel => s.(cancelled := true)
    case ShutdownReturns => s
    case Crash => s.(up := false, tasks := map[], wg := 0)
    case Start => s.(up := true, cancelled := false, records := CleanedUp(s.records), lost := {})
  }

  const FIRST := State(false, 0, FREE_ROW, map[], map[], {}, map[], {}, 0, false)

  predicate Legal(s: State, steps: seq<Step>)
    decreases |steps|
  {
    steps == [] || (Enabled(s, steps[0]) && Legal(Do(s, steps[0]), steps[1..]))
  }

  function After(s: State, steps: seq<Step>): State
    requires Legal(s, steps)
    decreases |steps|
  {
    if steps == [] then s else After(Do(s, steps[0]), steps[1..])
  }

  function Counted(tasks: map<Id, Task>): set<Id> {
    set t | t in tasks && tasks[t].counted
  }

  ghost predicate TaskOk(task: Task) {
    && (task.phase == Entered ==> task.acquires == 0 && task.releases == 0)
    && (AtWork(task) ==> task.acquires == 1 && task.releases == 0)
    && (task.phase == Freed ==> task.acquires == 1 && task.releases == 1)
    && (task.phase == Spawned ==> task.counted)
    && (task.phase in {Entered, Held, Recorded} ==> !task.counted)
    && (task.counted ==> task.kind == Async)
  }

  // Every open task has its own running record.
  ghost predicate OpenTasksOk(s: State) {
    && (forall t :: t in s.tasks && Open(s.tasks[t]) ==>
          s.tasks[t].run in s.records && s.records[s.tasks[t].run] == Running)
    && (forall t, u ::
          t in s.tasks && u in s.tasks && Open(s.tasks[t]) && Open(s.tasks[u]) && s.tasks[t].run == s.tasks[u].run
          ==> t == u)
  }

  ghost predicate HasTask(s: State, r: Id) {
    exists t :: t in s.tasks && Open(s.tasks[t]) && s.tasks[t].run == r
  }

  // Every running record without a task has lost its final update.
  ghost predicate RecordsOk(s: State) {
    s.up ==> forall r :: r in s.records && s.records[r] == Running ==> r in s.lost || HasTask(s, r)
  }

  // A task at work is the recorded holder, or has been at work for longer than the TTL.
  ghost predicate TaskLockOk(s: State, t: Id)
    requires t in s.tasks
  {
    && t in s.used && t != ""
    && (s.tasks[t].phase == Entered ==> s.row.holder != t)
    && (AtWork(s.tasks[t]) ==>
          && s.tasks[t].since <= s.clock
          && (s.row == LockRow(true, t, s.tasks[t].since) || s.tasks[t].since + LOCK_TTL < s.clock))
  }

  ghost predicate LockOk(s: State) {
    && (forall t :: t in s.tasks ==> TaskLockOk(s, t))
    && (s.row.holder == "" || s.row.holder in s.used)
  }

  ghost predicate CountsOk(s: State) {
    && s.wg == |Counted(s.tasks)|
    && (!s.up ==> s.tasks == map[])
    && (forall t :: t in s.tasks ==> t in s.used)
    && (forall t :: t in s.tasks ==> TaskOk(s.tasks[t]))
    && (forall t :: t in s.finished ==> s.finished[t].acquires == s.finished[t].releases <= 1)
  }

  ghost predicate Inv(s: State) {
    OpenTasksOk(s) && RecordsOk(s) && LockOk(s) && CountsOk(s)
  }

  lemma CountedUpdate(tasks: map<Id, Task>, t: Id, task: Task)
    ensures Counted(tasks[t := task]) == if task.counted then Counted(tasks) + {t} else Counted(tasks) - {t}
    ensures Counted(tasks - {t}) == Counted(tasks) - {t}
  {
  }

  lemma WaitGroupKept(s: State, step: Step)
    requires CountsOk(s) && Enabled(s, step)
    ensures Do(s, step).wg == |Counted(Do(s, step).tasks)|
  {
    hide Counted;
    var s' := Do(s, step);
    if step.Enter? || step.AcquireOk? || step.Begin? || step.BeginLost? || step.Abort? || step.Spawn?
       || step.Final? || step.Release? {
      CountedUpdate(s.tasks, step.t, s'.tasks[step.t]);
      CountedMember(s.tasks, step.t);
    } else if step.AcquireNo? || step.Leave? {
      CountedUpdate(s.tasks, step.t, s.tasks[step.t]);
      CountedMember(s.tasks, step.t);
    } else {
      CountedMember(map[], "");
    }
  }

  lemma CountedMember(tasks: map<Id, Task>, t: Id)
    ensures t in Counted(tasks) <==> t in tasks && tasks[t].counted
    ensures tasks == map[] ==> |Counted(tasks)| == 0
  {
    assert tasks == map[] ==> Counted(tasks) == {};
  }

  lemma CountsKept(s: State, step: Step)
    requires Inv(s) && Enabled(s, step)
    ensures CountsOk(Do(s, step))
  {
    hide OpenTasksOk, RecordsOk, LockOk, Counted;
    WaitGroupKept(s, step);
  }

  lemma {:induction false} TaskLockKept(s: State, step: Step, t: Id)
    requires Enabled(s, step) && t in Do(s, step).tasks
    requires (t in s.tasks ==> TaskLockOk(s, t)) && (s.row.holder == "" || s.row.holder in s.used)
    ensures TaskLockOk(Do(s, step), t)
  {
  }

  lemma LockKept(s: State, step: Step)
    requires Inv(s) && Enabled(s, step)
    ensures LockOk(Do(s, step))
  {
    hide OpenTasksOk, RecordsOk, TaskLockOk, TaskOk, Counted;
    forall t | t in Do(s, step).tasks ensures TaskLockOk(Do(s, step), t) {
      TaskLockKept(s, step, t);
    }
  }

  // The only step that opens a task gives it a run of its own.
  lemma OpenedBefore(s: State, step: Step, t: Id)
    requires CountsOk(s) && Enabled(s, step) && t in Do(s, step).tasks && Open(Do(s, step).tasks[t])
    ensures step == Begin(t, Do(s, step).tasks[t].run)
            || (t in s.tasks && Open(s.tasks[t]) && s.tasks[t].run == Do(s, step).tasks[t].run)
    ensures step != Start
  {
  }

  lemma RunStays(s: State, step: Step, r: Id)
    requires Enabled(s, step) && step != Start && r in s.records
    ensures r in Do(s, step).records
    ensures Do(s, step).records[r] == s.records[r] || (step.Final? && s.tasks[step.t].run == r)
  {
  }

  lemma OpenTasksKept(s: State, step: Step)
    requires Inv(s) && Enabled(s, step)
    ensures OpenTasksOk(Do(s, step))
  {
    hide LockOk, RecordsOk, CountsOk, Open;
    var s' := Do(s, step);
    forall t | t in s'.tasks && Open(s'.tasks[t])
      ensures s'.tasks[t].run in s'.records && s'.records[s'.tasks[t].run] == Running
    {
      OpenedBefore(s, step, t);
      if !step.Begin? || step.t != t {
        RunStays(s, step, s.tasks[t].run);
        if step.Final? {
          FinalOpen(s, step);
        }
      }
    }
    forall t, u | t in s'.tasks && u in s'.tasks && Open(s'.tasks[t]) && Open(s'.tasks[u])
                  && s'.tasks[t].run == s'.tasks[u].run
      ensures t == u
    {
      OpenedBefore(s, step, t);
      OpenedBefore(s, step, u);
    }
  }

  // A final update closes an open task.
  lemma FinalOpen(s: State, step: Step)
    requires Enabled(s, step) && step.Final?
    ensures step.t in s.tasks && Open(s.tasks[step.t]) && !Open(Do(s, step).tasks[step.t])
  {
  }

  lemma RecordsKept(s: State, step: Step)
    requires Inv(s) && Enabled(s, step)
    ensures RecordsOk(Do(s, step))
  {
    hide LockOk, Counted, HasTask;
    var s' := Do(s, step);
    if s'.up {
      forall r | r in s'.records && s'.records[r] == Running ensures r in s'.lost || HasTask(s', r) {
        if step.Start? {
        } else if step.Begin? && r == step.run {
          TaskOf(s', step.t);
        } else if step.BeginLost? && r == step.run {
          assert r in s'.lost;
        } else {
          RecordKept(s, step, r);
        }
      }
    }
  }

  lemma TaskOf(s: State, t: Id)
    requires t in s.tasks && Open(s.tasks[t])
    ensures HasTask(s, s.tasks[t].run)
  {
  }

  lemma RecordKept(s: State, step: Step, r: Id)
    requires Inv(s) && Enabled(s, step) && Do(s, step).up && !step.Start?
    requires r in s.records && s.records[r] == Running && r in Do(s, step).records && Do(s, step).records[r] == Running
    ensures r in Do(s, step).lost || HasTask(Do(s, step), r)
  {
    hide LockOk, Counted;
    var s' := Do(s, step);
    if r !in s.lost {
      var t :| t in s.tasks && Open(s.tasks[t]) && s.tasks[t].run == r;
      if step.Final? && step.t == t {
      } else {
        assert t in s'.tasks && s'.tasks[t].run == r && Open(s'.tasks[t]);
        TaskOf(s', t);
      }
    }
  }

  lemma {:induction false} InvAlways(s: State, steps: seq<Step>)
    requires Inv(s) && Legal(s, steps)
    ensures Inv(After(s, steps))
    decreases |steps|
  {
    hide OpenTasksOk, RecordsOk, LockOk, CountsOk, Do, Enabled;
    if steps != [] {
      CountsKept(s, steps[0]);
      LockKept(s, steps[0]);
      OpenTasksKept(s, steps[0]);
      RecordsKept(s, steps[0]);
      InvAlways(Do(s, steps[0]), steps[1..]);
    }
  }

  lemma FirstInv()
    ensures Inv(FIRST)
  {
  }

  // ----- What every run of the system keeps -----

  // Unless a write of its own has gone wrong, a running record belongs to a live task between its acquire and its
  // release.
  lemma RunningMeansAlive(steps: seq<Step>, r: Id)
    requires Legal(FIRST, steps)
    requires var s := After(FIRST, steps); s.up && r !in s.lost && r in s.records && s.records[r] == Running
    ensures var s := After(FIRST, steps);
            exists t :: t in s.tasks && s.tasks[t].run == r && AtWork(s.tasks[t])
                        && s.tasks[t].acquires == 1 && s.tasks[t].releases == 0
  {
    FirstInv();
    InvAlways(FIRST, steps);
    var s := After(FIRST, steps);
    var t :| t in s.tasks && Open(s.tasks[t]) && s.tasks[t].run == r;
    assert TaskOk(s.tasks[t]) && AtWork(s.tasks[t]);
  }

  // If moreover no task overstays the TTL, at most one such record is running.
  lemma OneRunningRecord(steps: seq<Step>, q: Id, r: Id)
    requires Legal(FIRST, steps)
    requires var s := After(FIRST, steps);
             && s.up && q !in s.lost && r !in s.lost
             && (forall t :: t in s.tasks && AtWork(s.tasks[t]) ==> s.clock <= s.tasks[t].since + LOCK_TTL)
             && q in s.records && r in s.records && s.records[q] == s.records[r] == Running
    ensures q == r
  {
    FirstInv();
    InvAlways(FIRST, steps);
    var s := After(FIRST, steps);
    var t :| t in s.tasks && Open(s.tasks[t]) && s.tasks[t].run == q;
    var u :| u in s.tasks && Open(s.tasks[u]) && s.tasks[u].run == r;
    assert AtWork(s.tasks[t]) && AtWork(s.tasks[u]);
    assert s.row.holder == t && s.row.holder == u;
  }

  // Whoever has returned has released exactly as often as it acquired: once or not at all.
  lemma ReleasedExactlyOnce(steps: seq<Step>, t: Id)
    requires Legal(FIRST, steps) && t in After(FIRST, steps).finished
    ensures After(FIRST, steps).finished[t].acquires == After(FIRST, steps).finished[t].releases <= 1
  {
    FirstInv();
    InvAlways(FIRST, steps);
  }

  // Once the recorded holder has released, the lock is there for every task that still asks, then and later.
  lemma {:induction false} ReleaseLetsIn(s: State, t: Id, u: Id, now: int)
    requires Enabled(s, Release(t, true)) && s.row.holder == t && s.clock <= now
    requires u in s.tasks && u != t && s.tasks[u].phase == Entered && (s.tasks[u].kind == Async ==> !s.cancelled)
    ensures Enabled(Do(s, Release(t, true)), AcquireOk(u))
    ensures Enabled(Do(s, Release(t, true)), Tick(now))
            && Enabled(Do(Do(s, Release(t, true)), Tick(now)), AcquireOk(u))
  {
  }

  // From a first start on: a run that has ended with its release taken leaves the row free for the next call.
  lemma {:induction false} NextCallAcquires(steps: seq<Step>, t: Id, u: Id, kind: Kind, now: int)
    requires Legal(FIRST, steps)
    requires var s := After(FIRST, steps);
             && s.up && (kind == Async ==> !s.cancelled) && s.clock <= now && u != "" && u !in s.used
             && Enabled(s, Release(t, true)) && s.clock <= s.tasks[t].since + LOCK_TTL
    ensures var rest := [Release(t, true)] + ([Leave(t)] + ([Tick(now)] + ([Enter(u, kind)] + ([AcquireOk(u)] + []))));
            Legal(After(FIRST, steps), rest) && After(After(FIRST, steps), rest).row == LockRow(true, u, now)
  {
    FirstInv();
    InvAlways(FIRST, steps);
    var s := After(FIRST, steps);
    assert TaskLockOk(s, t);
    hide Legal, After, OpenTasksOk, RecordsOk, CountsOk;
    var s1 := Do(s, Release(t, true));
    var s2 := Do(s1, Leave(t));
    var s3 := Do(s2, Tick(now));
    var s4 := Do(s3, Enter(u, kind));
    NoMore(Do(s4, AcquireOk(u)));
    Prepend(s4, AcquireOk(u), []);
    Prepend(s3, Enter(u, kind), [AcquireOk(u)] + []);
    Prepend(s2, Tick(now), [Enter(u, kind)] + ([AcquireOk(u)] + []));
    Prepend(s1, Leave(t), [Tick(now)] + ([Enter(u, kind)] + ([AcquireOk(u)] + [])));
    Prepend(s, Release(t, true), [Leave(t)] + ([Tick(now)] + ([Enter(u, kind)] + ([AcquireOk(u)] + []))));
  }

  lemma NoMore(s: State)
    ensures Legal(s, []) && After(s, []) == s
  {
  }

  // A terminal record stays terminal, and keeps its verdict.
  lemma TerminalStays(s: State, step: Step, r: Id)
    requires Inv(s) && Enabled(s, step) && r in s.records && s.records[r] != Running
    ensures r in Do(s, step).records && Do(s, step).records[r] == s.records[r]
  {
    hide LockOk, CountsOk, RecordsOk;
    if step.Final? {
      assert Open(s.tasks[step.t]);
    }
  }

  lemma {:induction false} TerminalForGood(s: State, steps: seq<Step>, r: Id)
    requires Inv(s) && Legal(s, steps) && r in s.records && s.records[r] != Running
    ensures r in After(s, steps).records && After(s, steps).records[r] == s.records[r]
    decreases |steps|
  {
    hide OpenTasksOk, RecordsOk, LockOk, CountsOk, Do, Enabled;
    if steps != [] {
      CountsKept(s, steps[0]);
      LockKept(s, steps[0]);
      OpenTasksKept(s, steps[0]);
      RecordsKept(s, steps[0]);
      TerminalStays(s, steps[0], r);
      TerminalForGood(Do(s, steps[0]), steps[1..], r);
    }
  }

  // Whatever happened before, crashes included: when a process has started no record is running, none is gone, and
  // those that were terminal are as they were.
  lemma {:induction false} StartLeavesNothingRunning(steps: seq<Step>)
    requires Legal(FIRST, steps + [Start])
    ensures Legal(FIRST, steps)
    ensures var before, after := After(FIRST, steps).records, After(FIRST, steps + [Start]).records;
            && after.Keys == before.Keys
            && (forall r :: r in after ==> after[r] != Running)
            && (forall r :: r in before && before[r] != Running ==> after[r] == before[r])
  {
    Split(FIRST, steps, [Start]);
    LastStep(After(FIRST, steps), Start);
  }

  lemma LastStep(s: State, step: Step)
    requires Legal(s, [step])
    ensures Enabled(s, step) && After(s, [step]) == Do(s, step)
  {
    hide Enabled, Do;
    assert [step][1..] == [];
  }

  lemma {:induction false} Split(s: State, steps: seq<Step>, more: seq<Step>)
    requires Legal(s, steps + more)
    ensures Legal(s, steps) && Legal(After(s, steps), more) && After(After(s, steps), more) == After(s, steps + more)
    decreases |steps|
  {
    hide Enabled, Do;
    if steps == [] {
      assert steps + more == more;
    } else {
      assert (steps + more)[1..] == steps[1..] + more;
      Split(Do(s, steps[0]), steps[1..], more);
    }
  }

  // MarkRunningFailed, on the statuses alone.
  lemma CleanupIsStart(runs: RunMap, message: string, finishedAt: int)
    ensures Statuses(Cleaned(runs, RunningIds(runs), message, finishedAt)) == CleanedUp(Statuses(runs))
  {
  }

  // ----- Shutdown -----

  ghost predicate NoAsync(s: State) {
    forall t :: t in s.tasks ==> s.tasks[t].kind != Async
  }

  // A trigger that has passed the context test and has not reached the wait group.
  ghost predicate TriggerInFlight(s: State) {
    exists t :: t in s.tasks && s.tasks[t].kind == Async && !s.tasks[t].counted
  }

  // When Shutdown can return nil, no async task is alive exactly if no trigger is in flight.
  lemma ShutdownQuiet(s: State)
    requires Inv(s) && Enabled(s, ShutdownReturns)
    ensures NoAsync(s) <==> !TriggerInFlight(s)
  {
    assert forall t :: t in s.tasks && s.tasks[t].counted ==> t in Counted(s.tasks);
    assert Counted(s.tasks) == {};
  }

  // A trigger between the creation of its record and the wait group.
  ghost predicate TriggerRecorded(s: State) {
    exists t :: t in s.tasks && s.tasks[t].kind == Async && s.tasks[t].phase == Recorded
  }

  // A background goroutine is at work, or has only its release left.
  ghost predicate BackgroundAlive(s: State) {
    exists t :: t in s.tasks && s.tasks[t].counted
  }

  ghost predicate CrashFree(steps: seq<Step>) {
    forall i :: 0 <= i < |steps| ==> steps[i] != Crash
  }

  ghost predicate Quiet(s: State) {
    s.up && s.cancelled && !TriggerRecorded(s) && !BackgroundAlive(s)
  }

  lemma QuietStep(s: State, step: Step)
    requires Quiet(s) && Enabled(s, step) && step != Crash
    ensures Quiet(Do(s, step))
  {
    var s' := Do(s, step);
    forall t | t in s'.tasks
      ensures !s'.tasks[t].counted && !(s'.tasks[t].kind == Async && s'.tasks[t].phase == Recorded)
    {
      if t in s.tasks {
        assert !s.tasks[t].counted;
        assert !(s.tasks[t].kind == Async && s.tasks[t].phase == Recorded);
      }
    }
  }

  lemma {:induction false} StaysQuiet(s: State, steps: seq<Step>)
    requires Quiet(s) && Legal(s, steps) && CrashFree(steps)
    ensures Quiet(After(s, steps))
    decreases |steps|
  {
    hide Quiet, Enabled, Do;
    if steps != [] {
      QuietStep(s, steps[0]);
      assert forall i :: 0 <= i < |steps| - 1 ==> steps[1..][i] == steps[i + 1];
      StaysQuiet(Do(s, steps[0]), steps[1..]);
    }
  }

  // Some way to go on without a crash brings a background task.
  ghost predicate TaskMayFollow(s: State) {
    exists more :: Legal(s, more) && CrashFree(more) && BackgroundAlive(After(s, more))
  }

  // When Shutdown can return nil, a background task can still follow exactly if a trigger stands between the creation
  // of its record and the wait group: earlier ones are stopped by the cancelled context.
  lemma {:induction false} TaskFollowsShutdown(s: State)
    requires Inv(s) && Enabled(s, ShutdownReturns)
    ensures TaskMayFollow(s) <==> TriggerRecorded(s)
  {
    hide Inv;
    NoneCounted(s);
    if TriggerRecorded(s) {
      var t :| t in s.tasks && s.tasks[t].kind == Async && s.tasks[t].phase == Recorded;
      SpawnAfter(s, t);
    } else {
      forall more | Legal(s, more) && CrashFree(more) ensures !BackgroundAlive(After(s, more)) {
        StaysQuiet(s, more);
      }
    }
  }

  lemma NoneCounted(s: State)
    requires Inv(s) && s.wg == 0
    ensures !BackgroundAlive(s)
  {
    assert forall t :: t in s.tasks && s.tasks[t].counted ==> t in Counted(s.tasks);
    assert Counted(s.tasks) == {};
  }

  lemma SpawnAfter(s: State, t: Id)
    requires Enabled(s, ShutdownReturns) && t in s.tasks && s.tasks[t].kind == Async && s.tasks[t].phase == Recorded
    ensures var late := [ShutdownReturns] + ([Spawn(t)] + []);
            Legal(s, late) && CrashFree(late) && t in After(s, late).tasks && After(s, late).tasks[t].counted
  {
    Prepend(s, Spawn(t), []);
    Prepend(s, ShutdownReturns, [Spawn(t)] + []);
  }

  // A Shutdown that returns nil with no trigger at that point leaves no background task, then and for the rest of
  // the process.
  lemma ShutdownEndsAsync(steps: seq<Step>, more: seq<Step>)
    requires Legal(FIRST, steps) && Enabled(After(FIRST, steps), ShutdownReturns)
             && !TriggerRecorded(After(FIRST, steps))
    requires Legal(After(FIRST, steps), more) && CrashFree(more)
    ensures !BackgroundAlive(After(FIRST, steps)) && !BackgroundAlive(After(After(FIRST, steps), more))
  {
    hide Inv;
    FirstInv();
    InvAlways(FIRST, steps);
    NoneCounted(After(FIRST, steps));
    StaysQuiet(After(FIRST, steps), more);
  }

  lemma Prepend(s: State, step: Step, rest: seq<Step>)
    requires Enabled(s, step) && Legal(Do(s, step), rest)
    ensures Legal(s, [step] + rest) && After(s, [step] + rest) == After(Do(s, step), rest)
  {
    hide Enabled, Do;
    assert ([step] + rest)[1..] == rest;
  }

  // Such a state is reached: a trigger creates its record, and Shutdown cancels before it adds to the wait group.
  lemma RecordedTriggerReached()
    ensures var steps := [Start] + ([Enter("t", Async)] + ([AcquireOk("t")] + ([Begin("t", "r")] + ([Cancel] + []))));
            && Legal(FIRST, steps)
            && var s := After(FIRST, steps);
               && Enabled(s, ShutdownReturns)
               && "t" in s.tasks && s.tasks["t"].kind == Async && s.tasks["t"].phase == Recorded
  {
    var s1 := Do(FIRST, Start);
    var s2 := Do(s1, Enter("t", Async));
    var s3 := Do(s2, AcquireOk("t"));
    var s4 := Do(s3, Begin("t", "r"));
    Prepend(s4, Cancel, []);
    Prepend(s3, Begin("t", "r"), [Cancel] + []);
    Prepend(s2, AcquireOk("t"), [Begin("t", "r")] + ([Cancel] + []));
    Prepend(s1, Enter("t", Async), [AcquireOk("t")] + ([Begin("t", "r")] + ([Cancel] + [])));
    Prepend(FIRST, Start, [Enter("t", Async)] + ([AcquireOk("t")] + ([Begin("t", "r")] + ([Cancel] + []))));
  }

  // So Shutdown can return nil and a task start after it.
  lemma TriggerCanOutliveShutdown()
    ensures exists steps :: && Legal(FIRST, steps) && Enabled(After(FIRST, steps), ShutdownReturns)
                            && !BackgroundAlive(After(FIRST, steps)) && TaskMayFollow(After(FIRST, steps))
  {
    hide Inv, TaskMayFollow, BackgroundAlive;
    RecordedTriggerReached();
    var steps := [Start] + ([Enter("t", Async)] + ([AcquireOk("t")] + ([Begin("t", "r")] + ([Cancel] + []))));
    FirstInv();
    InvAlways(FIRST, steps);
    hide Legal, After, Enabled, Do;
    NoneCounted(After(FIRST, steps));
    TaskFollowsShutdown(After(FIRST, steps));
  }
}

// internal/sync/engine.go: one run from the lock to its release. The methods below are the code of one process
// between two interruptions by others; Lifecycle interleaves the same steps with everybody else's.

module Engines {
  import opened Seqs
  import opened Tables
  import opened AddressRepo
  import opened Parsing
  import opened Appliers
  import opened Syncs
  import opened Months
  import opened DiffRuns
  import opened Locks
  import opened Runs
  import Lifecycle

  // What the environment supplies to one run: identifiers, clock readings, the publisher's site, the skip filter
  // (None: its pattern does not compile).
  datatype Surroundings = Surroundings(
    holder: string, runId: string, asked: int, start: int, finished: int,
    today: Day, site: Site, filter: Option<ApplyOptions>)

  datatype Exit =
    | ShuttingDown | LockFailed | SyncRunning | CountFailed | CreateFailed
    | Ended(run: SyncRun, saved: bool)
    | Launched(run: SyncRun)

  // What the run has to apply; the months matter to a diff run.
  function JobOf(env: Surroundings, eng: EngineOptions): WindowJob
    requires env.filter.Some?
  {
    WindowJob(FeedOf(env.filter.value.filter, env.site),
              Window(env.today.month, if eng.lookback <= 0 then 1 else eng.lookback),
              BatchSize(eng.batchSize))
  }

  function Fresh(env: Surroundings, syncType: SyncType, trigger: Trigger): SyncRun {
    SyncRun(env.runId, syncType, Running, trigger, env.start, None, 0, "", 0, 0, 0, 0, 0, NoError)
  }

  // The record is closed, and says success exactly when there was no error.
  ghost predicate Closed(run: SyncRun, was: SyncRun, finished: int) {
    && run.id == was.id && run.trigger == was.trigger && run.startedAt == was.startedAt
    && run.finishedAt == Some(finished) && run.durationMs == finished - was.startedAt
    && run.status == (if run.error == NoError then Success else Failure)
  }

  // The record has the counters of the result.
  ghost predicate Counted(run: SyncRun, res: ApplyResult) {
    && run.rowsAdded == res.added && run.rowsUpdated == res.updated && run.rowsDeleted == res.deleted
    && run.rowsSkipped == res.skipped && run.rowsTotal == res.total
  }

  // What a run of the given type does to the table and counts, by the verdict in its record.
  ghost predicate Synced(env: Surroundings, eng: EngineOptions, syncType: SyncType, before: AddressMap,
                         after: AddressMap, run: SyncRun) {
    match run.error
    case Stopped(_) => false
    case BadUpload => false
    case UnknownType => syncType !in {Full, Diff} && after == before && Counted(run, NO_RESULT)
    case BadPattern => env.filter.None? && syncType in {Full, Diff} && after == before && Counted(run, NO_RESULT)
    case NoError =>
      && env.filter.Some? && syncType in {Full, Diff}
      && Ran(JobOf(env, eng), eng, syncType, before, after, run, Finished(Done))
    case Sync(o) =>
      && env.filter.Some? && syncType in {Full, Diff} && o != Finished(Done)
      && Ran(JobOf(env, eng), eng, syncType, before, after, run, o)
  }

  ghost predicate Ran(w: WindowJob, eng: EngineOptions, syncType: SyncType, before: AddressMap, after: AddressMap,
                      run: SyncRun, o: RunOutcome)
    requires 1 <= w.size
  {
    if syncType == Full then FullRan(w, eng, before, after, run, o) else DiffRan(w, eng, before, after, run, o)
  }

  ghost predicate FullRan(w: WindowJob, eng: EngineOptions, before: AddressMap, after: AddressMap, run: SyncRun,
                          o: RunOutcome)
    requires 1 <= w.size
  {
    && run.syncType == Full
    && FullRunStep(w, eng, before, after, o)
    && exists res :: Counted(run, res) && FullRunTally(w, eng, before, after, o, res)
  }

  // The type of the record tells whether the run has fallen back.
  ghost predicate DiffRan(w: WindowJob, eng: EngineOptions, before: AddressMap, after: AddressMap, run: SyncRun,
                          o: RunOutcome)
    requires 1 <= w.size
  {
    && run.syncType in {Full, Diff}
    && DiffRunStep(w, eng, before, after, o, run.syncType == Full)
    && (exists res :: Counted(run, res) && DiffRunTally(w, eng, before, after, o, run.syncType == Full, res))
    && (o == Finished(Done) && run.syncType == Diff ==> NewestPublished(w, |w.months|, run.diffPeriod))
  }

  // The skipped rows that a run of the given type hands to the store.
  ghost predicate AuditRan(env: Surroundings, eng: EngineOptions, syncType: SyncType, run: SyncRun,
                           audit: seq<seq<SkippedRow>>) {
    if env.filter.None? || syncType !in {Full, Diff} then audit == [] else
      var opt, complete := env.filter.value.(runId := run.id, skippedAt := run.startedAt), run.error == NoError;
      if run.syncType == Full then AuditOfDownload(opt.(sourceType := "full"), env.site.full, audit, complete)
      else AuditOfMonths(opt.(sourceType := "add"), env.site, JobOf(env, eng).months, audit, complete)
  }

  ghost predicate UploadAudited(file: Option<File>, filter: Option<ApplyOptions>, run: SyncRun,
                                audit: seq<seq<SkippedRow>>) {
    if file.None? || filter.None? then audit == []
    else
      var opt := filter.value.(sourceType := "upload", runId := run.id, skippedAt := run.startedAt);
      AuditOf(opt, file.value, audit, run.error == NoError)
  }

  // What an upload does to the table and counts.
  ghost predicate Uploaded(file: Option<File>, eng: EngineOptions, filter: Option<ApplyOptions>, before: AddressMap,
                           after: AddressMap, run: SyncRun) {
    match run.error
    case Stopped(_) => false
    case UnknownType => false
    case BadUpload => file.None? && after == before && Counted(run, NO_RESULT)
    case BadPattern => file.Some? && filter.None? && after == before && Counted(run, NO_RESULT)
    case NoError =>
      file.Some? && filter.Some? && UploadRan(UploadJob(file.value, eng, filter.value), before, after, run, Done)
    case Sync(o) =>
      && file.Some? && filter.Some? && o.Finished? && o.outcome != Done
      && UploadRan(UploadJob(file.value, eng, filter.value), before, after, run, o.outcome)
  }

  ghost predicate UploadRan(job: FullJob, before: AddressMap, after: AddressMap, run: SyncRun, o: Outcome)
    requires 1 <= job.size
  {
    FullStep(job, before, after, o) && exists res :: Counted(run, res) && FullTally(job, before, after, o, res)
  }

  function UploadJob(file: File, eng: EngineOptions, opt: ApplyOptions): FullJob {
    FullJob(StreamOf(opt.filter, file), BatchSize(eng.batchSize), eng.fullPrune, eng.fullMinRows)
  }

  // The lock is given back as often as it was taken, once or not at all; a launched task still has it.
  ghost predicate TookAndGave(before: seq<Call>, after: seq<Call>, holder: string, exit: Exit) {
    after == if exit in {ShuttingDown, LockFailed, SyncRunning} then before
             else if exit.Launched? then before + [Took(holder)]
             else before + [Took(holder)] + [Gave(holder)]
  }

  // The store was written the running record, then the closed one; no other record changed. Without a record, nothing
  // was written. A write that reported an error may or may not have taken effect.
  ghost predicate Written(store0: RunMap, store: RunMap, written0: seq<SyncRun>, written: seq<SyncRun>, was: SyncRun,
                          exit: Exit) {
    match exit
    case Ended(run, saved) =>
      && was.id !in store0 && run.id == was.id
      && ((store == store0[was.id := run] && written == written0 + [was] + [run])
          || (!saved && store == store0[was.id := was] && written == written0 + [was]))
    case Launched(run) =>
      was.id !in store0 && run == was && store == store0[was.id := was] && written == written0 + [was]
    case CreateFailed =>
      || (store == store0 && written == written0)
      || (was.id !in store0 && store == store0[was.id := was] && written == written0 + [was])
    case _ => store == store0 && written == written0
  }

  // ----- The same runs as steps of Lifecycle: the task is named by its holder -----

  ghost predicate Mirrors(s: Lifecycle.State, row: LockRow, store: RunMap) {
    s.row == row && s.records == Statuses(store)
  }

  // The process is up and the call's holder is new.
  ghost predicate Arriving(s: Lifecycle.State, env: Surroundings) {
    s.up && env.holder != "" && env.holder !in s.used && env.holder !in s.tasks && s.clock == env.asked
  }

  // A call of the engine that has not asked for the lock yet.
  ghost predicate Entering(s: Lifecycle.State, env: Surroundings, kind: Lifecycle.Kind) {
    && env.holder in s.tasks && s.tasks[env.holder] == Lifecycle.Task(kind, Lifecycle.Entered, "", 0, false, 0, 0)
    && s.clock == env.asked
    && (kind == Lifecycle.Async ==> !s.cancelled)
  }

  // A task handed to its goroutine.
  function SpawnedTask(env: Surroundings, run: string): Lifecycle.Task {
    Lifecycle.Task(Lifecycle.Async, Lifecycle.Spawned, run, env.asked, true, 1, 0)
  }

  ghost predicate Leads(s: Lifecycle.State, path: seq<Lifecycle.Step>, e: Lifecycle.State) {
    Lifecycle.Legal(s, path) && Lifecycle.After(s, path) == e
  }

  // The call is over, and gave the lock back as often as it took it.
  ghost predicate LeftEven(s: Lifecycle.State, e: Lifecycle.State, t: string) {
    && t !in e.tasks && t in e.finished && e.finished[t].acquires == e.finished[t].releases <= 1
    && e.tasks == s.tasks - {t}
  }

  lemma OneStep(s: Lifecycle.State, path: seq<Lifecycle.Step>, m: Lifecycle.State, step: Lifecycle.Step)
    requires Lifecycle.Enabled(s, step) && Leads(Lifecycle.Do(s, step), path, m)
    ensures Leads(s, [step] + path, m)
  {
    hide Lifecycle.Enabled, Lifecycle.Do;
    Lifecycle.Prepend(s, step, path);
  }

  lemma EnterStep(s: Lifecycle.State, env: Surroundings, kind: Lifecycle.Kind) returns (m: Lifecycle.State)
    requires Arriving(s, env) && (kind == Lifecycle.Async ==> !s.cancelled)
    ensures Lifecycle.Enabled(s, Lifecycle.Enter(env.holder, kind))
            && m == Lifecycle.Do(s, Lifecycle.Enter(env.holder, kind))
    ensures Entering(m, env, kind) && m.row == s.row && m.records == s.records && m.wg == s.wg
    ensures forall e :: LeftEven(m, e, env.holder) ==> LeftEven(s, e, env.holder)
  {
    m := Lifecycle.Do(s, Lifecycle.Enter(env.holder, kind));
    assert m.tasks - {env.holder} == s.tasks - {env.holder};
  }

  lemma NoStep(s: Lifecycle.State)
    ensures Leads(s, [], s)
  {
  }

  // Busy, or failed with or without effect.
  lemma RefusedPath(s: Lifecycle.State, env: Surroundings, kind: Lifecycle.Kind, effect: bool)
    returns (path: seq<Lifecycle.Step>, e: Lifecycle.State)
    requires Entering(s, env, kind) && (effect ==> Takeable(s.row, s.clock))
    ensures Leads(s, path, e) && e.row == (if effect then LockRow(true, env.holder, env.asked) else s.row)
            && e.records == s.records
    ensures LeftEven(s, e, env.holder)
  {
    var step := Lifecycle.AcquireNo(env.holder, effect);
    e := Lifecycle.Do(s, step);
    path := [step] + [];
    NoStep(e);
    OneStep(s, [], e, step);
  }

  function RowAfter(t: string, asked: int, gave: bool): LockRow {
    if gave then Released(LockRow(true, t, asked), t) else LockRow(true, t, asked)
  }

  // The lock was taken, but no record was created, or one without a reply.
  lemma AbortedPath(s: Lifecycle.State, env: Surroundings, kind: Lifecycle.Kind, created: bool, gave: bool)
    returns (path: seq<Lifecycle.Step>, e: Lifecycle.State)
    requires Entering(s, env, kind) && Takeable(s.row, s.clock) && (created ==> env.runId !in s.records)
    ensures Leads(s, path, e) && e.row == RowAfter(env.holder, env.asked, gave)
    ensures e.records == if created then s.records[env.runId := Running] else s.records
    ensures LeftEven(s, e, env.holder)
  {
    var t := env.holder;
    var failed := if created then Lifecycle.BeginLost(t, env.runId) else Lifecycle.Abort(t);
    var s1 := Lifecycle.Do(s, Lifecycle.AcquireOk(t));
    var s2 := Lifecycle.Do(s1, failed);
    path, e := ReleasePath(s2, t, gave);
    hide Leads;
    OneStep(s1, path, e, failed);
    path := [failed] + path;
    OneStep(s, path, e, Lifecycle.AcquireOk(t));
    path := [Lifecycle.AcquireOk(t)] + path;
  }

  // Only the release is left.
  lemma ReleasePath(s: Lifecycle.State, t: string, gave: bool) returns (path: seq<Lifecycle.Step>, e: Lifecycle.State)
    requires t in s.tasks && s.tasks[t].phase == Lifecycle.Closing && s.tasks[t].acquires == 1
             && s.tasks[t].releases == 0
    ensures Leads(s, path, e) && e.row == (if gave then Released(s.row, t) else s.row) && e.records == s.records
    ensures LeftEven(s, e, t)
  {
    var s1 := Lifecycle.Do(s, Lifecycle.Release(t, gave));
    e := Lifecycle.Do(s1, Lifecycle.Leave(t));
    path := [];
    NoStep(e);
    OneStep(s1, path, e, Lifecycle.Leave(t));
    path := [Lifecycle.Leave(t)] + path;
    OneStep(s, path, e, Lifecycle.Release(t, gave));
    path := [Lifecycle.Release(t, gave)] + path;
  }

  // The end of a task whose record is open.
  lemma ClosingPath(s: Lifecycle.State, t: string, status: Status, saved: bool, gave: bool)
    returns (path: seq<Lifecycle.Step>, e: Lifecycle.State)
    requires t in s.tasks && status != Running
    requires s.tasks[t].phase == if s.tasks[t].kind == Lifecycle.Async then Lifecycle.Spawned else Lifecycle.Recorded
    requires s.tasks[t].run in s.records && s.tasks[t].acquires == 1 && s.tasks[t].releases == 0
    ensures Leads(s, path, e)
    ensures e.row == if gave then Released(s.row, t) else s.row
    ensures e.records == if saved then s.records[s.tasks[t].run := status] else s.records
    ensures LeftEven(s, e, t)
  {
    var s1 := Lifecycle.Do(s, Lifecycle.Final(t, status, saved));
    path, e := ReleasePath(s1, t, gave);
    hide Leads;
    OneStep(s, path, e, Lifecycle.Final(t, status, saved));
    path := [Lifecycle.Final(t, status, saved)] + path;
  }

  lemma OpenedState(s: Lifecycle.State, env: Surroundings, kind: Lifecycle.Kind) returns (m: Lifecycle.State)
    requires Entering(s, env, kind) && Takeable(s.row, s.clock) && env.runId !in s.records
    ensures Lifecycle.Enabled(s, Lifecycle.AcquireOk(env.holder))
    ensures var s1 := Lifecycle.Do(s, Lifecycle.AcquireOk(env.holder));
            && Lifecycle.Enabled(s1, Lifecycle.Begin(env.holder, env.runId))
            && m == Lifecycle.Do(s1, Lifecycle.Begin(env.holder, env.runId))
    ensures m.row == LockRow(true, env.holder, env.asked) && m.records == s.records[env.runId := Running]
    ensures env.holder in m.tasks && m.tasks == s.tasks[env.holder := m.tasks[env.holder]]
    ensures m.tasks[env.holder] == Lifecycle.Task(kind, Lifecycle.Recorded, env.runId, env.asked, false, 1, 0)
  {
    m := Lifecycle.Do(Lifecycle.Do(s, Lifecycle.AcquireOk(env.holder)), Lifecycle.Begin(env.holder, env.runId));
  }

  lemma EndedPath(s: Lifecycle.State, env: Surroundings, status: Status, saved: bool, gave: bool)
    returns (path: seq<Lifecycle.Step>, e: Lifecycle.State)
    requires Entering(s, env, Lifecycle.Blocking) && Takeable(s.row, s.clock) && env.runId !in s.records
             && status != Running
    ensures Leads(s, path, e) && e.row == RowAfter(env.holder, env.asked, gave)
    ensures e.records == s.records[env.runId := if saved then status else Running]
    ensures LeftEven(s, e, env.holder)
  {
    hide Lifecycle.Do, Lifecycle.Enabled;
    var m := OpenedState(s, env, Lifecycle.Blocking);
    path, e := ClosingPath(m, env.holder, status, saved, gave);
    var s1 := Lifecycle.Do(s, Lifecycle.AcquireOk(env.holder));
    OneStep(s1, path, e, Lifecycle.Begin(env.holder, env.runId));
    path := [Lifecycle.Begin(env.holder, env.runId)] + path;
    OneStep(s, path, e, Lifecycle.AcquireOk(env.holder));
    path := [Lifecycle.AcquireOk(env.holder)] + path;
  }

  lemma SpawnedPath(s: Lifecycle.State, env: Surroundings)
    returns (path: seq<Lifecycle.Step>, e: Lifecycle.State)
    requires Entering(s, env, Lifecycle.Async) && Takeable(s.row, s.clock) && env.runId !in s.records
    ensures Leads(s, path, e) && e.row == LockRow(true, env.holder, env.asked)
            && e.records == s.records[env.runId := Running]
    ensures env.holder in e.tasks && e.tasks[env.holder] == SpawnedTask(env, env.runId)
    ensures e.wg == s.wg + 1
  {
    var t := env.holder;
    var m := OpenedState(s, env, Lifecycle.Async);
    var s1 := Lifecycle.Do(s, Lifecycle.AcquireOk(t));
    e := Lifecycle.Do(m, Lifecycle.Spawn(t));
    NoStep(e);
    OneStep(m, [], e, Lifecycle.Spawn(t));
    OneStep(s1, [Lifecycle.Spawn(t)] + [], e, Lifecycle.Begin(t, env.runId));
    path := [Lifecycle.Begin(t, env.runId)] + ([Lifecycle.Spawn(t)] + []);
    OneStep(s, path, e, Lifecycle.AcquireOk(t));
    path := [Lifecycle.AcquireOk(t)] + path;
  }

  lemma StatusOfOne(store: RunMap, run: SyncRun)
    ensures Statuses(store[run.id := run]) == Statuses(store)[run.id := run.status]
  {
  }

  // What the lock calls and the store writes of one blocking call amount to.
  lemma BlockingCall(s: Lifecycle.State, env: Surroundings,
                     row0: LockRow, row1: LockRow, row2: LockRow, reply: Locks.Reply,
                     store0: RunMap, store: RunMap, was: SyncRun, exit: Exit)
    returns (path: seq<Lifecycle.Step>, e: Lifecycle.State)
    requires Mirrors(s, row0, store0) && Arriving(s, env)
    requires reply == Acquired ==>
               && Takeable(row0, env.asked) && row1 == LockRow(true, env.holder, env.asked)
               && (row2 == Released(row1, env.holder) || row2 == row1)
    requires reply == Busy ==> row1 == row0 && row2 == row1
    requires reply == Failed ==>
               && (row1 == row0 || (Takeable(row0, env.asked) && row1 == LockRow(true, env.holder, env.asked)))
               && row2 == row1
    requires reply != Acquired <==> exit in {LockFailed, SyncRunning}
    requires !exit.Launched? && exit != ShuttingDown && was.id == env.runId && was.status == Running
    requires exit.Ended? ==> was.id !in store0 && exit.run.id == was.id && exit.run.status != Running
                             && (store == store0[was.id := exit.run] || store == store0[was.id := was])
    requires exit == CreateFailed ==> store == store0 || (was.id !in store0 && store == store0[was.id := was])
    requires !exit.Ended? && exit != CreateFailed ==> store == store0
    ensures Leads(s, path, e) && Mirrors(e, row2, store) && LeftEven(s, e, env.holder)
  {
    hide Lifecycle.Do, Lifecycle.Enabled, Lifecycle.Legal, Lifecycle.After, Leads, LeftEven, Statuses, Arriving;
    hide Entering;
    var m := EnterStep(s, env, Lifecycle.Blocking);
    ArrivingClock(s, env);
    SameIds(store0);
    if reply != Acquired {
      path, e := RefusedPath(m, env, Lifecycle.Blocking, row1 != row0);
    } else if exit.Ended? {
      var saved := store == store0[was.id := exit.run];
      path, e := EndedPath(m, env, exit.run.status, saved, row2 != row1);
      StatusOfOne(store0, if saved then exit.run else was);
    } else {
      path, e := AbortedPath(m, env, Lifecycle.Blocking, store != store0, row2 != row1);
      StatusOfOne(store0, was);
    }
    OneStep(s, path, e, Lifecycle.Enter(env.holder, Lifecycle.Blocking));
    path := [Lifecycle.Enter(env.holder, Lifecycle.Blocking)] + path;
  }

  lemma ArrivingClock(s: Lifecycle.State, env: Surroundings)
    requires Arriving(s, env)
    ensures s.clock == env.asked
    ensures forall m, kind :: Entering(m, env, kind) ==> m.clock == env.asked
  {
  }

  lemma SameIds(store: RunMap)
    ensures Statuses(store).Keys == store.Keys
  {
  }

  class Engine {
    const repo: AddressTable
    const runs: RunStore
    const locker: LockTable
    const eng: EngineOptions

    constructor (repo: AddressTable, runs: RunStore, locker: LockTable, requested: EngineOptions)
      ensures this.repo == repo && this.runs == runs && this.locker == locker
      ensures eng.batchSize == (if requested.batchSize <= 0 then 1000 else requested.batchSize)
      ensures eng.lookback == (if requested.lookback <= 0 then 3 else requested.lookback)
      ensures eng == requested.(batchSize := eng.batchSize, lookback := eng.lookback)
    {
      this.repo, this.runs, this.locker := repo, runs, locker;
      this.eng := requested.(batchSize := if requested.batchSize <= 0 then 1000 else requested.batchSize,
                             lookback := if requested.lookback <= 0 then 3 else requested.lookback);
    }

    // auto and the empty type mean full on an empty table, diff otherwise.
    method ResolveType(requested: SyncType) returns (ok: bool, syncType: SyncType)
      requires repo.Valid()
      ensures ok && requested !in {Auto, Unset} ==> syncType == requested
      ensures ok && requested in {Auto, Unset} ==> syncType == if repo.Map() == map[] then Full else Diff
      ensures !ok ==> requested in {Auto, Unset}
    {
      hide ValidRows, Contents;
      if requested !in {Auto, Unset} {
        return true, requested;
      }
      var n;
      ok, n := repo.SelectCount();
      syncType := if n == 0 then Full else Diff;
    }

    method BeginRun(env: Surroundings, syncType: SyncType, trigger: Trigger)
      returns (ok: bool, run: SyncRun, ghost took: bool)
      modifies runs
      ensures run == Fresh(env, syncType, trigger)
      ensures (ok ==> took) && (took ==> run.id !in old(runs.byId))
      ensures runs.byId == if took then old(runs.byId)[run.id := run] else old(runs.byId)
      ensures runs.written == if took then old(runs.written) + [run] else old(runs.written)
    {
      run := Fresh(env, syncType, trigger);
      ok, took := runs.Create(run);
    }

    // The record's final state goes to the store whatever happened before.
    method Finish(was: SyncRun, finished: int, res: ApplyResult, error: Cause)
      returns (run: SyncRun, saved: bool, ghost took: bool)
      modifies runs
      ensures Closed(run, was, finished) && run.error == error && run.syncType == was.syncType
              && run.diffPeriod == was.diffPeriod
      ensures Counted(run, res)
      ensures saved ==> took
      ensures runs.byId == if took then old(runs.byId)[run.id := run] else old(runs.byId)
      ensures runs.written == if took then old(runs.written) + [run] else old(runs.written)
    {
      run := was.(finishedAt := Some(finished), durationMs := finished - was.startedAt,
                  rowsAdded := res.added, rowsUpdated := res.updated, rowsDeleted := res.deleted,
                  rowsSkipped := res.skipped, rowsTotal := res.total,
                  status := if error == NoError then Success else Failure, error := error);
      saved, took := runs.Update(run);
    }

    // Download and apply; the record gets its period, and its type when a diff falls back to full.
    method Apply(env: Surroundings, was: SyncRun, syncType: SyncType)
      returns (run: SyncRun, res: ApplyResult, error: Cause, audit: seq<seq<SkippedRow>>)
      requires repo.Valid() && was.syncType == syncType
      modifies repo
      ensures repo.Valid()
      ensures run == was.(syncType := run.syncType, diffPeriod := run.diffPeriod)
      ensures forall closed: SyncRun ::
                closed.error == error && closed.syncType == run.syncType && closed.diffPeriod == run.diffPeriod
                && closed.id == run.id && closed.startedAt == run.startedAt
                && Counted(closed, res)
                ==> && Synced(env, eng, syncType, old(repo.Map()), repo.Map(), closed)
                    && AuditRan(env, eng, syncType, closed, audit)
    {
      hide FullRunStep, DiffRunStep, FullRunTally, DiffRunTally, AuditOfDownload, AuditOfMonths, StreamOf, ListingOf;
      hide NewestPublished, ValidRows, Contents, Window;
      run, res, audit := was, NO_RESULT, [];
      if syncType !in {Full, Diff} {
        return run, res, UnknownType, audit;
      }
      if env.filter.None? {
        return run, res, BadPattern, audit;
      }
      var opt := env.filter.value.(runId := was.id, skippedAt := was.startedAt);
      var outcome;
      if syncType == Full {
        ghost var refused;
        res, outcome, audit, refused := RunFull(repo, env.site.full, eng, opt, JobOf(env, eng));
        DownloadAuditAnyway(opt.(sourceType := "full"), env.site.full, audit,
                            outcome in {Finished(Done), Finished(TooFewRows), Finished(PruneFailed)}
                            || (outcome == Finished(ReadFailed) && !refused), outcome == Finished(Done));
      } else {
        var fellBack, period;
        res, outcome, fellBack, period, audit := RunDiff(repo, env.today, env.site, eng, opt);
        if fellBack {
          run := run.(syncType := Full);
        } else if outcome == Finished(Done) {
          run := run.(diffPeriod := period);
        }
      }
      error := if outcome == Finished(Done) then NoError else Sync(outcome);
    }

    method Execute(env: Surroundings, was: SyncRun, syncType: SyncType)
      returns (run: SyncRun, saved: bool, audit: seq<seq<SkippedRow>>, ghost took: bool)
      requires repo.Valid() && was.syncType == syncType
      modifies repo, runs
      ensures repo.Valid()
      ensures Closed(run, was, env.finished) && Synced(env, eng, syncType, old(repo.Map()), repo.Map(), run)
      ensures AuditRan(env, eng, syncType, run, audit)
      ensures saved ==> took
      ensures runs.byId == if took then old(runs.byId)[run.id := run] else old(runs.byId)
      ensures runs.written == if took then old(runs.written) + [run] else old(runs.written)
    {
      hide Synced, AuditRan;
      var res, error;
      run, res, error, audit := Apply(env, was, syncType);
      run, saved, took := Finish(run, env.finished, res, error);
    }

    // The type a request amounts to on the table as it is.
    ghost function Resolved(requested: SyncType): SyncType
      reads repo
    {
      if requested !in {Auto, Unset} then requested else if repo.Map() == map[] then Full else Diff
    }

    // A blocking run. Seen from any state of Lifecycle that mirrors lock and records, it is a legal path that leaves
    // a mirrored state, with the lock given back as often as taken.
    method Run(requested: SyncType, trigger: Trigger, env: Surroundings, ghost s: Lifecycle.State)
      returns (exit: Exit, audit: seq<seq<SkippedRow>>, ghost path: seq<Lifecycle.Step>, ghost e: Lifecycle.State)
      requires repo.Valid()
      requires Mirrors(s, locker.Current(), runs.byId) && Arriving(s, env)
      modifies repo, runs, locker
      ensures repo.Valid()
      ensures Leads(s, path, e) && Mirrors(e, locker.Current(), runs.byId) && LeftEven(s, e, env.holder)
      ensures TookAndGave(old(locker.calls), locker.calls, env.holder, exit)
      ensures Written(old(runs.byId), runs.byId, old(runs.written), runs.written,
                      Fresh(env, old(Resolved(requested)), trigger), exit)
      ensures exit.Ended? ==>
                && Closed(exit.run, Fresh(env, old(Resolved(requested)), trigger), env.finished)
                && Synced(env, eng, old(Resolved(requested)), old(repo.Map()), repo.Map(), exit.run)
                && AuditRan(env, eng, old(Resolved(requested)), exit.run, audit)
      ensures !exit.Ended? ==> repo.Map() == old(repo.Map()) && audit == []
      ensures exit == SyncRunning ==>
                !Takeable(old(locker.Current()), env.asked) && locker.Current() == old(locker.Current())
      ensures !exit.Launched? && exit != ShuttingDown
    {
      hide Synced, AuditRan, ValidRows, Contents, Leads, LeftEven, Mirrors, Arriving, Statuses, Released, Takeable;
      audit := [];
      ghost var row0 := locker.Current();
      ghost var store0 := runs.byId;
      ghost var was := Fresh(env, Resolved(requested), trigger);
      var reply := locker.Acquire(env.holder, env.asked);
      ghost var row1 := locker.Current();
      if reply != Acquired {
        exit := if reply == Busy then SyncRunning else LockFailed;
        path, e := BlockingCall(s, env, row0, row1, row1, reply, store0, store0, was, exit);
        return;
      }
      exit, audit := Work(requested, trigger, env);
      var released := locker.Release(env.holder);
      path, e := BlockingCall(s, env, row0, row1, locker.Current(), reply, store0, runs.byId, was, exit);
    }

    // Run with the lock held, up to the deferred release.
    method Work(requested: SyncType, trigger: Trigger, env: Surroundings)
      returns (exit: Exit, audit: seq<seq<SkippedRow>>)
      requires repo.Valid()
      modifies repo, runs
      ensures repo.Valid()
      ensures exit.Ended? || exit in {CountFailed, CreateFailed}
      ensures Written(old(runs.byId), runs.byId, old(runs.written), runs.written,
                      Fresh(env, old(Resolved(requested)), trigger), exit)
      ensures exit.Ended? ==>
                && Closed(exit.run, Fresh(env, old(Resolved(requested)), trigger), env.finished)
                && Synced(env, eng, old(Resolved(requested)), old(repo.Map()), repo.Map(), exit.run)
                && AuditRan(env, eng, old(Resolved(requested)), exit.run, audit)
      ensures !exit.Ended? ==> repo.Map() == old(repo.Map()) && audit == []
    {
      hide Synced, AuditRan, ValidRows, Contents;
      audit := [];
      var ok, syncType := ResolveType(requested);
      if !ok {
        return CountFailed, audit;
      }
      var run;
      ghost var took;
      ok, run, took := BeginRun(env, syncType, trigger);
      if !ok {
        return CreateFailed, audit;
      }
      var closed, saved;
      closed, saved, audit, took := Execute(env, run, syncType);
      exit := Ended(closed, saved);
    }

    // ----- Uploads -----

    method ExecuteUpload(env: Surroundings, was: SyncRun, file: Option<File>)
      returns (run: SyncRun, saved: bool, audit: seq<seq<SkippedRow>>, ghost took: bool)
      requires repo.Valid()
      modifies repo, runs
      ensures repo.Valid()
      ensures Closed(run, was, env.finished) && run.syncType == was.syncType
      ensures Uploaded(file, eng, env.filter, old(repo.Map()), repo.Map(), run)
              && UploadAudited(file, env.filter, run, audit)
      ensures saved ==> took
      ensures runs.byId == if took then old(runs.byId)[run.id := run] else old(runs.byId)
      ensures runs.written == if took then old(runs.written) + [run] else old(runs.written)
    {
      hide FullStep, FullTally, AuditOf, ValidRows, Contents, StreamOf, Parsed;
      audit := [];
      if file.None? {
        run, saved, took := Finish(was, env.finished, NO_RESULT, BadUpload);
        return;
      }
      if env.filter.None? {
        run, saved, took := Finish(was, env.finished, NO_RESULT, BadPattern);
        return;
      }
      var opt := env.filter.value.(sourceType := "upload", runId := was.id, skippedAt := was.startedAt);
      var res, outcome;
      ghost var refused;
      res, outcome, audit, refused := ApplyFull(repo, file.value, eng.batchSize, eng.fullPrune, eng.fullMinRows, opt);
      if outcome != Done {
        AuditAnyway(opt, file.value, audit, outcome in {Done, TooFewRows, PruneFailed}
                    || (outcome == ReadFailed && !refused));
      }
      run, saved, took := Finish(was, env.finished, res, if outcome == Done then NoError else Sync(Finished(outcome)));
    }

    method UploadFull(env: Surroundings, file: Option<File>, ghost s: Lifecycle.State)
      returns (exit: Exit, audit: seq<seq<SkippedRow>>, ghost path: seq<Lifecycle.Step>, ghost e: Lifecycle.State)
      requires repo.Valid()
      requires Mirrors(s, locker.Current(), runs.byId) && Arriving(s, env)
      modifies repo, runs, locker
      ensures repo.Valid()
      ensures Leads(s, path, e) && Mirrors(e, locker.Current(), runs.byId) && LeftEven(s, e, env.holder)
      ensures TookAndGave(old(locker.calls), locker.calls, env.holder, exit)
      ensures Written(old(runs.byId), runs.byId, old(runs.written), runs.written, Fresh(env, Full, Upload), exit)
      ensures exit.Ended? ==>
                && Closed(exit.run, Fresh(env, Full, Upload), env.finished) && exit.run.syncType == Full
                && Uploaded(file, eng, env.filter, old(repo.Map()), repo.Map(), exit.run)
                && UploadAudited(file, env.filter, exit.run, audit)
      ensures !exit.Ended? ==> repo.Map() == old(repo.Map()) && audit == []
      ensures exit == SyncRunning ==>
                !Takeable(old(locker.Current()), env.asked) && locker.Current() == old(locker.Current())
      ensures exit !in {CountFailed, ShuttingDown} && !exit.Launched?
    {
      hide Uploaded, UploadAudited, ValidRows, Contents, Leads, LeftEven, Mirrors, Arriving, Statuses, Released;
      hide Takeable;
      ghost var row0 := locker.Current();
      ghost var store0 := runs.byId;
      ghost var was := Fresh(env, Full, Upload);
      audit := [];
      var reply := locker.Acquire(env.holder, env.asked);
      ghost var row1 := locker.Current();
      if reply != Acquired {
        exit := if reply == Busy then SyncRunning else LockFailed;
        path, e := BlockingCall(s, env, row0, row1, row1, reply, store0, store0, was, exit);
        return;
      }
      ghost var took;
      var ok, run;
      ok, run, took := BeginRun(env, Full, Upload);
      if !ok {
        exit := CreateFailed;
      } else {
        var closed, saved;
        closed, saved, audit, took := ExecuteUpload(env, run, file);
        exit := Ended(closed, saved);
      }
      var released := locker.Release(env.holder);
      path, e := BlockingCall(s, env, row0, row1, locker.Current(), reply, store0, runs.byId, was, exit);
    }

    // ----- Background runs -----

    // The call itself: refused once asyncCtx is cancelled; else the record is created and the work handed over with
    // the lock held.
    method TriggerAsync(requested: SyncType, trigger: Trigger, env: Surroundings, cancelled: bool,
                        ghost s: Lifecycle.State)
      returns (exit: Exit, ghost path: seq<Lifecycle.Step>, ghost e: Lifecycle.State)
      requires repo.Valid()
      requires Mirrors(s, locker.Current(), runs.byId) && Arriving(s, env) && cancelled == s.cancelled
      modifies runs, locker
      ensures Leads(s, path, e) && Mirrors(e, locker.Current(), runs.byId)
      ensures TookAndGave(old(locker.calls), locker.calls, env.holder, exit)
      ensures Written(old(runs.byId), runs.byId, old(runs.written), runs.written,
                      Fresh(env, old(Resolved(requested)), trigger), exit)
      ensures exit == ShuttingDown <==> cancelled
      ensures exit == ShuttingDown ==> e == s
      ensures exit.Launched? ==>
                && env.holder in e.tasks && e.wg == s.wg + 1
                && e.tasks[env.holder] == SpawnedTask(env, env.runId)
      ensures !exit.Launched? && exit != ShuttingDown ==> LeftEven(s, e, env.holder)
      ensures !exit.Ended?
    {
      hide ValidRows, Contents, Leads, LeftEven, Arriving, Entering, Statuses, Released, Takeable;
      ghost var row0 := locker.Current();
      ghost var store0 := runs.byId;
      SameIds(store0);
      if cancelled {
        path, e := [], s;
        NoStep(s);
        return ShuttingDown, path, e;
      }
      ghost var m := EnterStep(s, env, Lifecycle.Async);
      ArrivingClock(s, env);
      ghost var enter := Lifecycle.Enter(env.holder, Lifecycle.Async);
      var reply := locker.Acquire(env.holder, env.asked);
      ghost var row1 := locker.Current();
      if reply != Acquired {
        exit := if reply == Busy then SyncRunning else LockFailed;
        path, e := RefusedPath(m, env, Lifecycle.Async, row1 != row0);
      } else {
        exit, path, e := StartTask(requested, trigger, env, m);
      }
      OneStep(s, path, e, enter);
      path := [enter] + path;
    }

    // TriggerAsync with the lock held.
    method StartTask(requested: SyncType, trigger: Trigger, env: Surroundings, ghost s: Lifecycle.State)
      returns (exit: Exit, ghost path: seq<Lifecycle.Step>, ghost e: Lifecycle.State)
      requires repo.Valid() && Entering(s, env, Lifecycle.Async) && Takeable(s.row, env.asked)
      requires locker.Current() == LockRow(true, env.holder, env.asked) && s.records == Statuses(runs.byId)
      modifies runs, locker
      ensures Leads(s, path, e) && Mirrors(e, locker.Current(), runs.byId)
      ensures locker.calls == if exit.Launched? then old(locker.calls) else old(locker.calls) + [Gave(env.holder)]
      ensures Written(old(runs.byId), runs.byId, old(runs.written), runs.written,
                      Fresh(env, old(Resolved(requested)), trigger), exit)
      ensures exit.Launched? || exit in {CountFailed, CreateFailed}
      ensures exit.Launched? ==>
                && env.holder in e.tasks && e.wg == s.wg + 1
                && e.tasks[env.holder] == SpawnedTask(env, env.runId)
      ensures !exit.Launched? ==> LeftEven(s, e, env.holder)
    {
      hide ValidRows, Contents, Leads, LeftEven, Statuses, Released, Takeable;
      ghost var row1 := locker.Current();
      ghost var store0 := runs.byId;
      SameIds(store0);
      var ok, syncType := ResolveType(requested);
      if !ok {
        exit := CountFailed;
        var released := locker.Release(env.holder);
        path, e := AbortedPath(s, env, Lifecycle.Async, false, locker.Current() != row1);
        return;
      }
      var run;
      ghost var took;
      ok, run, took := BeginRun(env, syncType, trigger);
      StatusOfOne(store0, run);
      if !ok {
        exit := CreateFailed;
        var released := locker.Release(env.holder);
        path, e := AbortedPath(s, env, Lifecycle.Async, took, locker.Current() != row1);
        return;
      }
      exit := Launched(run);
      path, e := SpawnedPath(s, env);
    }

    // The goroutine. Others may have acted since TriggerAsync; its task still waits in phase Spawned.
    method Background(env: Surroundings, was: SyncRun, ghost s: Lifecycle.State)
      returns (run: SyncRun, saved: bool, audit: seq<seq<SkippedRow>>, ghost path: seq<Lifecycle.Step>,
               ghost e: Lifecycle.State)
      requires repo.Valid()
      requires Mirrors(s, locker.Current(), runs.byId) && was.id in runs.byId
      requires env.holder in s.tasks && s.tasks[env.holder] == SpawnedTask(env, was.id)
      modifies repo, runs, locker
      ensures repo.Valid()
      ensures Leads(s, path, e) && Mirrors(e, locker.Current(), runs.byId) && LeftEven(s, e, env.holder)
      ensures locker.calls == old(locker.calls) + [Gave(env.holder)]
      ensures Closed(run, was, env.finished) && Synced(env, eng, was.syncType, old(repo.Map()), repo.Map(), run)
      ensures AuditRan(env, eng, was.syncType, run, audit)
      ensures runs.byId == old(runs.byId)[was.id := run] || (!saved && runs.byId == old(runs.byId))
    {
      hide Synced, AuditRan, ValidRows, Contents, Leads, LeftEven, Statuses, Released;
      ghost var store0 := runs.byId;
      ghost var row0 := locker.Current();
      SameIds(store0);
      ghost var took;
      run, saved, audit, took := Execute(env, was, was.syncType);
      var released := locker.Release(env.holder);
      path, e := ClosingPath(s, env.holder, run.status, took, locker.Current() != row0);
      StatusOfOne(store0, run);
    }
  }
}

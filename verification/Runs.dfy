// internal/store/syncrun_repo.go: the records of sync runs. A write may report an error although it took effect.

module Runs {
  import opened Seqs
  import opened DiffRuns

  datatype SyncType = Full | Diff | Auto | Unset | Other(name: string)

  datatype Trigger = Schedule | Manual | Upload

  datatype Status = Running | Success | Failure

  // The error message of a record.
  datatype Cause = NoError | BadPattern | UnknownType | BadUpload | Sync(outcome: RunOutcome) | Stopped(message: string)

  datatype SyncRun = SyncRun(
    id: string, syncType: SyncType, status: Status, trigger: Trigger,
    startedAt: int, finishedAt: Option<int>, durationMs: int, diffPeriod: string,
    rowsAdded: nat, rowsUpdated: nat, rowsDeleted: nat, rowsSkipped: nat, rowsTotal: nat,
    error: Cause)

  type RunMap = map<string, SyncRun>

  function RunningIds(runs: RunMap): set<string> {
    set id | id in runs && runs[id].status == Running
  }

  function Abandoned(run: SyncRun, message: string, finishedAt: int): SyncRun {
    run.(status := Failure, finishedAt := Some(finishedAt), durationMs := finishedAt - run.startedAt,
         error := Stopped(message))
  }

  // The running ones among `ids` abandoned, everything else as it was.
  function Cleaned(runs: RunMap, ids: set<string>, message: string, finishedAt: int): RunMap {
    map id | id in runs :: if id in ids then Abandoned(runs[id], message, finishedAt) else runs[id]
  }

  // Every running record says failure, when and why it was stopped, and how long it took; the rest of it, and every
  // other record, is as it was.
  ghost predicate AllStopped(before: RunMap, after: RunMap, message: string, finishedAt: int) {
    && after.Keys == before.Keys
    && forall id :: id in before ==>
         after[id] == if before[id].status != Running then before[id] else
                        before[id].(status := Failure, finishedAt := Some(finishedAt),
                                    durationMs := finishedAt - before[id].startedAt, error := Stopped(message))
  }

  lemma CleanedStops(runs: RunMap, message: string, finishedAt: int)
    ensures AllStopped(runs, Cleaned(runs, RunningIds(runs), message, finishedAt), message, finishedAt)
  {
  }

  function Statuses(runs: RunMap): map<string, Status> {
    map id | id in runs :: runs[id].status
  }

  class RunStore {
    var byId: RunMap

    // What the store was asked to write for good, in order.
    ghost var written: seq<SyncRun>

    constructor ()
      ensures byId == map[] && written == []
    {
      byId := map[];
      written := [];
    }

    method Create(run: SyncRun) returns (ok: bool, ghost took: bool)
      modifies this
      ensures ok ==> took
      ensures took ==> run.id !in old(byId)
      ensures byId == if took then old(byId)[run.id := run] else old(byId)
      ensures written == if took then old(written) + [run] else old(written)
    {
      var sent := *;
      took := sent && run.id !in byId;
      ok := *;
      if !sent || run.id in byId {
        return false, took;
      }
      byId := byId[run.id := run];
      written := written + [run];
    }

    // Save: every column of the record.
    method Update(run: SyncRun) returns (ok: bool, ghost took: bool)
      modifies this
      ensures ok ==> took
      ensures byId == if took then old(byId)[run.id := run] else old(byId)
      ensures written == if took then old(written) + [run] else old(written)
    {
      var sent := *;
      took := sent;
      ok := *;
      if !sent {
        return false, took;
      }
      byId := byId[run.id := run];
      written := written + [run];
    }

    // One transaction: every running record is marked failed, or none.
    method MarkRunningFailed(message: string, finishedAt: int) returns (ok: bool, count: nat)
      modifies this`byId
      ensures byId == if ok then Cleaned(old(byId), RunningIds(old(byId)), message, finishedAt) else old(byId)
      ensures ok ==> count == |RunningIds(old(byId))| && AllStopped(old(byId), byId, message, finishedAt)
    {
      hide Cleaned, RunningIds, Abandoned, AllStopped;
      count := 0;
      var found := *;
      if !found {
        return false, 0;
      }
      var runs, tx := byId, byId;
      var running := RunningIds(runs);
      CleanedStops(runs, message, finishedAt);
      var todo := running;
      CleanedNone(runs, message, finishedAt);
      assert running - todo == {};
      while todo != {}
        invariant byId == runs && todo <= running && count == |running - todo|
        invariant tx == Cleaned(runs, running - todo, message, finishedAt)
      {
        var id :| id in todo;
        CleanedOne(runs, running - todo, id, message, finishedAt);
        var saved := *;
        if !saved {
          return false, count;
        }
        assert running - (todo - {id}) == (running - todo) + {id};
        tx := tx[id := Abandoned(tx[id], message, finishedAt)];
        count := count + 1;
        todo := todo - {id};
      }
      assert running - {} == running;
      ok := *;  // commit
      if ok {
        byId := tx;
      }
    }
  }

  lemma CleanedNone(runs: RunMap, message: string, finishedAt: int)
    ensures Cleaned(runs, {}, message, finishedAt) == runs
  {
  }

  lemma CleanedOne(runs: RunMap, ids: set<string>, id: string, message: string, finishedAt: int)
    requires id in RunningIds(runs) && id !in ids
    ensures var before := Cleaned(runs, ids, message, finishedAt);
            && id in before
            && Cleaned(runs, ids + {id}, message, finishedAt)
               == before[id := Abandoned(before[id], message, finishedAt)]
  {
  }

  // The cleanup leaves nothing running and touches no terminal record.
  lemma CleanupSettles(runs: RunMap, message: string, finishedAt: int)
    ensures var after := Cleaned(runs, RunningIds(runs), message, finishedAt);
            && RunningIds(after) == {} && after.Keys == runs.Keys
            && forall id :: id in runs && runs[id].status != Running ==> after[id] == runs[id]
  {
  }
}

// What the record of a successful run says about the table, whichever way the run went.

module Records {
  import opened Seqs
  import opened Addresses
  import opened Tables
  import opened Batches
  import opened Parsing
  import opened Appliers
  import opened Syncs
  import opened SyncTheory
  import opened DiffRuns
  import opened LookBack
  import opened Months
  import opened Runs
  import opened Engines

  // No file that the run may read lists a key twice, skipped rows aside.
  ghost predicate DistinctSources(w: WindowJob) {
    DistinctMonths(w, w.months) && (w.feed.full.Found? ==> DistinctKeys(w.feed.full.file.rows))
  }

  // The rows added and deleted by a successful run account for the change of the table's size, be it a full run, a
  // diff run, or a diff run that fell back to a full one.
  lemma {:induction false} RecordAccountsForSize(env: Surroundings, eng: EngineOptions, syncType: SyncType,
                                                 before: AddressMap, after: AddressMap, run: SyncRun)
    requires Synced(env, eng, syncType, before, after, run) && run.error == NoError
    requires DistinctSources(JobOf(env, eng))
    ensures |after| == |before| + run.rowsAdded - run.rowsDeleted
  {
    hide FeedOf, Window, FullStep, FullCounts, WindowTotals, WindowEffect, DistinctKeys, DistinctMonths;
    hide NewestPublished;
    var w := JobOf(env, eng);
    if run.syncType == Diff {
      WindowCountsConserve(w, w.months, before);
    } else {
      FullCountsConserve(FullRunJob(w, eng), before, after);
    }
  }

  // A successful pruning full run leaves exactly the non-skipped rows of the file, whatever the table held.
  lemma {:induction false} FullRunMirrorsFile(env: Surroundings, eng: EngineOptions, before: AddressMap,
                                              after: AddressMap, run: SyncRun)
    requires Synced(env, eng, Full, before, after, run) && run.error == NoError && eng.fullPrune
    requires DistinctSources(JobOf(env, eng))
    ensures env.site.full.Found?
    ensures Hashes(after) == Hashes(RowMap(StreamOf(env.filter.value.filter, env.site.full.file).rows))
  {
    hide StreamOf, Window, FullStep, FullTally, DistinctKeys, DistinctMonths, RowMap, Hashes;
    FullRefinesMap(FullRunJob(JobOf(env, eng), eng), before, after);
  }

  // ----- What a successful run leaves, told by the files on the site -----

  ghost predicate Passes(filter: TownFilter, town: string) {
    filter == NoFilter || !filter.matches(town)
  }

  // The file has a row of this key that the filter lets through.
  ghost predicate Has(file: File, filter: TownFilter, k: AddressKey) {
    exists r :: r in Parsed(file) && r.addr.Key() == k && Passes(filter, r.addr.town)
  }

  ghost predicate HasKey(file: File, k: AddressKey) {
    exists r :: r in Parsed(file) && r.addr.Key() == k
  }

  // The table has the key with the hash of one of those rows.
  ghost predicate HasFrom(m: AddressMap, file: File, filter: TownFilter, k: AddressKey) {
    k in m && exists r :: r in Parsed(file) && r.addr.Key() == k && Passes(filter, r.addr.town)
                          && m[k].sourceHash == r.addr.sourceHash
  }

  lemma {:induction false} StreamPasses(filter: TownFilter, file: File)
    ensures forall a :: a in StreamOf(filter, file).rows
                        <==> exists r :: r in Parsed(file) && r.addr == a && Passes(filter, a.town)
  {
    hide StreamOf, Parsed;
    if filter.Matching? {
      StreamKeeps(filter.matches, file);
    } else {
      NoFilterKeeps(file);
      var rows, all := StreamOf(filter, file).rows, Parsed(file);
      forall r | r in all ensures r.addr in rows {
        var i :| 0 <= i < |all| && all[i] == r;
        assert rows[i] == r.addr;
      }
    }
  }

  lemma {:induction false} StreamHas(filter: TownFilter, file: File, m: AddressMap, k: AddressKey)
    ensures k in KeysOf(StreamOf(filter, file).rows) <==> Has(file, filter, k)
    ensures WrittenFrom(m, StreamOf(filter, file).rows, k) ==> HasFrom(m, file, filter, k)
  {
    hide StreamOf, Parsed, Passes;
    StreamPasses(filter, file);
    var rows := StreamOf(filter, file).rows;
    if k in KeysOf(rows) {
      var a := RowAt(rows, k);
      var r :| r in Parsed(file) && r.addr == a && Passes(filter, a.town);
    }
    if WrittenFrom(m, rows, k) {
      var a :| a in rows && a.Key() == k && m[k].sourceHash == a.sourceHash;
      var r :| r in Parsed(file) && r.addr == a && Passes(filter, a.town);
    }
  }

  lemma {:induction false} ListingHas(file: File, k: AddressKey)
    ensures k in ListingOf(file).keys <==> HasKey(file, k)
  {
    hide ListingOf, Parsed;
    ListingKeepsAll(file);
    var keys, rows := ListingOf(file).keys, Parsed(file);
    forall r | r in rows ensures r.addr.Key() in keys {
      var i :| 0 <= i < |rows| && rows[i] == r;
      assert keys[i] == r.addr.Key();
    }
  }

  // Month j of a look-back of n months, the last of which is the given one.
  function MonthOf(today: Day, n: int, j: int): string {
    YYMM(today.month - n + 1 + j)
  }

  ghost predicate MonthAdds(env: Surroundings, ym: string, k: AddressKey)
    requires env.filter.Some?
  {
    env.site.add(ym).Found? && Has(env.site.add(ym).file, env.filter.value.filter, k)
  }

  ghost predicate MonthAbolishes(env: Surroundings, ym: string, k: AddressKey) {
    env.site.del(ym).Found? && HasKey(env.site.del(ym).file, k)
  }

  // A row that passes the filter leaves its hash under the key, else an abolished row leaves nothing there.
  ghost predicate DecidedBy(env: Surroundings, ym: string, after: AddressMap, k: AddressKey)
    requires env.filter.Some?
  {
    if MonthAdds(env, ym, k) then HasFrom(after, env.site.add(ym).file, env.filter.value.filter, k)
    else MonthAbolishes(env, ym, k) ==> k !in after
  }

  lemma {:induction false} MonthFiles(env: Surroundings, eng: EngineOptions, ym: string, m: AddressMap, k: AddressKey)
    requires env.filter.Some?
    ensures var job := MonthJob(JobOf(env, eng), ym);
            && (k in KeysOf(Added(job)) <==> MonthAdds(env, ym, k))
            && (k in Removed(job) <==> MonthAbolishes(env, ym, k))
            && (WrittenFrom(m, Added(job), k) && k in KeysOf(Added(job)) ==>
                  HasFrom(m, env.site.add(ym).file, env.filter.value.filter, k))
  {
    hide StreamOf, ListingOf, Has, HasKey, HasFrom, WrittenFrom, Window;
    var add, del := env.site.add(ym), env.site.del(ym);
    if add.Found? {
      StreamHas(env.filter.value.filter, add.file, m, k);
    }
    if del.Found? {
      ListingHas(del.file, k);
    }
  }

  // A successful diff run that did not fall back has seen exactly the months of the look-back that end with the
  // current one. Of these, the newest whose files mention a key decides, and a key that no file mentions keeps its
  // entry.
  lemma {:induction false} DiffRunDecides(env: Surroundings, eng: EngineOptions, before: AddressMap, after: AddressMap,
                                          run: SyncRun, k: AddressKey)
    requires Synced(env, eng, Diff, before, after, run) && run.error == NoError && run.syncType == Diff
    requires 1 <= eng.lookback
    ensures forall j :: 0 <= j < eng.lookback
                        && (forall i :: j < i < eng.lookback ==>
                              !MonthAdds(env, MonthOf(env.today, eng.lookback, i), k)
                              && !MonthAbolishes(env, MonthOf(env.today, eng.lookback, i), k)) ==>
              DecidedBy(env, MonthOf(env.today, eng.lookback, j), after, k)
    ensures (forall i :: 0 <= i < eng.lookback ==>
                           !MonthAdds(env, MonthOf(env.today, eng.lookback, i), k)
                           && !MonthAbolishes(env, MonthOf(env.today, eng.lookback, i), k)) ==>
              SameAt(before, after, k)
  {
    hide FeedOf, WindowEffect, DiffRunTally, MonthJob, Removed, Added, KeysOf, MonthAdds, MonthAbolishes, HasFrom;
    hide WrittenFrom, SameAt, YYMM, NewestPublished;
    var w, n := JobOf(env, eng), eng.lookback;
    assert after == WindowEffect(w, w.months, before);
    assert |w.months| == n && forall j :: 0 <= j < n ==> w.months[j] == MonthOf(env.today, n, j);
    forall j | 0 <= j < n ensures MentionedIn(w, w.months[j], k) <==>
        MonthAdds(env, MonthOf(env.today, n, j), k) || MonthAbolishes(env, MonthOf(env.today, n, j), k)
    {
      MonthFiles(env, eng, w.months[j], after, k);
    }
    hide MentionedIn;
    forall j | 0 <= j < n && (forall i :: j < i < n ==> !MentionedIn(w, w.months[i], k))
      ensures DecidedBy(env, MonthOf(env.today, n, j), after, k)
    {
      LastMentionDecides(w, before, k, j);
      MonthFiles(env, eng, w.months[j], after, k);
    }
    if forall i :: 0 <= i < n ==> !MentionedIn(w, w.months[i], k) {
      UnmentionedKept(w, w.months, before, k);
    }
  }

  // A successful full run, asked for or fallen back to: the rows of the file that pass the filter are there, and the
  // rest of the table is gone or kept as the options say.
  lemma {:induction false} FullRunDecides(env: Surroundings, eng: EngineOptions, syncType: SyncType, before: AddressMap,
                                          after: AddressMap, run: SyncRun, k: AddressKey)
    requires Synced(env, eng, syncType, before, after, run) && run.error == NoError && run.syncType == Full
    ensures env.site.full.Found? && Readable(env.site.full.file)
    ensures var file, filter := env.site.full.file, env.filter.value.filter;
            if Has(file, filter, k) then HasFrom(after, file, filter, k)
            else if eng.fullPrune then k !in after else SameAt(before, after, k)
  {
    hide FeedOf, Chunked, FullRunTally, KeysOf, HasFrom, Has, WrittenFrom, SameAt, NewestPublished, Published, Window;
    hide StreamOf, Readable, Parsed;
    var w := JobOf(env, eng);
    var job := FullRunJob(w, eng);
    FullFile(env, eng);
    FullDecides(job, before, after, k);
    StreamHas(env.filter.value.filter, env.site.full.file, after, k);
  }

  lemma FullFile(env: Surroundings, eng: EngineOptions)
    requires env.filter.Some? && JobOf(env, eng).feed.full.Found?
    ensures env.site.full.Found?
    ensures StreamOf(env.filter.value.filter, env.site.full.file).readable <==> Readable(env.site.full.file)
    ensures FullRunJob(JobOf(env, eng), eng)
            == FullJob(StreamOf(env.filter.value.filter, env.site.full.file),
                       if eng.batchSize <= 0 then 1000 else eng.batchSize, eng.fullPrune, eng.fullMinRows)
  {
    hide StreamOf, Window, Readable;
    if env.site.full.Found? {
      StreamTotal(env.filter.value.filter, env.site.full.file);
    }
  }

  lemma {:induction false} FullDecides(job: FullJob, before: AddressMap, after: AddressMap, k: AddressKey)
    requires 1 <= job.size && FullStep(job, before, after, Done)
    ensures job.input.readable
    ensures if k in KeysOf(job.input.rows) then WrittenFrom(after, job.input.rows, k)
            else if job.prune then k !in after else SameAt(before, after, k)
  {
    hide Chunked, KeysOf, WrittenFrom;
    var p, rows := Progress(before, 0, 0, 0), job.input.rows;
    if k in KeysOf(rows) {
      BatchesWrite(p, rows, job.size, k);
      RestrictedSame(Chunked(p, rows, job.size).m, KeysOf(rows), k);
      StillWritten(Chunked(p, rows, job.size).m, after, rows, k);
    } else {
      BatchesElsewhere(p, rows, job.size, k);
    }
  }

  lemma RestrictedSame(m: AddressMap, keys: set<AddressKey>, k: AddressKey)
    requires k in keys
    ensures SameAt(m, Restricted(m, keys), k) && SameAt(m, m, k)
  {
  }

  // The same for an uploaded file.
  lemma {:induction false} UploadDecides(file: File, eng: EngineOptions, opt: ApplyOptions, before: AddressMap,
                                         after: AddressMap, run: SyncRun, k: AddressKey)
    requires Uploaded(Some(file), eng, Some(opt), before, after, run) && run.error == NoError
    ensures Readable(file)
    ensures if Has(file, opt.filter, k) then HasFrom(after, file, opt.filter, k)
            else if eng.fullPrune then k !in after else SameAt(before, after, k)
    ensures run.rowsTotal == |Parsed(file)| && run.rowsSkipped == SkippedRows(file, opt.filter)
    ensures eng.fullPrune ==> run.rowsTotal >= eng.fullMinRows
    ensures !eng.fullPrune ==> run.rowsDeleted == 0
  {
    hide StreamOf, Readable, Parsed, Chunked, KeysOf, Has, HasFrom, WrittenFrom, SameAt, SkippedRows;
    var job := UploadJob(file, eng, opt);
    StreamTotal(opt.filter, file);
    FullDecides(job, before, after, k);
    StreamHas(opt.filter, file, after, k);
    SkippedOf(file, opt.filter);
  }

  // ----- What the records count -----

  // The number of rows that the filter holds back; file rows are told apart by their line.
  ghost function SkippedRows(file: File, filter: TownFilter): nat {
    |set r | r in Parsed(file) && !Passes(filter, r.addr.town)|
  }

  lemma {:induction false} SkippedOf(file: File, filter: TownFilter)
    ensures |Parsed(file)| - |StreamOf(filter, file).rows| == SkippedRows(file, filter)
  {
    hide StreamOf, Parsed;
    var skipped := set r | r in Parsed(file) && !Passes(filter, r.addr.town);
    if filter.Matching? {
      SkippedCounted(filter.matches, file);
      assert skipped == set r | r in Parsed(file) && filter.matches(r.addr.town);
    } else {
      NoFilterKeeps(file);
      assert skipped == {};
    }
  }

  // A successful full run counts the records of the file and those held back, and prunes only past its guard.
  lemma {:induction false} FullRunCounts(env: Surroundings, eng: EngineOptions, syncType: SyncType,
                                         before: AddressMap, after: AddressMap, run: SyncRun)
    requires Synced(env, eng, syncType, before, after, run) && run.error == NoError && run.syncType == Full
    ensures env.site.full.Found?
    ensures run.rowsTotal == |Parsed(env.site.full.file)|
    ensures run.rowsSkipped == SkippedRows(env.site.full.file, env.filter.value.filter)
    ensures eng.fullPrune ==> run.rowsTotal >= eng.fullMinRows
    ensures !eng.fullPrune ==> run.rowsDeleted == 0
    ensures var rows := StreamOf(env.filter.value.filter, env.site.full.file).rows;
            DistinctKeys(rows) ==> run.rowsAdded == |KeysOf(rows) - before.Keys|
                                   && run.rowsUpdated == |StaleKeys(before, rows)|
                                   && (eng.fullPrune ==> run.rowsDeleted == |before.Keys - KeysOf(rows)|)
  {
    hide FeedOf, Chunked, KeysOf, StaleKeys, NewestPublished, Published, Window, StreamOf, Readable, Parsed;
    hide DistinctKeys, SkippedRows;
    var job := FullRunJob(JobOf(env, eng), eng);
    FullFile(env, eng);
    StreamTotal(env.filter.value.filter, env.site.full.file);
    SkippedOf(env.site.full.file, env.filter.value.filter);
    if DistinctKeys(job.input.rows) {
      FullCountsExact(job, before, after);
    }
  }

  // A full run that finds too few records says how many, and deletes nothing.
  lemma {:induction false} TooFewDeletesNothing(env: Surroundings, eng: EngineOptions, syncType: SyncType,
                                                before: AddressMap, after: AddressMap, run: SyncRun)
    requires Synced(env, eng, syncType, before, after, run) && run.error == Sync(Finished(TooFewRows))
    requires run.syncType == Full
    ensures env.site.full.Found? && eng.fullPrune
    ensures run.rowsTotal == |Parsed(env.site.full.file)| < eng.fullMinRows && run.rowsDeleted == 0
    ensures before.Keys <= after.Keys
  {
    hide FeedOf, Chunked, KeysOf, NewestPublished, Published, Window, StreamOf, Readable, Parsed;
    var job := FullRunJob(JobOf(env, eng), eng);
    FullFile(env, eng);
    StreamTotal(env.filter.value.filter, env.site.full.file);
    ChunkedPartly(Progress(before, 0, 0, 0), job.input.rows, job.size);
  }

  // A successful diff run records the sums over its months, whose counters DiffCountsExact gives.
  lemma {:induction false} DiffRunCounts(env: Surroundings, eng: EngineOptions, before: AddressMap, after: AddressMap,
                                         run: SyncRun)
    requires Synced(env, eng, Diff, before, after, run) && run.error == NoError && run.syncType == Diff
    ensures var w := JobOf(env, eng);
            var t := WindowTotals(w, w.months, before);
            && run.rowsAdded == t.added && run.rowsUpdated == t.updated && run.rowsDeleted == t.deleted
            && run.rowsSkipped == t.skipped && run.rowsTotal == t.total
  {
    hide FeedOf, WindowEffect, WindowTotals, NewestPublished, Published, Window;
  }

  ghost predicate NothingPublished(env: Surroundings, n: int) {
    forall j :: 0 <= j < n ==> !env.site.add(MonthOf(env.today, n, j)).Found?
                               && !env.site.del(MonthOf(env.today, n, j)).Found?
  }

  // A diff run becomes a full one only if the options say so and no month of the look-back has a file; without a file
  // and without that option it changes nothing.
  lemma {:induction false} FallsBackOnly(env: Surroundings, eng: EngineOptions, before: AddressMap, after: AddressMap,
                                         run: SyncRun)
    requires Synced(env, eng, Diff, before, after, run) && 1 <= eng.lookback
    requires run.error.NoError? || run.error.Sync?
    ensures run.syncType == Full ==> eng.diffFallbackFull && NothingPublished(env, eng.lookback)
    ensures run.error == Sync(NoSource) ==>
              !eng.diffFallbackFull && NothingPublished(env, eng.lookback) && after == before && run.syncType == Diff
    ensures run.error == NoError && run.syncType == Diff ==> !NothingPublished(env, eng.lookback)
  {
    hide StreamOf, ListingOf, WindowEffect, WindowTotals, NewestPublished, Within, FullRunTally, StoppedTally, YYMM;
    var w, n := JobOf(env, eng), eng.lookback;
    assert |w.months| == n && forall j :: 0 <= j < n ==> w.months[j] == MonthOf(env.today, n, j);
    forall j | 0 <= j < n
      ensures Published(w.feed, w.months[j]) <==> env.site.add(MonthOf(env.today, n, j)).Found?
                                                  || env.site.del(MonthOf(env.today, n, j)).Found?
    {
    }
    hide FeedOf, Window, Published;
    assert forall ym :: ym in w.months ==> exists j :: 0 <= j < n && w.months[j] == ym;
  }

  // The period in the record is the newest month of the look-back that has a file.
  lemma {:induction false} DiffRunPeriod(env: Surroundings, eng: EngineOptions, before: AddressMap, after: AddressMap,
                                         run: SyncRun)
    requires Synced(env, eng, Diff, before, after, run) && run.error == NoError && run.syncType == Diff
    requires 1 <= eng.lookback
    ensures exists j :: 0 <= j < eng.lookback && run.diffPeriod == MonthOf(env.today, eng.lookback, j)
                        && (env.site.add(run.diffPeriod).Found? || env.site.del(run.diffPeriod).Found?)
                        && forall i :: j < i < eng.lookback ==>
                             !env.site.add(MonthOf(env.today, eng.lookback, i)).Found?
                             && !env.site.del(MonthOf(env.today, eng.lookback, i)).Found?
  {
    hide StreamOf, ListingOf, DiffRunStep, DiffRunTally, YYMM;
    var w, n := JobOf(env, eng), eng.lookback;
    assert |w.months| == n && forall j :: 0 <= j < n ==> w.months[j] == MonthOf(env.today, n, j);
    var l :| 0 <= l < n && w.months[l] == run.diffPeriod && Published(w.feed, run.diffPeriod)
             && forall j :: l < j < n ==> !Published(w.feed, w.months[j]);
    forall i | l < i < n
      ensures !env.site.add(MonthOf(env.today, n, i)).Found? && !env.site.del(MonthOf(env.today, n, i)).Found?
    {
      assert !Published(w.feed, w.months[i]);
    }
  }

  // The record of a run, from the call and the clock: as it is opened, and as it is closed.
  lemma OpenedFields(env: Surroundings, syncType: SyncType, trigger: Trigger, run: SyncRun)
    requires run == Fresh(env, syncType, trigger)
    ensures run.id == env.runId && run.syncType == syncType && run.trigger == trigger && run.status == Running
    ensures run.startedAt == env.start && run.finishedAt == None && run.error == NoError && run.diffPeriod == ""
    ensures run.rowsAdded == run.rowsUpdated == run.rowsDeleted == run.rowsSkipped == run.rowsTotal == 0
  {
  }

  lemma RecordFields(env: Surroundings, syncType: SyncType, trigger: Trigger, run: SyncRun)
    requires Closed(run, Fresh(env, syncType, trigger), env.finished)
    ensures run.id == env.runId && run.trigger == trigger && run.startedAt == env.start
    ensures run.finishedAt == Some(env.finished) && run.durationMs == env.finished - env.start
    ensures run.status == if run.error == NoError then Success else Failure
  {
  }
}

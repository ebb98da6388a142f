// internal/sync/applier.go:77-195: one full file and one month's diff applied to the table.
// Each method is tied to a relation between the contents before and after, one case per way of returning.

module Syncs {
  import opened Seqs
  import opened Addresses
  import opened Tables
  import opened AddressRepo
  import opened Batches
  import opened Parsing
  import opened Appliers

  type File = seq<Record>

  // What the applier gets of a file: the rows that pass the filter, the number of rows read, and whether the
  // file could be read to its end.
  datatype Stream = Stream(rows: seq<Address>, total: nat, readable: bool)

  function StreamOf(filter: TownFilter, file: File): Stream {
    Stream(Kept(filter, Parsed(file)), |Parsed(file)|, Readable(file))
  }

  // The filter looks at the town: a parsed row reaches the table's input exactly if its town does not match.
  lemma {:induction false} StreamKeeps(f: string -> bool, file: File)
    ensures forall a :: a in StreamOf(Matching(f), file).rows
                        <==> exists r :: r in Parsed(file) && r.addr == a && !f(a.town)
    ensures StreamOf(Matching(f), file).total == |Parsed(file)|
    ensures StreamOf(Matching(f), file).readable == Readable(file)
  {
    hide Parsed, Readable, Kept;
    RowsKept(f, Parsed(file));
  }

  lemma {:induction false} RowsKept(f: string -> bool, rows: seq<ParsedRow>)
    ensures forall a :: a in Kept(Matching(f), rows) <==> exists r :: r in rows && r.addr == a && !f(a.town)
  {
    if rows != [] {
      var init, last := rows[..|rows| - 1], rows[|rows| - 1];
      assert rows == init + [last];
      RowsKept(f, init);
      assert forall a ::
          a in Kept(Matching(f), rows) <==> a in Kept(Matching(f), init) || (a == last.addr && !f(a.town));
    }
  }

  lemma StreamTotal(filter: TownFilter, file: File)
    ensures StreamOf(filter, file).total == |Parsed(file)| && StreamOf(filter, file).readable == Readable(file)
  {
  }

  // Without a filter every parsed row is kept, in file order.
  lemma {:induction false} NoFilterKeeps(file: File)
    ensures StreamOf(NoFilter, file).rows
            == seq(|Parsed(file)|, i requires 0 <= i < |Parsed(file)| => Parsed(file)[i].addr)
    ensures StreamOf(NoFilter, file).total == |Parsed(file)| && StreamOf(NoFilter, file).readable == Readable(file)
  {
    hide Parsed, Readable, Kept;
    AllKept(Parsed(file));
  }

  lemma {:induction false} AllKept(rows: seq<ParsedRow>)
    ensures Kept(NoFilter, rows) == seq(|rows|, i requires 0 <= i < |rows| => rows[i].addr)
  {
    if rows != [] {
      AllKept(rows[..|rows| - 1]);
    }
  }

  // The audit of these rows: those whose town matches, each of them, with their lines in file order.
  ghost predicate AuditsMatching(opt: ApplyOptions, f: string -> bool, rows: seq<ParsedRow>, audit: seq<SkippedRow>) {
    && (forall s :: s in audit ==> exists r :: r in rows && f(r.addr.town) && AuditsRow(opt, s, r))
    && (forall r :: r in rows && f(r.addr.town) ==> exists s :: s in audit && AuditsRow(opt, s, r))
    && (forall i, j :: 0 <= i < j < |audit| ==> audit[i].line < audit[j].line)
  }

  lemma {:induction false} AuditExact(opt: ApplyOptions, f: string -> bool, file: File)
    requires opt.filter == Matching(f)
    ensures AuditsMatching(opt, f, Parsed(file), Audited(opt, Parsed(file)))
  {
    hide Audited, LinesAscend, AuditsMatching, RowsOf, FirstBad;
    RowsWellFormed(file[..FirstBad(file)]);
    RowsAudited(opt, f, Parsed(file));
  }

  lemma {:induction false} RowsAudited(opt: ApplyOptions, f: string -> bool, rows: seq<ParsedRow>)
    requires opt.filter == Matching(f) && LinesAscend(rows)
    ensures AuditsMatching(opt, f, rows, Audited(opt, rows))
  {
    if rows != [] {
      var init, last := rows[..|rows| - 1], rows[|rows| - 1];
      assert rows == init + [last];
      hide AuditsMatching, AuditRow;
      RowsAudited(opt, f, init);
      AuditedSnoc(opt, f, init, last, Audited(opt, init));
      assert Audited(opt, init) + [] == Audited(opt, init);
    }
  }

  lemma AuditedSnoc(opt: ApplyOptions, f: string -> bool, rows: seq<ParsedRow>, last: ParsedRow, audit: seq<SkippedRow>)
    requires AuditsMatching(opt, f, rows, audit) && forall r :: r in rows ==> r.line < last.line
    ensures AuditsMatching(opt, f, rows + [last], if f(last.addr.town) then audit + [AuditRow(opt, last)] else audit)
  {
    var all := rows + [last];
    var audits := if f(last.addr.town) then audit + [AuditRow(opt, last)] else audit;
    AuditedRow(opt, last);
    hide AuditRow;
    forall s | s in audits ensures exists r :: r in all && f(r.addr.town) && AuditsRow(opt, s, r) {
      if s in audit {
        var r :| r in rows && f(r.addr.town) && AuditsRow(opt, s, r);
        assert r in all;
      } else {
        assert last in all;
      }
    }
    forall r | r in all && f(r.addr.town) ensures exists s :: s in audits && AuditsRow(opt, s, r) {
      if r in rows {
        var s :| s in audit && AuditsRow(opt, s, r);
        assert s in audits;
      } else {
        assert AuditRow(opt, last) in audits;
      }
    }
    forall i | 0 <= i < |audit| ensures audit[i].line < last.line {
      assert audit[i] in audit;
      var r :| r in rows && f(r.addr.town) && AuditsRow(opt, audit[i], r);
    }
  }

  // The rows that are not kept, counted.
  lemma {:induction false} SkippedCounted(f: string -> bool, file: File)
    ensures |Parsed(file)| - |StreamOf(Matching(f), file).rows| == |set r | r in Parsed(file) && f(r.addr.town)|
  {
    hide Kept, LinesAscend, RowsOf, FirstBad;
    RowsWellFormed(file[..FirstBad(file)]);
    MatchingRows(f, Parsed(file));
  }

  lemma {:induction false} MatchingRows(f: string -> bool, rows: seq<ParsedRow>)
    requires LinesAscend(rows)
    ensures |rows| - |Kept(Matching(f), rows)| == |set r | r in rows && f(r.addr.town)|
  {
    if rows != [] {
      var init, last := rows[..|rows| - 1], rows[|rows| - 1];
      MatchingRows(f, init);
      assert rows == init + [last];
      assert forall r :: r in init ==> r.line < last.line;
      hide LinesAscend;
      OneMoreMatch(f, init, last);
    }
  }

  lemma OneMoreMatch(f: string -> bool, rows: seq<ParsedRow>, last: ParsedRow)
    requires last !in rows
    ensures |set r | r in rows + [last] && f(r.addr.town)|
            == |set r | r in rows && f(r.addr.town)| + if f(last.addr.town) then 1 else 0
  {
    var before, after := set r | r in rows && f(r.addr.town), set r | r in rows + [last] && f(r.addr.town);
    assert after == if f(last.addr.town) then before + {last} else before;
  }

  // The contents and counters once every row has been upserted in batches.
  function Upserts(m: AddressMap, rows: seq<Address>, size: nat): Progress
    requires 1 <= size
  {
    Chunked(Progress(m, 0, 0, 0), rows, size)
  }

  function Restricted(m: AddressMap, keys: set<AddressKey>): AddressMap {
    map k | k in m && k in keys :: m[k]
  }

  // A pruning that may have stopped half way.
  ghost predicate PartlyPruned(before: AddressMap, after: AddressMap, keep: set<AddressKey>) {
    && (forall k :: k in after ==> k in before && after[k] == before[k])
    && (forall k :: k in before && k in keep ==> k in after)
  }

  datatype FullJob = FullJob(input: Stream, size: nat, prune: bool, minRows: int)

  // What a full run may leave.
  ghost predicate FullStep(job: FullJob, before: AddressMap, after: AddressMap, outcome: Outcome)
    requires 1 <= job.size
  {
    var rows := job.input.rows;
    var upserts := Upserts(before, rows, job.size).m;
    var enough := job.input.total >= job.minRows;
    match outcome
    case Done =>
      && job.input.readable && (job.prune ==> enough)
      && after == if job.prune then Restricted(upserts, KeysOf(rows)) else upserts
    case TooFewRows =>
      job.input.readable && job.prune && !enough && after == upserts
    case PruneFailed =>
      job.input.readable && job.prune && enough && PartlyPruned(upserts, after, KeysOf(rows))
    case ReadFailed =>
      !job.input.readable && PartlyPut(before, after, rows)
    case AuditFailed => PartlyPut(before, after, rows)
    case RepoFailed => PartlyPut(before, after, rows)
  }

  // Added, updated, unchanged, deleted, skipped, total.
  function FullCounts(job: FullJob, before: AddressMap, after: AddressMap): (int, int, int, int, int, int)
    requires 1 <= job.size
  {
    var u := Upserts(before, job.input.rows, job.size);
    (u.added, u.updated, u.same, |u.m| - |after|, job.input.total - |job.input.rows|, job.input.total)
  }

  // The table holds the first n rows, in whole batches, and the counters tell of these; nothing else happened.
  ghost predicate StoppedAfter(before: AddressMap, rows: seq<Address>, size: nat, after: AddressMap, res: ApplyResult)
    requires 1 <= size
  {
    exists n: nat :: n <= |rows| && WholeBatches(n, size)
                     && Progress(after, res.added, res.updated, res.same) == Upserts(before, rows[..n], size)
  }

  // The counters of a full run, by the way it ends.
  ghost predicate FullTally(job: FullJob, before: AddressMap, after: AddressMap, outcome: Outcome, res: ApplyResult)
    requires 1 <= job.size
  {
    var u, skipped := Upserts(before, job.input.rows, job.size), job.input.total - |job.input.rows|;
    match outcome
    case Done => Counts(res) == FullCounts(job, before, after)
    case TooFewRows => Counts(res) == (u.added, u.updated, u.same, 0, skipped, job.input.total)
    case PruneFailed => Counts(res) == (u.added, u.updated, u.same, 0, skipped, job.input.total)
    case ReadFailed => res.skipped == skipped && Unfinished(job, before, after, res)
    case AuditFailed => Unfinished(job, before, after, res)
    case RepoFailed => Unfinished(job, before, after, res)
  }

  ghost predicate Unfinished(job: FullJob, before: AddressMap, after: AddressMap, res: ApplyResult)
    requires 1 <= job.size
  {
    && StoppedAfter(before, job.input.rows, job.size, after, res)
    && res.deleted == res.total == 0 && res.skipped <= job.input.total - |job.input.rows|
  }

  // A run that stops while loading has counted whole batches: the rows of the unfinished batch are in no counter.
  lemma StoppedCounts(before: AddressMap, rows: seq<Address>, size: nat, after: AddressMap, res: ApplyResult)
    requires 1 <= size && StoppedAfter(before, rows, size, after, res)
    ensures (res.added + res.updated + res.same) % size == 0 && res.added + res.updated + res.same <= |rows|
  {
    hide Chunked;
    var n: nat :| n <= |rows| && WholeBatches(n, size)
                  && Progress(after, res.added, res.updated, res.same) == Upserts(before, rows[..n], size);
    EveryRowCounted(Progress(before, 0, 0, 0), rows[..n], size);
    WholeMeans(n, size);
  }

  function Counts(res: ApplyResult): (int, int, int, int, int, int) {
    (res.added, res.updated, res.same, res.deleted, res.skipped, res.total)
  }

  // The audit holds the matching records in file order: all of them when the stream was read to its end
  // or to its first bad record and the sink never refused, else those handed over so far.
  ghost predicate AuditOf(opt: ApplyOptions, file: File, audit: seq<seq<SkippedRow>>, complete: bool) {
    && (forall b :: b in audit ==> 1 <= |b| <= 1000)
    && (!opt.hasSink ==> audit == [])
    && (opt.hasSink ==> Flatten(audit) <= Audited(opt, Parsed(file)))
    && (opt.hasSink && complete ==> Flatten(audit) == Audited(opt, Parsed(file)))
  }

  lemma {:induction false} RowsPrefix(opt: ApplyOptions, rows: seq<ParsedRow>, all: seq<ParsedRow>)
    requires rows <= all
    ensures Kept(opt.filter, rows) <= Kept(opt.filter, all) && Audited(opt, rows) <= Audited(opt, all)
    decreases |all|
  {
    hide Skips;
    if |rows| == |all| {
      assert rows == all;
    } else {
      RowsPrefix(opt, rows, all[..|all| - 1]);
    }
  }

  lemma AuditSoFar(opt: ApplyOptions, file: File, rows: seq<ParsedRow>, audit: seq<seq<SkippedRow>>,
                   skipped: seq<SkippedRow>)
    requires rows <= Parsed(file)
    requires forall b :: b in audit ==> 1 <= |b| <= AUDIT_BATCH
    requires !opt.hasSink ==> audit == []
    requires opt.hasSink ==> Flatten(audit) + skipped == Audited(opt, rows)
    ensures AuditOf(opt, file, audit, rows == Parsed(file) && skipped == [])
  {
    hide Parsed, Audited, Flatten;
    RowsPrefix(opt, rows, Parsed(file));
    assert Flatten(audit) <= Flatten(audit) + skipped;
  }

  lemma PruneExact(before: seq<Row>, after: seq<Row>, keep: set<AddressKey>)
    requires after == Filter(before, KeyIn(keep))
    ensures Contents(after) == Restricted(Contents(before), keep)
  {
    ContentsFilterKeep(before, keep);
  }

  lemma PrunePartial(before: seq<Row>, after: seq<Row>, keep: set<AddressKey>)
    requires ValidRows(before) && ValidRows(after) && OnlyStaleGone(before, after, keep)
    ensures PartlyPruned(Contents(before), Contents(after), keep)
  {
    ContentsKeys(before);
    ContentsKeys(after);
    forall k | k in Contents(after) ensures k in Contents(before) && Contents(after)[k] == Contents(before)[k] {
      var r :| r in after && r.addr.Key() == k;
      ContentsOf(after, r);
      ContentsOf(before, r);
    }
  }

  // What ApplyFull and the add half of ApplyDiff share: stream the file, then flush what is left in the batch.
  method Load(repo: AddressTable, file: File, size: nat, opt: ApplyOptions, tracking: bool, res0: ApplyResult)
    returns (res: ApplyResult, outcome: Outcome, seen: set<AddressKey>, audit: seq<seq<SkippedRow>>,
             ghost refused: bool)
    requires repo.Valid() && 1 <= size
    requires res0.added == res0.updated == res0.same == res0.skipped == 0
    modifies repo
    ensures repo.Valid()
    ensures outcome in {Done, ReadFailed, AuditFailed, RepoFailed}
    ensures var input := StreamOf(opt.filter, file);
            && PartlyPut(old(repo.Map()), repo.Map(), input.rows)
            && (outcome == Done ==>
                  && input.readable
                  && Progress(repo.Map(), res.added, res.updated, res.same)
                     == Upserts(old(repo.Map()), input.rows, size)
                  && (tracking ==> seen == KeysOf(input.rows))
                  && res.skipped == input.total - |input.rows|
                  && res.deleted == res0.deleted && res.total == res0.total + input.total)
            && (outcome == ReadFailed ==> !input.readable && res.skipped == input.total - |input.rows|)
            && (outcome != Done ==>
                  && StoppedAfter(old(repo.Map()), input.rows, size, repo.Map(), res)
                  && res.deleted == res0.deleted && res.total == res0.total
                  && res.skipped <= input.total - |input.rows|)
    ensures AuditOf(opt, file, audit, outcome == Done || (outcome == ReadFailed && !refused))
  {
    hide Judge, FirstBad, RowsOf, Readable, Chunked, BatchStep, Kept, Audited, Flatten, KeysOf, ValidRows, Contents;
    hide WholeBatches;
    ghost var before := repo.Map();
    var ap := new Applier(repo, opt, size, tracking, res0);
    var total;
    outcome, total := ap.Consume(file);
    RowsPrefix(opt, ap.rows, Parsed(file));
    AuditSoFar(opt, file, ap.rows, ap.audit, ap.skipped);
    if outcome == Done {
      var ok := ap.Flush();
      outcome := if ok then Done else RepoFailed;
    }
    ghost var all := StreamOf(opt.filter, file).rows;
    PartlyMore(before, repo.Map(), ap.kept, all);
    KeptAndAudited(opt, Parsed(file));
    if outcome != Done {
      assert ap.flushed == all[..|ap.flushed|];
    }
    res, seen, audit, refused := ap.res, ap.seen, ap.audit, ap.refused;
    if outcome == Done {
      res := res.(total := res.total + total);
    }
  }

  method ApplyFull(repo: AddressTable, file: File, batchSize: int, prune: bool, minRows: int, opt: ApplyOptions)
    returns (res: ApplyResult, outcome: Outcome, audit: seq<seq<SkippedRow>>, ghost refused: bool)
    requires repo.Valid()
    modifies repo
    ensures repo.Valid()
    ensures FullStep(FullJob(StreamOf(opt.filter, file), BatchSize(batchSize), prune, minRows), old(repo.Map()),
                     repo.Map(), outcome)
    ensures FullTally(FullJob(StreamOf(opt.filter, file), BatchSize(batchSize), prune, minRows), old(repo.Map()),
                      repo.Map(), outcome, res)
    ensures AuditOf(opt, file, audit, outcome in {Done, TooFewRows, PruneFailed} || (outcome == ReadFailed && !refused))
    ensures outcome in {Done, TooFewRows, PruneFailed} ==> res.total == |Parsed(file)|
    ensures outcome == TooFewRows ==> prune && res.total < minRows
    ensures prune && outcome in {Done, PruneFailed} ==> res.total >= minRows
    ensures !prune || outcome != Done ==> res.deleted == 0
  {
    hide StreamOf, Parsed, Readable, Kept, Chunked, WholeBatches, AuditOf, PartlyPut, KeysOf, ValidRows, Contents;
    hide Filter;
    var seen;
    res, outcome, seen, audit, refused := Load(repo, file, BatchSize(batchSize), opt, prune, NO_RESULT);
    StreamTotal(opt.filter, file);
    if outcome != Done {
      return;
    }
    if prune {
      if res.total < minRows {
        outcome := TooFewRows;
        return;
      }
      ghost var rows := repo.rows;
      var ok, deleted := repo.DeleteNotIn(seen, ADDRESS_PRUNE_SCAN_CHUNK);
      if !ok {
        PrunePartial(rows, repo.rows, seen);
        outcome := PruneFailed;
        return;
      }
      PruneExact(rows, repo.rows, seen);
      ContentsSize(rows);
      ContentsSize(repo.rows);
      res := res.(deleted := deleted);
    }
  }

  // ----- One month's diff -----

  function DelKeys(file: File): seq<AddressKey> {
    RowKeys(Parsed(file))
  }

  function RowKeys(rows: seq<ParsedRow>): seq<AddressKey> {
    if rows == [] then [] else RowKeys(rows[..|rows| - 1]) + [rows[|rows| - 1].addr.Key()]
  }

  // An abolished file: the keys of its rows, none filtered out.
  datatype Listing = Listing(keys: seq<AddressKey>, readable: bool)

  function ListingOf(file: File): Listing {
    Listing(DelKeys(file), Readable(file))
  }

  // No filter looks at the abolished rows: each of them is listed, in file order.
  lemma {:induction false} ListingKeepsAll(file: File)
    ensures ListingOf(file).keys
            == seq(|Parsed(file)|, i requires 0 <= i < |Parsed(file)| => Parsed(file)[i].addr.Key())
    ensures ListingOf(file).readable == Readable(file)
  {
    hide Parsed, Readable;
    KeysInOrder(Parsed(file));
  }

  lemma {:induction false} KeysInOrder(rows: seq<ParsedRow>)
    ensures RowKeys(rows) == seq(|rows|, i requires 0 <= i < |rows| => rows[i].addr.Key())
  {
    if rows != [] {
      KeysInOrder(rows[..|rows| - 1]);
    }
  }

  datatype DiffJob = DiffJob(add: Option<Stream>, del: Option<Listing>, size: nat)

  function DiffJobOf(filter: TownFilter, add: Option<File>, del: Option<File>, size: nat): DiffJob {
    DiffJob(if add.Some? then Some(StreamOf(filter, add.value)) else None,
            if del.Some? then Some(ListingOf(del.value)) else None,
            size)
  }

  function Removed(job: DiffJob): set<AddressKey> {
    if job.del.Some? then Elems(job.del.value.keys) else {}
  }

  function Added(job: DiffJob): seq<Address> {
    if job.add.Some? then job.add.value.rows else []
  }

  predicate BothReadable(job: DiffJob) {
    (job.del.Some? ==> job.del.value.readable) && (job.add.Some? ==> job.add.value.readable)
  }

  // Delete first, then upsert.
  function DiffEffect(m: AddressMap, job: DiffJob): Progress
    requires 1 <= job.size
  {
    Chunked(Progress(m - Removed(job), 0, 0, 0), Added(job), job.size)
  }

  // Only the listed keys may be gone; every entry is an old one or one of the rows.
  ghost predicate Within(before: AddressMap, after: AddressMap, gone: set<AddressKey>, rows: seq<Address>) {
    && (forall k :: k in before && k !in gone ==> k in after)
    && (forall k :: k in after ==> (k in before && after[k] == before[k]) || (after[k] in rows && after[k].Key() == k))
  }

  ghost predicate DiffStep(job: DiffJob, before: AddressMap, after: AddressMap, outcome: Outcome)
    requires 1 <= job.size
  {
    match outcome
    case Done => BothReadable(job) && after == DiffEffect(before, job).m
    case ReadFailed => !BothReadable(job) && Within(before, after, Removed(job), Added(job))
    case AuditFailed => Within(before, after, Removed(job), Added(job))
    case RepoFailed => Within(before, after, Removed(job), Added(job))
    case TooFewRows => false
    case PruneFailed => false
  }

  function DiffCounts(job: DiffJob, before: AddressMap): (int, int, int, int, int, int)
    requires 1 <= job.size
  {
    var p := DiffEffect(before, job);
    (p.added, p.updated, p.same, |before| - |before - Removed(job)|,
     if job.add.Some? then job.add.value.total - |job.add.value.rows| else 0,
     (if job.del.Some? then |job.del.value.keys| else 0) + if job.add.Some? then job.add.value.total else 0)
  }

  lemma RowKeysStep(rows: seq<ParsedRow>, r: ParsedRow)
    ensures RowKeys(rows + [r]) == RowKeys(rows) + [r.addr.Key()]
  {
    assert (rows + [r])[..|rows|] == rows;
  }

  // ParseStream collecting keys; the skip filter does not apply to the abolished file.
  method CollectKeys(file: File) returns (ok: bool, keys: seq<AddressKey>, n: nat)
    ensures ok <==> Readable(file)
    ensures ok ==> keys == DelKeys(file) && n == |keys|
  {
    hide Judge, RowsOf;
    keys, n := [], 0;
    ghost var rows: seq<ParsedRow> := [];
    NoRows();
    assert file[..0] == [];
    for line := 0 to |file|
      invariant forall j :: 0 <= j < line ==> !Judge(file[j]).Bad?
      invariant rows == RowsOf(file[..line]) && keys == RowKeys(rows) && n == |keys|
    {
      var v := JudgeRecord(file[line]);
      RowsOfStep(file, line);
      if v.Bad? {
        ParsedUpTo(file, line, true);
        return false, keys, n;
      }
      if v.Good? {
        RowKeysStep(rows, ParsedRow(v.addr, v.cols, line + 1));
        rows := rows + [ParsedRow(v.addr, v.cols, line + 1)];
        keys := keys + [v.addr.Key()];
        n := n + 1;
      }
    }
    ParsedUpTo(file, |file|, false);
    ok := true;
  }

  lemma RemovedThenPut(before: AddressMap, gone: set<AddressKey>, after: AddressMap, rows: seq<Address>)
    requires PartlyPut(before - gone, after, rows)
    ensures Within(before, after, gone, rows)
  {
  }

  lemma RemovedOnly(before: AddressMap, gone: set<AddressKey>, all: set<AddressKey>, rows: seq<Address>)
    requires gone <= all
    ensures Within(before, before - gone, all, rows)
  {
  }

  // The delete half: the whole abolished file is read before the first row goes.
  method RemoveAbolished(repo: AddressTable, del: File)
    returns (outcome: Outcome, deleted: nat, n: nat, ghost gone: set<AddressKey>)
    requires repo.Valid()
    modifies repo
    ensures repo.Valid()
    ensures outcome in {Done, ReadFailed, RepoFailed}
    ensures gone <= Elems(DelKeys(del)) && repo.Map() == old(repo.Map()) - gone
    ensures outcome == Done ==>
              && Readable(del) && gone == Elems(DelKeys(del))
              && deleted == |old(repo.Map())| - |repo.Map()| && n == |DelKeys(del)|
    ensures outcome == ReadFailed ==> !Readable(del)
  {
    hide Parsed, Readable, ValidRows, Contents, Elems, RowKeys;
    var ok, keys;
    ok, keys, n := CollectKeys(del);
    deleted, gone := 0, {};
    if !ok {
      outcome := ReadFailed;
      return;
    }
    ghost var rows0 := repo.rows;
    ghost var done;
    ok, deleted, done := repo.DeleteByKeys(keys, ADDRESS_KEY_DELETE_CHUNK);
    gone := Elems(keys[..done]);
    ElemsPrefix(keys, done);
    if !ok {
      outcome := RepoFailed;
      return;
    }
    assert keys[..done] == keys;
    ContentsSize(rows0);
    ContentsSize(repo.rows);
    outcome := Done;
  }

  method ApplyDiff(repo: AddressTable, add: Option<File>, del: Option<File>, batchSize: int, opt: ApplyOptions)
    returns (res: ApplyResult, outcome: Outcome, audit: seq<seq<SkippedRow>>, ghost refused: bool)
    requires repo.Valid()
    modifies repo
    ensures repo.Valid()
    ensures DiffStep(DiffJobOf(opt.filter, add, del, BatchSize(batchSize)), old(repo.Map()), repo.Map(), outcome)
    ensures outcome == Done ==>
              Counts(res) == DiffCounts(DiffJobOf(opt.filter, add, del, BatchSize(batchSize)), old(repo.Map()))
    ensures add.None? ==> audit == []
    ensures add.Some? ==>
              AuditOf(opt.(sourceType := if opt.sourceType == "" then "add" else opt.sourceType), add.value, audit,
                      outcome == Done || (outcome == ReadFailed && !refused && (del.Some? ==> Readable(del.value))))
  {
    hide StreamOf, Chunked, AuditOf, PartlyPut, Within, DelKeys, Readable, ValidRows, Contents, Elems, DiffStep;
    hide DiffCounts, Upserts, KeysOf;
    var addOpt := opt.(sourceType := if opt.sourceType == "" then "add" else opt.sourceType);
    ghost var job := DiffJobOf(opt.filter, add, del, BatchSize(batchSize));
    ghost var before := repo.Map();
    res, audit, refused := NO_RESULT, [], false;
    ghost var removed: set<AddressKey> := {};
    NothingAudited(addOpt, add);
    if del.Some? {
      var deleted, n;
      outcome, deleted, n, removed := RemoveAbolished(repo, del.value);
      if outcome != Done {
        DeletionStops(job, before, removed, outcome);
        return;
      }
      res := res.(deleted := deleted, total := res.total + n);
    }
    assert removed == Removed(job) && repo.Map() == before - removed;
    if add.Some? {
      var seen;
      res, outcome, seen, audit, refused := Load(repo, add.value, BatchSize(batchSize), addOpt, false, res);
      if outcome != Done {
        LoadingStops(job, before, repo.Map(), outcome);
        return;
      }
    } else {
      NoBatches(Progress(repo.Map(), 0, 0, 0), BatchSize(batchSize));
      outcome := Done;
    }
    DiffFinishes(job, before, repo.Map(), res);
  }

  lemma DeletionStops(job: DiffJob, before: AddressMap, gone: set<AddressKey>, outcome: Outcome)
    requires 1 <= job.size && job.del.Some? && gone <= Removed(job)
    requires outcome == RepoFailed || (outcome == ReadFailed && !job.del.value.readable)
    ensures DiffStep(job, before, before - gone, outcome)
  {
    hide Removed, Added;
    RemovedOnly(before, gone, Removed(job), Added(job));
  }

  lemma LoadingStops(job: DiffJob, before: AddressMap, after: AddressMap, outcome: Outcome)
    requires 1 <= job.size && job.add.Some? && PartlyPut(before - Removed(job), after, job.add.value.rows)
    requires outcome in {RepoFailed, AuditFailed} || (outcome == ReadFailed && !job.add.value.readable)
    ensures DiffStep(job, before, after, outcome)
  {
    hide Removed, PartlyPut;
    RemovedThenPut(before, Removed(job), after, Added(job));
  }

  lemma DiffFinishes(job: DiffJob, before: AddressMap, after: AddressMap, res: ApplyResult)
    requires 1 <= job.size && BothReadable(job)
    requires Progress(after, res.added, res.updated, res.same)
             == if job.add.Some? then Upserts(before - Removed(job), job.add.value.rows, job.size)
                else Progress(before - Removed(job), 0, 0, 0)
    requires res.deleted == |before| - |before - Removed(job)|
    requires res.skipped == if job.add.Some? then job.add.value.total - |job.add.value.rows| else 0
    requires res.total
             == (if job.del.Some? then |job.del.value.keys| else 0) + if job.add.Some? then job.add.value.total else 0
    ensures DiffStep(job, before, after, Done) && Counts(res) == DiffCounts(job, before)
  {
    hide Removed, Chunked, Within;
    NoBatches(Progress(before - Removed(job), 0, 0, 0), job.size);
  }

  lemma NoBatches(p: Progress, size: nat)
    requires 1 <= size
    ensures Chunked(p, [], size) == p
  {
  }

  lemma NothingAudited(opt: ApplyOptions, add: Option<File>)
    ensures add.Some? ==> AuditOf(opt, add.value, [], false)
  {
    assert Flatten<SkippedRow>([]) == [];
  }

  lemma ElemsPrefix(keys: seq<AddressKey>, n: nat)
    requires n <= |keys|
    ensures Elems(keys[..n]) <= Elems(keys)
  {
  }
}

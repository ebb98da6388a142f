// internal/sync/applier.go: streaming a file through the skip filter, the audit sink and the batches.
// The callbacks handed to the parser are methods of one object that owns the closures' variables.

module Appliers {
  import opened Seqs
  import opened Addresses
  import opened Tables
  import opened AddressRepo
  import opened Batches
  import opened Parsing

  // A nil regexp, or a compiled one as the predicate it decides.
  datatype TownFilter = NoFilter | Matching(matches: string -> bool)

  datatype ApplyOptions = ApplyOptions(
    filter: TownFilter, pattern: string, sourceType: string, runId: string, skippedAt: int, hasSink: bool)

  datatype SkippedRow = SkippedRow(
    runId: string, sourceType: string, line: nat,
    zipcode: string, jisCode: string, prefecture: string, city: string, town: string, townKana: string,
    reason: string, pattern: string, record: seq<string>, createdAt: int)

  datatype ApplyResult = ApplyResult(added: nat, updated: nat, same: nat, deleted: nat, skipped: nat, total: nat)

  const NO_RESULT := ApplyResult(0, 0, 0, 0, 0, 0)

  datatype Outcome = Done | ReadFailed | AuditFailed | RepoFailed | TooFewRows | PruneFailed

  const DEFAULT_BATCH: nat := 1000
  const AUDIT_BATCH: nat := 1000

  function BatchSize(requested: int): nat {
    if requested <= 0 then DEFAULT_BATCH else requested
  }

  predicate Skips(filter: TownFilter, row: ParsedRow) {
    filter.Matching? && filter.matches(row.addr.town)
  }

  function AuditRow(opt: ApplyOptions, row: ParsedRow): SkippedRow {
    SkippedRow(opt.runId, if opt.sourceType == "" then "full" else opt.sourceType, row.line,
               row.addr.zipcode, row.addr.jisCode, row.addr.prefecture, row.addr.city, row.addr.town, row.addr.townKana,
               "town_regex", opt.pattern, row.record, opt.skippedAt)
  }

  // What the audit says of a skipped row: which run and which kind of file skipped it, where it stood, what it was,
  // and why.
  ghost predicate AuditsRow(opt: ApplyOptions, s: SkippedRow, row: ParsedRow) {
    && s.runId == opt.runId && s.createdAt == opt.skippedAt && s.reason == "town_regex" && s.pattern == opt.pattern
    && s.sourceType == (if opt.sourceType == "" then "full" else opt.sourceType)
    && s.line == row.line && s.record == row.record
    && s.zipcode == row.addr.zipcode && s.jisCode == row.addr.jisCode
    && s.prefecture == row.addr.prefecture && s.city == row.addr.city
    && s.town == row.addr.town && s.townKana == row.addr.townKana
  }

  lemma AuditedRow(opt: ApplyOptions, row: ParsedRow)
    ensures AuditsRow(opt, AuditRow(opt, row), row)
  {
  }

  // The rows that reach the applier, and the rows that reach the audit, in file order.
  function Kept(filter: TownFilter, rows: seq<ParsedRow>): seq<Address> {
    if rows == [] then [] else
      Kept(filter, rows[..|rows| - 1]) + if Skips(filter, rows[|rows| - 1]) then [] else [rows[|rows| - 1].addr]
  }

  function Audited(opt: ApplyOptions, rows: seq<ParsedRow>): seq<SkippedRow> {
    if rows == [] then [] else
      var last := rows[|rows| - 1];
      Audited(opt, rows[..|rows| - 1]) + if Skips(opt.filter, last) then [AuditRow(opt, last)] else []
  }

  lemma KeptAndAudited(opt: ApplyOptions, rows: seq<ParsedRow>)
    ensures |Kept(opt.filter, rows)| + |Audited(opt, rows)| == |rows|
  {
    if rows != [] {
      KeptAndAudited(opt, rows[..|rows| - 1]);
    }
  }

  // The filter partitions the rows: row i goes to exactly one of the two lists, as the next of its kind, to the audit
  // exactly if its town matches; the positions before it account for the rows before it.
  lemma {:induction false} FilterPartitions(opt: ApplyOptions, rows: seq<ParsedRow>, i: nat)
    requires i < |rows|
    ensures var k, s := |Kept(opt.filter, rows[..i])|, |Audited(opt, rows[..i])|;
            && k + s == i
            && Kept(opt.filter, rows[..i]) <= Kept(opt.filter, rows) && Audited(opt, rows[..i]) <= Audited(opt, rows)
            && (if opt.filter.Matching? && opt.filter.matches(rows[i].addr.town)
                then s < |Audited(opt, rows)| && AuditsRow(opt, Audited(opt, rows)[s], rows[i])
                     && Kept(opt.filter, rows[..i + 1]) == Kept(opt.filter, rows[..i])
                else k < |Kept(opt.filter, rows)| && Kept(opt.filter, rows)[k] == rows[i].addr
                     && Audited(opt, rows[..i + 1]) == Audited(opt, rows[..i]))
  {
    hide AuditsRow;
    AuditedRow(opt, rows[i]);
    hide AuditRow;
    assert rows[..i + 1] == rows[..i] + [rows[i]];
    KeptAndAudited(opt, rows[..i]);
    SnocRow(opt, rows[..i], rows[i]);
    PrefixesGrow(opt, rows, i);
    PrefixesGrow(opt, rows, i + 1);
  }

  lemma {:induction false} PrefixesGrow(opt: ApplyOptions, rows: seq<ParsedRow>, i: nat)
    requires i <= |rows|
    ensures Kept(opt.filter, rows[..i]) <= Kept(opt.filter, rows) && Audited(opt, rows[..i]) <= Audited(opt, rows)
    decreases |rows| - i
  {
    hide Skips, AuditRow;
    if i == |rows| {
      assert rows[..i] == rows;
    } else {
      PrefixesGrow(opt, rows, i + 1);
      assert rows[..i + 1] == rows[..i] + [rows[i]];
      SnocRow(opt, rows[..i], rows[i]);
    }
  }

  lemma SnocRow(opt: ApplyOptions, rows: seq<ParsedRow>, row: ParsedRow)
    ensures Kept(opt.filter, rows + [row]) == Kept(opt.filter, rows) + if Skips(opt.filter, row) then [] else [row.addr]
    ensures Audited(opt, rows + [row])
            == Audited(opt, rows) + if Skips(opt.filter, row) then [AuditRow(opt, row)] else []
  {
    assert (rows + [row])[..|rows|] == rows;
  }

  // The table may have gained or replaced entries, each by one of the rows; it has lost none.
  ghost predicate PartlyPut(before: AddressMap, after: AddressMap, rows: seq<Address>) {
    && before.Keys <= after.Keys
    && forall k :: k in after ==> (k in before && after[k] == before[k]) || (after[k] in rows && after[k].Key() == k)
  }

  lemma PartlyTrans(a: AddressMap, b: AddressMap, c: AddressMap, xs: seq<Address>, ys: seq<Address>, rows: seq<Address>)
    requires PartlyPut(a, b, xs) && PartlyPut(b, c, ys)
    requires forall x :: x in xs || x in ys ==> x in rows
    ensures PartlyPut(a, c, rows)
  {
  }

  lemma {:induction false} PutAllPartly(m: AddressMap, rows: seq<Address>)
    ensures PartlyPut(m, PutAll(m, rows), rows)
  {
    if rows != [] {
      var n := |rows| - 1;
      assert rows == rows[..n] + [rows[n]];
      PutAllPartly(m, rows[..n]);
      var mid := PutAll(m, rows[..n]);
      assert PartlyPut(mid, mid[rows[n].Key() := rows[n]], [rows[n]]);
      PartlyTrans(m, mid, PutAll(m, rows), rows[..n], [rows[n]], rows);
    }
  }

  lemma {:induction false} ChunkedPartly(p: Progress, rows: seq<Address>, size: nat)
    requires 1 <= size
    ensures PartlyPut(p.m, Chunked(p, rows, size).m, rows)
    decreases |rows|
  {
    hide PutAll, Filter;
    if rows != [] {
      var n := Min(size, |rows|);
      assert rows == rows[..n] + rows[n..];
      var written := Filter(rows[..n], NeedsWrite(p.m));
      FilterMembers(rows[..n], NeedsWrite(p.m));
      PutAllPartly(p.m, written);
      ChunkedPartly(BatchStep(p, rows[..n]), rows[n..], size);
      PartlyTrans(p.m, BatchStep(p, rows[..n]).m, Chunked(p, rows, size).m, written, rows[n..], rows);
    } else {
      assert Chunked(p, rows, size) == p;
    }
  }

  // One flush: the rows still in the batch complete what the earlier full batches have done.
  lemma FlushCompletes(p: Progress, done: seq<Address>, batch: seq<Address>, size: nat)
    requires 1 <= size && WholeBatches(|done|, size) && |batch| <= size
    ensures Chunked(p, done + batch, size) == BatchStep(Chunked(p, done, size), batch)
  {
    hide BatchStep;
    EmptyStep(Chunked(p, done, size));
    if batch == [] {
      assert done + batch == done;
    } else {
      ChunkedAppend(p, done, batch, size);
      OneChunk(Chunked(p, done, size), batch, size);
    }
  }

  lemma ChangedRows(m: AddressMap, batch: seq<Address>, i: nat)
    requires i < |batch|
    ensures Filter(batch[..i + 1], NeedsWrite(m))
            == Filter(batch[..i], NeedsWrite(m)) + if NeedsWrite(m)(batch[i]) then [batch[i]] else []
    ensures Filter(batch[..i + 1], IsNew(m))
            == Filter(batch[..i], IsNew(m)) + if IsNew(m)(batch[i]) then [batch[i]] else []
    ensures Filter(batch[..i + 1], IsStale(m))
            == Filter(batch[..i], IsStale(m)) + if IsStale(m)(batch[i]) then [batch[i]] else []
    ensures Filter(batch[..i + 1], IsCurrent(m))
            == Filter(batch[..i], IsCurrent(m)) + if IsCurrent(m)(batch[i]) then [batch[i]] else []
  {
    FilterStep(batch, i, NeedsWrite(m));
    FilterStep(batch, i, IsNew(m));
    FilterStep(batch, i, IsStale(m));
    FilterStep(batch, i, IsCurrent(m));
  }

  // Comparing with the hashes of the batch's zipcodes is comparing with the table.
  method Classify(ghost m: AddressMap, existing: map<AddressKey, string>, batch: seq<Address>)
    returns (changed: seq<Address>, added: nat, updated: nat, same: nat)
    requires forall a :: a in batch ==>
               (a.Key() in existing <==> a.Key() in m) && (a.Key() in m ==> existing[a.Key()] == m[a.Key()].sourceHash)
    ensures changed == Filter(batch, NeedsWrite(m))
    ensures added == |Filter(batch, IsNew(m))| && updated == |Filter(batch, IsStale(m))|
            && same == |Filter(batch, IsCurrent(m))|
  {
    hide Filter;
    changed, added, updated, same := [], 0, 0, 0;
    assert batch[..0] == [];
    EmptyFilters(m);
    for i := 0 to |batch|
      invariant changed == Filter(batch[..i], NeedsWrite(m))
      invariant added == |Filter(batch[..i], IsNew(m))| && updated == |Filter(batch[..i], IsStale(m))|
                && same == |Filter(batch[..i], IsCurrent(m))|
    {
      ChangedRows(m, batch, i);
      assert batch[i] in batch;
      var k := batch[i].Key();
      if k !in existing {
        added := added + 1;
        changed := changed + [batch[i]];
      } else if existing[k] != batch[i].sourceHash {
        updated := updated + 1;
        changed := changed + [batch[i]];
      } else {
        same := same + 1;
      }
    }
    assert batch[..|batch|] == batch;
  }

  lemma EmptyFilters(m: AddressMap)
    ensures Filter([], NeedsWrite(m)) == Filter([], IsNew(m)) == []
    ensures Filter([], IsStale(m)) == Filter([], IsCurrent(m)) == []
  {
  }

  method ApplyBatch(repo: AddressTable, batch: seq<Address>) returns (ok: bool, added: nat, updated: nat, same: nat)
    requires repo.Valid()
    modifies repo
    ensures repo.Valid()
    ensures ok ==> Progress(repo.Map(), added, updated, same) == BatchStep(Progress(old(repo.Map()), 0, 0, 0), batch)
    ensures !ok ==> repo.Map() == old(repo.Map())
    ensures PartlyPut(old(repo.Map()), repo.Map(), batch)
  {
    hide Filter, ValidRows, PutAll, Contents;
    added, updated, same := 0, 0, 0;
    ghost var m := repo.Map();
    if |batch| == 0 {
      EmptyStep(Progress(m, 0, 0, 0));
      return true, 0, 0, 0;
    }
    var zips: seq<string> := [];
    for i := 0 to |batch|
      invariant |zips| == i && forall j :: 0 <= j < i ==> zips[j] == batch[j].zipcode
    {
      zips := zips + [batch[i].zipcode];
    }
    forall a | a in batch ensures a.zipcode in Elems(zips) {
      var i :| 0 <= i < |batch| && batch[i] == a;
      assert zips[i] == a.zipcode;
    }
    var existing;
    ok, existing := repo.ExistingHashes(zips);
    if !ok {
      return;
    }
    var changed, a, u, n := Classify(m, existing, batch);
    FilterMembers(batch, NeedsWrite(m));
    ok := repo.UpsertBatch(changed);
    PutAllPartly(m, changed);
    PartlyTrans(m, m, repo.Map(), [], changed, batch);
    if !ok {
      return;
    }
    added, updated, same := a, u, n;
  }

  class Applier {
    const repo: AddressTable
    const opt: ApplyOptions
    const size: nat
    const tracking: bool
    var res: ApplyResult
    var batch: seq<Address>
    var seen: set<AddressKey>
    var skipped: seq<SkippedRow>
    var audit: seq<seq<SkippedRow>>
    ghost var refused: bool  // the sink has returned an error
    ghost var rows: seq<ParsedRow>
    ghost var kept: seq<Address>
    ghost var flushed: seq<Address>  // the kept rows that successful flushes have taken
    ghost const start: AddressMap

    constructor (repo: AddressTable, opt: ApplyOptions, size: nat, tracking: bool, res: ApplyResult)
      requires repo.Valid() && 1 <= size
      requires res.added == res.updated == res.same == res.skipped == 0
      ensures this.repo == repo && this.opt == opt && this.size == size && this.tracking == tracking && this.res == res
      ensures start == repo.Map() && Sound() && AtBoundary() && rows == [] && skipped == [] && audit == [] && !refused
    {
      this.repo, this.opt, this.size, this.tracking, this.res := repo, opt, size, tracking, res;
      batch, seen, skipped, audit := [], {}, [], [];
      refused, rows, kept, flushed := false, [], [], [];
      start := repo.Map();
      new;
      assert Chunked(Progress(start, 0, 0, 0), [], size) == Progress(start, 0, 0, 0);
      ChunkedPartly(Progress(start, 0, 0, 0), [], size);
    }

    // What holds after every step, whether or not it failed.
    ghost predicate Sound()
      reads this, repo
    {
      && 1 <= size
      && repo.Valid()
      && PartlyPut(start, repo.Map(), kept)
      && kept == Kept(opt.filter, rows)
      && kept == flushed + batch
      && Progress(repo.Map(), res.added, res.updated, res.same) == Chunked(Progress(start, 0, 0, 0), flushed, size)
      && (tracking ==> seen == KeysOf(kept))
      && res.skipped == |Audited(opt, rows)|
      && (opt.hasSink ==> Flatten(audit) + skipped == Audited(opt, rows))
      && (!opt.hasSink ==> audit == [])
      && |skipped| <= AUDIT_BATCH
      && forall b :: b in audit ==> 1 <= |b| <= AUDIT_BATCH
    }

    // Only full batches have been flushed, and the current one has room.
    ghost predicate AtBoundary()
      reads this
    {
      1 <= size && WholeBatches(|flushed|, size) && |batch| < size
    }

    // The batch may also be full: what a flush finds, and what a failed one leaves.
    ghost predicate Pending()
      reads this
    {
      1 <= size && WholeBatches(|flushed|, size) && |batch| <= size
    }

    method Flush() returns (ok: bool)
      requires Sound() && Pending()
      modifies this`res, this`batch, this`flushed, repo
      ensures Sound()
      ensures res.(added := 0, updated := 0, same := 0) == old(res).(added := 0, updated := 0, same := 0)
      ensures ok ==> batch == [] && flushed == kept
      ensures !ok ==> Pending()
    {
      hide Chunked, BatchStep, Kept, Audited, Flatten, KeysOf, ValidRows, Contents, WholeBatches;
      ghost var p := Progress(repo.Map(), res.added, res.updated, res.same);
      var a, u, n;
      ok, a, u, n := ApplyBatch(repo, batch);
      PartlyTrans(start, p.m, repo.Map(), kept, batch, kept);
      if !ok {
        return;
      }
      FlushCompletes(Progress(start, 0, 0, 0), flushed, batch, size);
      StepShift(p, p.m, batch);
      res := res.(added := res.added + a, updated := res.updated + u, same := res.same + n);
      flushed, batch := kept, [];
      assert flushed + [] == flushed;
    }

    method Take(row: ParsedRow)
      requires Sound() && AtBoundary() && !Skips(opt.filter, row)
      modifies this`batch, this`seen, this`rows, this`kept
      ensures Sound() && Pending() && rows == old(rows) + [row]
      ensures |batch| == size ==> WholeBatches(|kept|, size)
    {
      hide Chunked, BatchStep, Kept, Audited, Flatten, KeysOf, PartlyPut, WholeBatches, Skips, AuditRow;
      hide AddressTable.Valid, AddressTable.Map;
      ghost var kept1 := kept + [row.addr];
      SnocRow(opt, rows, row);
      PartlyMore(start, repo.Map(), kept, kept1);
      KeysOfLast(kept, row.addr);
      assert kept1 == flushed + (batch + [row.addr]);
      WholeMore(|flushed|, size);
      if tracking {
        seen := seen + {row.addr.Key()};
      }
      rows, kept := rows + [row], kept1;
      batch := batch + [row.addr];
    }

    // The closure handed to the parser by ApplyFull and by the add half of ApplyDiff.
    method Emit(row: ParsedRow) returns (ok: bool)
      requires Sound() && AtBoundary() && !Skips(opt.filter, row)
      modifies this`res, this`batch, this`flushed, this`seen, this`rows, this`kept, repo
      ensures Sound() && rows == old(rows) + [row]
      ensures res.(added := 0, updated := 0, same := 0) == old(res).(added := 0, updated := 0, same := 0)
      ensures if ok then AtBoundary() else Pending()
    {
      hide Sound, WholeBatches;
      Take(row);
      ok := true;
      if |batch| >= size {
        ok := Flush();
      }
    }

    // One row of the record loop: filter, audit, apply.
    method Handle(row: ParsedRow) returns (outcome: Outcome)
      requires Sound() && AtBoundary() && |skipped| < AUDIT_BATCH && !refused
      modifies this`res, this`batch, this`seen, this`skipped, this`audit, this`refused
      modifies this`rows, this`kept, this`flushed, repo
      ensures Sound() && rows == old(rows) + [row]
      ensures res.(added := 0, updated := 0, same := 0, skipped := 0)
              == old(res).(added := 0, updated := 0, same := 0, skipped := 0)
      ensures Pending() && (outcome == Done ==> AtBoundary() && |skipped| < AUDIT_BATCH && !refused)
      ensures outcome in {Done, AuditFailed, RepoFailed}
      ensures outcome == AuditFailed <==> refused
    {
      hide Sound, Skips, WholeBatches;
      var ok;
      if Skips(opt.filter, row) {
        ok := Skip(row);
        outcome := if ok then Done else AuditFailed;
      } else {
        ok := Emit(row);
        outcome := if ok then Done else RepoFailed;
      }
    }

    method FlushSkipped() returns (ok: bool)
      requires Sound()
      modifies this`skipped, this`audit, this`refused
      ensures Sound()
      ensures (old(AtBoundary()) ==> AtBoundary()) && (old(Pending()) ==> Pending())
      ensures ok ==> skipped == [] && refused == old(refused)
      ensures !ok ==> skipped == old(skipped) && refused
    {
      hide Chunked, Kept, Audited, KeysOf, ValidRows, Contents, PartlyPut, Flatten;
      if |skipped| == 0 || !opt.hasSink {
        skipped := [];
        return true;
      }
      ok := *;
      if ok {
        FlattenSnoc(audit, skipped);
        audit := audit + [skipped];
        skipped := [];
        assert Flatten(audit) + [] == Flatten(audit);
      } else {
        refused := true;
      }
    }

    method Skip(row: ParsedRow) returns (ok: bool)
      requires Sound() && AtBoundary() && Skips(opt.filter, row) && |skipped| < AUDIT_BATCH
      modifies this`res, this`skipped, this`audit, this`rows, this`refused
      ensures Sound() && AtBoundary() && rows == old(rows) + [row]
      ensures res == old(res).(skipped := res.skipped)
      ensures ok ==> |skipped| < AUDIT_BATCH && refused == old(refused)
      ensures !ok ==> refused
    {
      hide Chunked, Kept, Audited, KeysOf, ValidRows, Contents, PartlyPut, WholeBatches, Flatten;
      SnocRow(opt, rows, row);
      rows := rows + [row];
      res := res.(skipped := res.skipped + 1);
      assert Flatten(audit) + (skipped + [AuditRow(opt, row)]) == (Flatten(audit) + skipped) + [AuditRow(opt, row)];
      skipped := skipped + [AuditRow(opt, row)];
      ok := true;
      if |skipped| >= AUDIT_BATCH {
        ok := FlushSkipped();
      }
    }

    // parseStreamWithOptions around the record loop of ParseStreamRows.
    method Consume(file: seq<Record>) returns (outcome: Outcome, total: nat)
      requires Sound() && AtBoundary() && rows == [] && skipped == [] && !refused
      modifies this, repo
      ensures Sound()
      ensures res.(added := 0, updated := 0, same := 0, skipped := 0)
              == old(res).(added := 0, updated := 0, same := 0, skipped := 0)
      ensures rows <= Parsed(file) && Pending()
      ensures outcome == Done ==> Readable(file) && rows == Parsed(file) && total == |rows| && AtBoundary() && !refused
      ensures outcome == ReadFailed ==> !Readable(file) && rows == Parsed(file)
      ensures outcome == AuditFailed ==> refused
      ensures outcome in {Done, ReadFailed, AuditFailed, RepoFailed}
      ensures !refused ==> skipped == []
    {
      hide Sound, WholeBatches, Judge, ReadAs, RowsOf, FirstBad, Parsed, Readable, RowOfFile;
      outcome, total := Done, 0;
      var line := 0;
      assert file[..0] == [];
      NoRows();
      while outcome == Done && line < |file|
        invariant 0 <= line <= |file| && Sound() && Pending()
        invariant outcome in {Done, ReadFailed, AuditFailed, RepoFailed}
        invariant forall j :: 0 <= j < line ==> !Judge(file[j]).Bad?
        invariant outcome == Done ==>
                    && rows == RowsOf(file[..line]) && total == |rows| && AtBoundary()
                    && |skipped| < AUDIT_BATCH && !refused
        invariant outcome == ReadFailed ==>
                    rows == RowsOf(file[..line]) && line < |file| && Judge(file[line]).Bad? && !refused
        invariant outcome in {AuditFailed, RepoFailed} ==>
                    && line < |file| && !Judge(file[line]).Bad? && rows == RowsOf(file[..line + 1])
                    && (refused <==> outcome == AuditFailed)
        invariant res.(added := 0, updated := 0, same := 0, skipped := 0)
                  == old(res).(added := 0, updated := 0, same := 0, skipped := 0)
        decreases |file| - line, outcome == Done
      {
        var v := JudgeRecord(file[line]);
        RowsOfStep(file, line);
        if v.Bad? {
          outcome := ReadFailed;
        } else if v.Good? {
          outcome := Handle(ParsedRow(v.addr, v.cols, line + 1));
          if outcome == Done {
            total := total + 1;
            line := line + 1;
          }
        } else {
          line := line + 1;
        }
      }
      ParsedUpTo(file, line, outcome == ReadFailed);
      var flushed := FlushSkipped();
      if outcome == Done && !flushed {
        outcome := AuditFailed;
      }
    }
  }

  lemma PartlyMore(before: AddressMap, after: AddressMap, rows: seq<Address>, more: seq<Address>)
    requires PartlyPut(before, after, rows) && rows <= more
    ensures PartlyPut(before, after, more)
  {
    assert forall a :: a in rows ==> a in more;
  }

  lemma WholeMore(n: nat, size: nat)
    requires 1 <= size && WholeBatches(n, size)
    ensures WholeBatches(n + size, size)
  {
  }

  // Where the record loop can stand when it stops.
  lemma ParsedUpTo(file: seq<Record>, line: nat, atBad: bool)
    requires line <= |file| && forall j :: 0 <= j < line ==> !Judge(file[j]).Bad?
    requires line < |file| ==> (Judge(file[line]).Bad? <==> atBad)
    requires line == |file| ==> !atBad
    ensures atBad ==> RowsOf(file[..line]) == Parsed(file) && !Readable(file)
    ensures line == |file| ==> RowsOf(file[..line]) == Parsed(file) && Readable(file)
    ensures line < |file| && !atBad ==> RowsOf(file[..line + 1]) <= Parsed(file)
  {
    hide Judge, RowsOf;
    if atBad || line == |file| {
      FirstBadIs(file, line);
    } else {
      FirstBadBounds(file);
      RowsOfPrefix(file, line + 1, FirstBad(file));
    }
  }
}

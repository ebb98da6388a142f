// What a look-back run adds up to: recovery after an interruption, and counts.

module LookBack {
  import opened Seqs
  import opened Addresses
  import opened Tables
  import opened Batches
  import opened Parsing
  import opened Appliers
  import opened Syncs
  import opened SyncTheory
  import opened Months
  import opened DiffRuns
  import opened Windows

  ghost predicate DistinctMonths(w: WindowJob, months: seq<string>) {
    forall ym :: ym in months ==> DistinctKeys(Added(MonthJob(w, ym)))
  }

  // ----- One window, cut off and run again -----

  lemma MonthIsTwoUnits(job: DiffJob, m: AddressMap)
    requires 1 <= job.size && DistinctKeys(Added(job))
    ensures Hashes(DiffEffect(m, job).m)
            == Apply(Apply(Hashes(m), Remove(Removed(job))), Override(Hashes(RowMap(Added(job)))))
  {
    hide Chunked, RowMap, Removed, Added;
    HashOverride(Progress(m - Removed(job), 0, 0, 0), Added(job), job.size);
    assert Hashes(m - Removed(job)) == Hashes(m) - Removed(job);
  }

  function Touched(w: WindowJob, months: seq<string>): set<AddressKey> {
    WindowGone(w, months) + KeysOf(WindowRows(w, months))
  }

  lemma TouchedSnoc(w: WindowJob, months: seq<string>)
    requires months != []
    ensures var job := MonthJob(w, months[|months| - 1]);
            Touched(w, months) == Touched(w, months[..|months| - 1]) + Removed(job) + Hashes(RowMap(Added(job))).Keys
  {
    hide Removed, Added, RowMap;
    RowMapKeys(Added(MonthJob(w, months[|months| - 1])));
  }

  // The months of the window decide every key they mention.
  lemma {:induction false} WindowDecides(w: WindowJob, months: seq<string>, m1: AddressMap, m2: AddressMap,
                                         keys: set<AddressKey>)
    requires 1 <= w.size && DistinctMonths(w, months)
    requires AgreeOff(Hashes(m1), Hashes(m2), keys)
    ensures AgreeOff(Hashes(WindowEffect(w, months, m1)), Hashes(WindowEffect(w, months, m2)),
                     keys - Touched(w, months))
  {
    hide AgreeOff, Hashes, Touched, DiffEffect, Removed, Added, Apply, DistinctKeys, RowMap;
    if months == [] {
      assert keys - Touched(w, months) == keys by { NothingTouched(w, months); }
    } else {
      var init, job := months[..|months| - 1], MonthJob(w, months[|months| - 1]);
      assert months[|months| - 1] in months && forall ym :: ym in init ==> ym in months;
      WindowDecides(w, init, m1, m2, keys);
      var a, b := WindowEffect(w, init, m1), WindowEffect(w, init, m2);
      var left := keys - Touched(w, init);
      var gone: Unit<string> := Remove(Removed(job));
      var rows := Override(Hashes(RowMap(Added(job))));
      ApplyAgrees(Hashes(a), Hashes(b), left, gone);
      ApplyAgrees(Apply(Hashes(a), gone), Apply(Hashes(b), gone), left - Mentions(gone), rows);
      MonthIsTwoUnits(job, a);
      MonthIsTwoUnits(job, b);
      TouchedSnoc(w, months);
      assert left - Mentions(gone) - Mentions(rows) == keys - Touched(w, months);
    }
  }

  lemma NothingTouched(w: WindowJob, months: seq<string>)
    requires months == []
    ensures Touched(w, months) == {}
  {
  }

  lemma WithinAgrees(before: AddressMap, after: AddressMap, gone: set<AddressKey>, rows: seq<Address>)
    requires Within(before, after, gone, rows)
    ensures AgreeOff(Hashes(before), Hashes(after), gone + KeysOf(rows))
  {
  }

  lemma {:induction false} WindowWithin(w: WindowJob, months: seq<string>, m: AddressMap)
    requires 1 <= w.size
    ensures Within(m, WindowEffect(w, months, m), WindowGone(w, months), WindowRows(w, months))
  {
    hide Within, DiffEffect, Removed, Added;
    if months == [] {
      WithinRefl(m);
    } else {
      var init, job := months[..|months| - 1], MonthJob(w, months[|months| - 1]);
      var mid := WindowEffect(w, init, m);
      WindowWithin(w, init, m);
      EffectWithin(job, mid);
      WithinTrans(m, mid, WindowEffect(w, months, m), WindowGone(w, init), Removed(job), WindowGone(w, months),
                  WindowRows(w, init), Added(job), WindowRows(w, months));
    }
  }

  lemma WithinCanonical(before: AddressMap, after: AddressMap, gone: set<AddressKey>, rows: seq<Address>)
    requires Within(before, after, gone, rows) && AllCanonical(before) && CanonicalRows(rows)
    ensures AllCanonical(after)
  {
  }

  lemma CutIsWithin(w: WindowJob, eng: EngineOptions, before: AddressMap, cut: AddressMap, outcome: RunOutcome)
    requires 1 <= w.size && DiffRunStep(w, eng, before, cut, outcome, false)
    ensures Within(before, cut, WindowGone(w, w.months), WindowRows(w, w.months))
  {
    hide Within, WindowEffect, WindowGone, WindowRows;
    if outcome == Finished(Done) {
      WindowWithin(w, w.months, before);
    } else if outcome == NoSource {
      WithinAny(before, WindowGone(w, w.months), WindowRows(w, w.months));
    }
  }

  // However a diff run stopped, one complete run over the same window gives what an undisturbed run gives.
  lemma {:induction false} WindowSelfHealing(w: WindowJob, eng: EngineOptions, before: AddressMap, cut: AddressMap,
                                             outcome: RunOutcome,
                                             healed: AddressMap, undisturbed: AddressMap)
    requires 1 <= w.size && DistinctMonths(w, w.months)
    requires DiffRunStep(w, eng, before, cut, outcome, false)
    requires DiffRunStep(w, eng, cut, healed, Finished(Done), false)
    requires DiffRunStep(w, eng, before, undisturbed, Finished(Done), false)
    ensures Hashes(healed) == Hashes(undisturbed)
  {
    hide Within, WindowEffect, WindowGone, WindowRows, Hashes, AgreeOff, DistinctMonths;
    CutIsWithin(w, eng, before, cut, outcome);
    WithinAgrees(before, cut, WindowGone(w, w.months), WindowRows(w, w.months));
    WindowDecides(w, w.months, before, cut, Touched(w, w.months));
    AgreeEverywhere(Hashes(undisturbed), Hashes(healed), Touched(w, w.months) - Touched(w, w.months));
  }

  // The same for the addresses themselves, when their hashes tell them apart.
  lemma {:induction false} WindowHealsContents(w: WindowJob, eng: EngineOptions, before: AddressMap, cut: AddressMap,
                                               outcome: RunOutcome,
                                               healed: AddressMap, undisturbed: AddressMap)
    requires 1 <= w.size && DistinctMonths(w, w.months) && AllCanonical(before)
             && CanonicalRows(WindowRows(w, w.months))
    requires DiffRunStep(w, eng, before, cut, outcome, false)
    requires DiffRunStep(w, eng, cut, healed, Finished(Done), false)
    requires DiffRunStep(w, eng, before, undisturbed, Finished(Done), false)
    ensures healed == undisturbed
  {
    hide Within, WindowEffect, WindowGone, WindowRows, Hashes, AllCanonical, CanonicalRows, DistinctMonths;
    WindowSelfHealing(w, eng, before, cut, outcome, healed, undisturbed);
    CutIsWithin(w, eng, before, cut, outcome);
    WithinCanonical(before, cut, WindowGone(w, w.months), WindowRows(w, w.months));
    WindowWithin(w, w.months, cut);
    WithinCanonical(cut, healed, WindowGone(w, w.months), WindowRows(w, w.months));
    WindowWithin(w, w.months, before);
    WithinCanonical(before, undisturbed, WindowGone(w, w.months), WindowRows(w, w.months));
    HashesDetermine(healed, undisturbed);
  }

  // A run forgets a difference between two tables exactly when they differ only on keys its months mention: so a cut
  // run is healed by a later window if and only if that window still mentions everything the cut left different.
  lemma {:induction false} WindowForgets(w: WindowJob, months: seq<string>, m1: AddressMap, m2: AddressMap)
    requires 1 <= w.size && DistinctMonths(w, months)
    ensures Hashes(WindowEffect(w, months, m1)) == Hashes(WindowEffect(w, months, m2))
            <==> AgreeOff(Hashes(m1), Hashes(m2), Touched(w, months))
  {
    hide Hashes, WindowEffect, Within, WindowGone, WindowRows, AgreeOff, DistinctMonths;
    var keys := Touched(w, months);
    var h1, h2 := Hashes(WindowEffect(w, months, m1)), Hashes(WindowEffect(w, months, m2));
    if AgreeOff(Hashes(m1), Hashes(m2), keys) {
      WindowDecides(w, months, m1, m2, keys);
      AgreeEverywhere(h1, h2, keys - keys);
    }
    if h1 == h2 {
      WindowWithin(w, months, m1);
      WindowWithin(w, months, m2);
      WithinAgrees(m1, WindowEffect(w, months, m1), WindowGone(w, months), WindowRows(w, months));
      WithinAgrees(m2, WindowEffect(w, months, m2), WindowGone(w, months), WindowRows(w, months));
      AgreeBack(Hashes(m1), Hashes(m2), h1, keys);
    }
  }

  lemma AgreeBack(m1: HashMap, m2: HashMap, h: HashMap, keys: set<AddressKey>)
    requires AgreeOff(m1, h, keys) && AgreeOff(m2, h, keys)
    ensures AgreeOff(m1, m2, keys)
  {
  }

  // What a run over the window, cut off anywhere, may leave.
  ghost predicate CutOf(w: WindowJob, before: AddressMap, cut: AddressMap) {
    Within(before, cut, WindowGone(w, w.months), WindowRows(w, w.months))
  }

  // Two tables that differ at most under one key.
  lemma TablesOf(k: AddressKey) returns (without: AddressMap, with: AddressMap)
    ensures k !in without && k in with && AgreeOff(Hashes(without), Hashes(with), {k})
  {
    without, with := map[], map[k := Address(k.zipcode, k.jisCode, "", "", "", "", k.town, k.townKana, 0, 0, 0, 0, "")];
  }

  lemma SameKey(m1: AddressMap, m2: AddressMap, keys: set<AddressKey>, k: AddressKey)
    requires AgreeOff(Hashes(m1), Hashes(m2), keys) && k !in keys
    ensures k in m1 <==> k in m2
  {
    assert k in Hashes(m1) <==> k in m1;
    assert k in Hashes(m2) <==> k in m2;
  }

  // A table from which the window changes the fate of a key it mentions.
  lemma FateChanges(w: WindowJob, k: AddressKey) returns (before: AddressMap)
    requires 1 <= w.size && DistinctMonths(w, w.months) && k in Touched(w, w.months)
    ensures k in before <==> k !in WindowEffect(w, w.months, before)
  {
    hide WindowEffect, Touched, DistinctMonths;
    var without, with := TablesOf(k);
    WindowDecides(w, w.months, without, with, {k});
    SameKey(WindowEffect(w, w.months, without), WindowEffect(w, w.months, with), {k} - Touched(w, w.months), k);
    before := if k in WindowEffect(w, w.months, without) then without else with;
  }

  // On the files alone: a later window heals every cut of the run before it, whatever the table, exactly if it
  // mentions every key which that run mentions.
  lemma {:induction false} LaterWindowHeals(w: WindowJob, later: WindowJob)
    requires 1 <= w.size && 1 <= later.size && DistinctMonths(w, w.months) && DistinctMonths(later, later.months)
    ensures Touched(w, w.months) <= Touched(later, later.months)
            <==> forall before, cut | CutOf(w, before, cut) ::
                   Hashes(WindowEffect(later, later.months, cut))
                   == Hashes(WindowEffect(later, later.months, WindowEffect(w, w.months, before)))
  {
    hide Hashes, WindowEffect, AgreeOff, DistinctMonths, Touched, CutOf;
    if Touched(w, w.months) <= Touched(later, later.months) {
      forall before, cut | CutOf(w, before, cut)
        ensures Hashes(WindowEffect(later, later.months, cut))
                == Hashes(WindowEffect(later, later.months, WindowEffect(w, w.months, before)))
      {
        CutDiffers(w, before, cut);
        AgreeMore(Hashes(cut), Hashes(WindowEffect(w, w.months, before)), Touched(w, w.months),
                  Touched(later, later.months));
        WindowForgets(later, later.months, cut, WindowEffect(w, w.months, before));
      }
    } else {
      var k :| k in Touched(w, w.months) && k !in Touched(later, later.months);
      var before := FateChanges(w, k);
      var done := WindowEffect(w, w.months, before);
      NoProgress(w, before);
      WindowForgets(later, later.months, before, done);
      if Hashes(WindowEffect(later, later.months, before)) == Hashes(WindowEffect(later, later.months, done)) {
        SameKey(before, done, Touched(later, later.months), k);
      }
    }
  }

  lemma NoProgress(w: WindowJob, before: AddressMap)
    ensures CutOf(w, before, before)
  {
    WithinAny(before, WindowGone(w, w.months), WindowRows(w, w.months));
  }

  lemma CutDiffers(w: WindowJob, before: AddressMap, cut: AddressMap)
    requires 1 <= w.size && CutOf(w, before, cut)
    ensures AgreeOff(Hashes(cut), Hashes(WindowEffect(w, w.months, before)), Touched(w, w.months))
  {
    hide Within, WindowEffect, WindowGone, WindowRows, AgreeOff, Hashes;
    WithinAgrees(before, cut, WindowGone(w, w.months), WindowRows(w, w.months));
    WindowWithin(w, w.months, before);
    WithinAgrees(before, WindowEffect(w, w.months, before), WindowGone(w, w.months), WindowRows(w, w.months));
    AgreeFrom(Hashes(before), Hashes(cut), Hashes(WindowEffect(w, w.months, before)), Touched(w, w.months));
  }

  lemma AgreeFrom(m: HashMap, m1: HashMap, m2: HashMap, keys: set<AddressKey>)
    requires AgreeOff(m, m1, keys) && AgreeOff(m, m2, keys)
    ensures AgreeOff(m1, m2, keys)
  {
  }

  lemma AgreeMore(m1: HashMap, m2: HashMap, keys: set<AddressKey>, more: set<AddressKey>)
    requires AgreeOff(m1, m2, keys) && keys <= more
    ensures AgreeOff(m1, m2, more)
  {
  }

  // A site whose month `last` removes a key and writes it again; the next month has an empty file.
  function RenamingFeed(a: Address, last: nat): Feed {
    Feed((ym: string) => if ym == YYMM(last) then Found(Stream([a], 1, true))
         else if ym == YYMM(last + 1) then Found(Stream([], 0, true)) else NotFound,
         (ym: string) => if ym == YYMM(last) then Found(Listing([a.Key()], true)) else NotFound,
         NotFound)
  }

  function OneMonth(feed: Feed, month: int, size: nat): WindowJob {
    WindowJob(feed, Window(month, 1), size)
  }

  // An example of a later window that does not mention the key: the run is cut off by the repository between the
  // removal and the writing, and the next run comes after the month has left its window. The key is lost, though
  // undisturbed runs keep it.
  lemma {:induction false} LateRetryLoses(a: Address, last: nat, size: nat, eng: EngineOptions)
    requires 1 <= size
    ensures var feed := RenamingFeed(a, last);
            var w, later := OneMonth(feed, last, size), OneMonth(feed, last + 1, size);
            var table := map[a.Key() := a];
            && DiffStep(MonthJob(w, YYMM(last)), table, map[], RepoFailed)
            && DiffRunStep(w, eng, table, map[], Finished(RepoFailed), false)
            && DiffRunStep(later, eng, map[], map[], Finished(Done), false)
            && DiffRunStep(w, eng, table, table, Finished(Done), false)
            && DiffRunStep(later, eng, table, table, Finished(Done), false)
  {
    hide YYMM, Chunked;
    var feed := RenamingFeed(a, last);
    var w, later := OneMonth(feed, last, size), OneMonth(feed, last + 1, size);
    var table := map[a.Key() := a];
    NextName(last);
    OneMonthEffect(w, last, table);
    OneMonthEffect(later, last + 1, table);
    OneMonthEffect(later, last + 1, map[]);
    OneRowWritten(a, size);
    NoBatches(Progress(table, 0, 0, 0), size);
    NoBatches(Progress(map[], 0, 0, 0), size);
    assert Removed(MonthJob(w, YYMM(last))) == {a.Key()};
    assert table - {a.Key()} == map[];
    var nothing: AddressMap := map[];
    assert table - {} == table && nothing - {} == nothing;
    assert DiffEffect(table, MonthJob(w, YYMM(last))).m == table;
    assert DiffEffect(table, MonthJob(later, YYMM(last + 1))).m == table;
    assert DiffEffect(nothing, MonthJob(later, YYMM(last + 1))).m == nothing;
    assert YYMM(last) in w.months && Published(feed, YYMM(last)) && MonthFine(w, YYMM(last));
    assert YYMM(last + 1) in later.months && Published(feed, YYMM(last + 1)) && MonthFine(later, YYMM(last + 1));
  }

  lemma NextName(last: nat)
    ensures YYMM(last) != YYMM(last + 1)
  {
    NameOfMonth(last, last + 1);
    SameRemainder(last, 1);
    hide YYMM;
  }

  lemma OneMonthEffect(w: WindowJob, month: int, m: AddressMap)
    requires 1 <= w.size && w.months == Window(month, 1)
    ensures w.months == [YYMM(month)] && WindowEffect(w, w.months, m) == DiffEffect(m, MonthJob(w, YYMM(month))).m
    ensures WindowGone(w, w.months) == Removed(MonthJob(w, YYMM(month)))
            && WindowRows(w, w.months) == Added(MonthJob(w, YYMM(month)))
  {
    hide YYMM, DiffEffect, Removed, Added;
    WindowAt(month, 1, 0);
    assert w.months == [YYMM(month)];
    EmptyWindow(w, m);
    assert w.months[..0] == [];
    WindowSnoc(w, 0, m);
    assert w.months[..1] == w.months;
  }

  lemma OneRowWritten(a: Address, size: nat)
    requires 1 <= size
    ensures Chunked(Progress(map[], 0, 0, 0), [a], size).m == map[a.Key() := a]
  {
    hide Chunked, BatchStep;
    OneChunk(Progress(map[], 0, 0, 0), [a], size);
    StepOf(Progress(map[], 0, 0, 0), a);
  }

  // ----- A window month by month -----

  lemma NextMonth(w: WindowJob, months: seq<string>, ym: string, m: AddressMap)
    requires 1 <= w.size
    ensures var mid, t := WindowEffect(w, months, m), WindowTotals(w, months, m);
            var c := DiffCounts(MonthJob(w, ym), mid);
            && WindowEffect(w, months + [ym], m) == DiffEffect(mid, MonthJob(w, ym)).m
            && WindowTotals(w, months + [ym], m)
               == Totals(t.added + c.0, t.updated + c.1, t.deleted + c.3, t.skipped + c.4, t.total + c.5)
  {
    hide DiffEffect, DiffCounts;
    assert (months + [ym])[..|months|] == months;
  }

  // The months take effect, count and audit one after the other, each on what the ones before it have left.
  lemma {:induction false} WindowSplits(w: WindowJob, a: seq<string>, b: seq<string>, m: AddressMap)
    requires 1 <= w.size
    ensures WindowEffect(w, a + b, m) == WindowEffect(w, b, WindowEffect(w, a, m))
    ensures var s, t := WindowTotals(w, a, m), WindowTotals(w, b, WindowEffect(w, a, m));
            WindowTotals(w, a + b, m) == Totals(s.added + t.added, s.updated + t.updated, s.deleted + t.deleted,
                                                s.skipped + t.skipped, s.total + t.total)
  {
    hide DiffEffect, DiffCounts, WindowEffect, WindowTotals, MonthJob;
    if b == [] {
      assert a + b == a;
      EmptyWindow(w, WindowEffect(w, a, m));
      assert w.months[..0] == b;
    } else {
      var init, ym := b[..|b| - 1], b[|b| - 1];
      WindowSplits(w, a, init, m);
      NextMonth(w, a + init, ym, m);
      NextMonth(w, init, ym, WindowEffect(w, a, m));
      assert b == init + [ym];
      assert a + (init + [ym]) == (a + init) + [ym];
    }
  }

  lemma {:induction false} AuditSplits(opt: ApplyOptions, site: Site, a: seq<string>, b: seq<string>)
    ensures MonthsAudit(opt, site, a + b) == MonthsAudit(opt, site, a) + MonthsAudit(opt, site, b)
  {
    hide Audited, Parsed;
    if b == [] {
      assert a + b == a;
    } else {
      var n := |b| - 1;
      AuditSplits(opt, site, a, b[..n]);
      assert (a + b)[..|a + b| - 1] == a + b[..n] && (a + b)[|a + b| - 1] == b[n];
    }
  }

  // One month: its diff, its counters but the unchanged rows, and the audit of its new-address file.
  lemma {:induction false} SingleMonth(w: WindowJob, opt: ApplyOptions, site: Site, ym: string, m: AddressMap)
    requires 1 <= w.size
    ensures WindowEffect(w, [ym], m) == DiffEffect(m, MonthJob(w, ym)).m
    ensures var (added, updated, same, deleted, skipped, total) := DiffCounts(MonthJob(w, ym), m);
            WindowTotals(w, [ym], m) == Totals(added, updated, deleted, skipped, total)
    ensures MonthsAudit(opt, site, [ym]) == if site.add(ym).Found? then Audited(opt, Parsed(site.add(ym).file)) else []
  {
    hide DiffEffect, DiffCounts, Audited, Parsed;
    assert [ym][..0] == [];
  }

  // ----- What becomes of one key -----

  ghost predicate SameAt(m1: AddressMap, m2: AddressMap, k: AddressKey) {
    (k in m1 <==> k in m2) && (k in m1 ==> m1[k] == m2[k])
  }

  // The key has the hash of one of the rows listed under it.
  ghost predicate WrittenFrom(m: AddressMap, rows: seq<Address>, k: AddressKey) {
    k in m && exists a :: a in rows && a.Key() == k && m[k].sourceHash == a.sourceHash
  }

  lemma {:induction false} LastPut(m: AddressMap, rows: seq<Address>, k: AddressKey)
    requires k in KeysOf(rows)
    ensures k in PutAll(m, rows) && PutAll(m, rows)[k] in rows && PutAll(m, rows)[k].Key() == k
  {
    var n := |rows| - 1;
    assert rows == rows[..n] + [rows[n]];
    if rows[n].Key() != k {
      LastPut(m, rows[..n], k);
    }
  }

  lemma {:induction false} BatchWrites(p: Progress, rows: seq<Address>, k: AddressKey)
    requires k in KeysOf(rows)
    ensures WrittenFrom(BatchStep(p, rows).m, rows, k)
  {
    hide Filter, PutAll;
    var written := Filter(rows, NeedsWrite(p.m));
    FilterMembers(rows, NeedsWrite(p.m));
    if k in KeysOf(written) {
      LastPut(p.m, written, k);
    } else {
      var a := RowAt(rows, k);
      assert !NeedsWrite(p.m)(a);
      PutAllElsewhere(p.m, written, k);
    }
  }

  lemma {:induction false} BatchesElsewhere(p: Progress, rows: seq<Address>, size: nat, k: AddressKey)
    requires 1 <= size && k !in KeysOf(rows)
    ensures SameAt(p.m, Chunked(p, rows, size).m, k)
    decreases |rows|
  {
    hide BatchStep;
    if rows != [] {
      var n := Min(size, |rows|);
      assert rows == rows[..n] + rows[n..];
      assert k !in KeysOf(rows[..n]) && k !in KeysOf(rows[n..]);
      StepElsewhere(p, rows[..n], k);
      BatchesElsewhere(BatchStep(p, rows[..n]), rows[n..], size, k);
    }
  }

  lemma WrittenFromMore(m: AddressMap, rows: seq<Address>, all: seq<Address>, k: AddressKey)
    requires WrittenFrom(m, rows, k) && forall a :: a in rows ==> a in all
    ensures WrittenFrom(m, all, k)
  {
  }

  // Repeated keys or not, and whatever the batches.
  lemma {:induction false} BatchesWrite(p: Progress, rows: seq<Address>, size: nat, k: AddressKey)
    requires 1 <= size && k in KeysOf(rows)
    ensures WrittenFrom(Chunked(p, rows, size).m, rows, k)
    decreases |rows|
  {
    hide BatchStep, WrittenFrom;
    var n := Min(size, |rows|);
    var xs, ys := rows[..n], rows[n..];
    assert rows == xs + ys;
    if k in KeysOf(ys) {
      BatchesWrite(BatchStep(p, xs), ys, size, k);
      WrittenFromMore(Chunked(p, rows, size).m, ys, rows, k);
    } else {
      var a := RowAt(rows, k);
      assert a in xs;
      BatchWrites(p, xs, k);
      BatchesElsewhere(BatchStep(p, xs), ys, size, k);
      StillWritten(BatchStep(p, xs).m, Chunked(p, rows, size).m, xs, k);
      WrittenFromMore(Chunked(p, rows, size).m, xs, rows, k);
    }
  }

  lemma StillWritten(m1: AddressMap, m2: AddressMap, rows: seq<Address>, k: AddressKey)
    requires WrittenFrom(m1, rows, k) && SameAt(m1, m2, k)
    ensures WrittenFrom(m2, rows, k)
  {
  }

  // One month: its added rows decide, else its abolished ones, else nothing changes.
  lemma {:induction false} MonthDecides(job: DiffJob, m: AddressMap, k: AddressKey)
    requires 1 <= job.size
    ensures k in KeysOf(Added(job)) ==> WrittenFrom(DiffEffect(m, job).m, Added(job), k)
    ensures k !in KeysOf(Added(job)) && k in Removed(job) ==> k !in DiffEffect(m, job).m
    ensures k !in KeysOf(Added(job)) && k !in Removed(job) ==> SameAt(m, DiffEffect(m, job).m, k)
  {
    hide Chunked, WrittenFrom, Added, Removed, KeysOf;
    var p := Progress(m - Removed(job), 0, 0, 0);
    if k in KeysOf(Added(job)) {
      BatchesWrite(p, Added(job), job.size, k);
    } else {
      BatchesElsewhere(p, Added(job), job.size, k);
    }
  }

  ghost predicate MentionedIn(w: WindowJob, ym: string, k: AddressKey) {
    k in Removed(MonthJob(w, ym)) || k in KeysOf(Added(MonthJob(w, ym)))
  }

  lemma {:induction false} UnmentionedKept(w: WindowJob, months: seq<string>, m: AddressMap, k: AddressKey)
    requires 1 <= w.size && forall ym :: ym in months ==> !MentionedIn(w, ym, k)
    ensures SameAt(m, WindowEffect(w, months, m), k)
  {
    hide DiffEffect, Removed, Added, KeysOf, WrittenFrom;
    if months != [] {
      var init, ym := months[..|months| - 1], months[|months| - 1];
      assert ym in months && forall x :: x in init ==> x in months;
      UnmentionedKept(w, init, m, k);
      MonthDecides(MonthJob(w, ym), WindowEffect(w, init, m), k);
    }
  }

  // The last month that mentions a key decides what becomes of it.
  lemma {:induction false} LastMentionDecides(w: WindowJob, m: AddressMap, k: AddressKey, j: nat)
    requires 1 <= w.size && j < |w.months|
    requires forall i :: j < i < |w.months| ==> !MentionedIn(w, w.months[i], k)
    ensures var after, job := WindowEffect(w, w.months, m), MonthJob(w, w.months[j]);
            && (k in KeysOf(Added(job)) ==> WrittenFrom(after, Added(job), k))
            && (k !in KeysOf(Added(job)) && k in Removed(job) ==> k !in after)
  {
    hide WindowEffect, DiffEffect, Removed, Added, KeysOf, WrittenFrom, MentionedIn;
    var init, later, job := w.months[..j], w.months[j + 1..], MonthJob(w, w.months[j]);
    var mid := WindowEffect(w, init, m);
    MonthDecides(job, mid, k);
    WindowSnoc(w, j, m);
    var done := DiffEffect(mid, job).m;
    UnmentionedKept(w, later, done, k);
    WindowSplits(w, w.months[..j + 1], later, m);
    assert w.months == w.months[..j + 1] + later;
    if k in KeysOf(Added(job)) {
      StillWritten(done, WindowEffect(w, w.months, m), Added(job), k);
    }
  }

  // ----- Counts over a window -----

  lemma {:induction false} WindowCountsConserve(w: WindowJob, months: seq<string>, m: AddressMap)
    requires 1 <= w.size && DistinctMonths(w, months)
    ensures |WindowEffect(w, months, m)| == |m| + WindowTotals(w, months, m).added - WindowTotals(w, months, m).deleted
  {
    hide DiffEffect, DiffCounts, DistinctKeys, Added, Removed;
    if months != [] {
      var init, ym := months[..|months| - 1], months[|months| - 1];
      assert ym in months && forall x :: x in init ==> x in months;
      WindowCountsConserve(w, init, m);
      MonthConserves(MonthJob(w, ym), WindowEffect(w, init, m));
    }
  }

  lemma MonthConserves(job: DiffJob, m: AddressMap)
    requires 1 <= job.size && DistinctKeys(Added(job))
    ensures |DiffEffect(m, job).m| == |m| + DiffCounts(job, m).0 - DiffCounts(job, m).3
  {
    hide BatchStep, Chunked, KeysOf, Removed, Added;
    BatchSizeIrrelevant(Progress(m - Removed(job), 0, 0, 0), Added(job), job.size);
    CountsAreKeySets(m - Removed(job), Added(job));
  }
}

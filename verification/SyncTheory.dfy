// What the relations of Syncs amount to as maps: refinement of the simple specification, recovery after
// an interruption, counts.

module SyncTheory {
  import opened Seqs
  import opened Addresses
  import opened Tables
  import opened Batches
  import opened Parsing
  import opened Appliers
  import opened Syncs

  type HashMap = map<AddressKey, string>

  function Hashes(m: AddressMap): HashMap {
    map k | k in m :: m[k].sourceHash
  }

  ghost predicate CanonicalRows(rows: seq<Address>) {
    forall a :: a in rows ==> Canonical(a)
  }

  // For canonical contents the hashes say everything.
  lemma HashesDetermine(m1: AddressMap, m2: AddressMap)
    requires AllCanonical(m1) && AllCanonical(m2) && Hashes(m1) == Hashes(m2)
    ensures m1 == m2
  {
    assert m1.Keys == Hashes(m1).Keys == Hashes(m2).Keys == m2.Keys;
    forall k | k in m1 ensures m1[k] == m2[k] {
      assert Hashes(m1)[k] == Hashes(m2)[k];
      CanonicalHashInjective(m1[k], m2[k]);
    }
  }

  lemma RowHash(rows: seq<Address>, a: Address)
    requires DistinctKeys(rows) && a in rows
    ensures a.Key() in Hashes(RowMap(rows)) && Hashes(RowMap(rows))[a.Key()] == a.sourceHash
  {
    RowMapAt(rows, a);
  }

  // Whatever the batch size, the hashes end up overridden by those of the rows.
  lemma {:induction false} HashOverride(p: Progress, rows: seq<Address>, size: nat)
    requires 1 <= size && DistinctKeys(rows)
    ensures Hashes(Chunked(p, rows, size).m) == Hashes(p.m) + Hashes(RowMap(rows))
    ensures Chunked(p, rows, size).m.Keys == p.m.Keys + KeysOf(rows)
  {
    hide Chunked, BatchStep, RowMap;
    BatchSizeIrrelevant(p, rows, size);
    StepKeys(p, rows);
    RowMapKeys(rows);
    forall k | k in BatchStep(p, rows).m
      ensures BatchStep(p, rows).m[k].sourceHash == (Hashes(p.m) + Hashes(RowMap(rows)))[k]
    {
      OverrideHashAt(p, rows, k);
    }
  }

  lemma OverrideHashAt(p: Progress, rows: seq<Address>, k: AddressKey)
    requires DistinctKeys(rows) && k in BatchStep(p, rows).m
    ensures k in Hashes(p.m) + Hashes(RowMap(rows))
    ensures BatchStep(p, rows).m[k].sourceHash == (Hashes(p.m) + Hashes(RowMap(rows)))[k]
  {
    hide BatchStep, RowMap;
    StepKeys(p, rows);
    RowMapKeys(rows);
    if k in KeysOf(rows) {
      var a := RowAt(rows, k);
      StepAt(p, rows, a);
      RowHash(rows, a);
    } else {
      StepElsewhere(p, rows, k);
    }
  }

  // ----- Full runs -----

  lemma RestrictedHashes(before: HashMap, m: AddressMap, rows: seq<Address>)
    requires Hashes(m) == before + Hashes(RowMap(rows))
    ensures Hashes(Restricted(m, KeysOf(rows))) == Hashes(RowMap(rows))
  {
    RowMapKeys(rows);
    assert m.Keys == Hashes(m).Keys;
    forall k | k in RowMap(rows) ensures k in m && m[k].sourceHash == Hashes(RowMap(rows))[k] {
      assert Hashes(m)[k] == Hashes(RowMap(rows))[k];
    }
  }

  lemma NothingOverridden(m: HashMap)
    ensures map[] + m == m
  {
  }

  // A successful full run ends with the file's map; without pruning, with the old map overridden by it.
  lemma {:induction false} FullRefinesMap(job: FullJob, before: AddressMap, after: AddressMap)
    requires 1 <= job.size && FullStep(job, before, after, Done)
    requires DistinctKeys(job.input.rows)
    ensures Hashes(after) == (if job.prune then map[] else Hashes(before)) + Hashes(RowMap(job.input.rows))
  {
    hide Chunked, RowMap, KeysOf;
    var rows := job.input.rows;
    var p := Progress(before, 0, 0, 0);
    HashOverride(p, rows, job.size);
    if job.prune {
      RestrictedHashes(Hashes(before), Chunked(p, rows, job.size).m, rows);
      NothingOverridden(Hashes(RowMap(rows)));
    }
  }

  // The same for the addresses themselves, when their hashes tell them apart.
  lemma {:induction false} FullRefinesContents(job: FullJob, before: AddressMap, after: AddressMap)
    requires 1 <= job.size && FullStep(job, before, after, Done)
    requires DistinctKeys(job.input.rows) && AllCanonical(before) && CanonicalRows(job.input.rows)
    ensures after == (if job.prune then map[] else before) + RowMap(job.input.rows)
  {
    hide Chunked, RowMap, KeysOf, Canonical;
    var rows := job.input.rows;
    CanonicalOverride(Progress(before, 0, 0, 0), rows, job.size);
    RowMapKeys(rows);
    if job.prune {
      RestrictToRows(before, RowMap(rows));
    }
  }

  lemma RestrictToRows(before: AddressMap, rows: AddressMap)
    ensures Restricted(before + rows, rows.Keys) == map[] + rows
  {
  }

  // The state an interrupted run leaves differs from the original only where the rows will write.
  lemma PartialAbsorbed(before: AddressMap, after: AddressMap, rows: seq<Address>)
    requires PartlyPut(before, after, rows)
    ensures Hashes(after) + Hashes(RowMap(rows)) == Hashes(before) + Hashes(RowMap(rows))
  {
    RowMapKeys(rows);
  }

  lemma UpsertsAreFull(job: FullJob, before: AddressMap)
    requires 1 <= job.size && DistinctKeys(job.input.rows)
    ensures var up := Upserts(before, job.input.rows, job.size).m;
            Hashes(up) + Hashes(RowMap(job.input.rows)) == Hashes(before) + Hashes(RowMap(job.input.rows))
  {
    hide Chunked, RowMap;
    HashOverride(Progress(before, 0, 0, 0), job.input.rows, job.size);
  }

  // However a full run stopped, one complete run on the same file gives what a single undisturbed run gives.
  lemma {:induction false} FullSelfHealing(job: FullJob, before: AddressMap, cut: AddressMap, outcome: Outcome,
                                           healed: AddressMap, undisturbed: AddressMap)
    requires 1 <= job.size && DistinctKeys(job.input.rows)
    requires FullStep(job, before, cut, outcome)
    requires FullStep(job, cut, healed, Done) && FullStep(job, before, undisturbed, Done)
    ensures Hashes(healed) == Hashes(undisturbed)
  {
    hide Chunked, RowMap, KeysOf;
    FullRefinesMap(job, cut, healed);
    FullRefinesMap(job, before, undisturbed);
    if !job.prune {
      CutAbsorbed(job, before, cut, outcome);
    }
  }

  lemma {:induction false} FullHealsContents(job: FullJob, before: AddressMap, cut: AddressMap, outcome: Outcome,
                                             healed: AddressMap, undisturbed: AddressMap)
    requires 1 <= job.size && DistinctKeys(job.input.rows) && AllCanonical(before) && CanonicalRows(job.input.rows)
    requires FullStep(job, before, cut, outcome)
    requires FullStep(job, cut, healed, Done) && FullStep(job, before, undisturbed, Done)
    ensures healed == undisturbed
  {
    hide FullStep, Hashes, AllCanonical, CanonicalRows;
    FullSelfHealing(job, before, cut, outcome, healed, undisturbed);
    FullStepCanonical(job, before, cut, outcome);
    FullStepCanonical(job, before, undisturbed, Done);
    FullStepCanonical(job, cut, healed, Done);
    HashesDetermine(healed, undisturbed);
  }

  lemma CutAbsorbed(job: FullJob, before: AddressMap, cut: AddressMap, outcome: Outcome)
    requires 1 <= job.size && DistinctKeys(job.input.rows) && !job.prune
    requires FullStep(job, before, cut, outcome)
    ensures Hashes(cut) + Hashes(RowMap(job.input.rows)) == Hashes(before) + Hashes(RowMap(job.input.rows))
  {
    hide Chunked, RowMap, KeysOf;
    if outcome == Done {
      UpsertsAreFull(job, before);
    } else {
      PartialAbsorbed(before, cut, job.input.rows);
    }
  }

  // Every entry was there before under its key, or is one of the rows under its own.
  ghost predicate FromBeforeOrRows(before: AddressMap, after: AddressMap, rows: seq<Address>) {
    forall k :: k in after ==> (k in before && after[k] == before[k]) || (after[k] in rows && after[k].Key() == k)
  }

  // However a full run ends, it invents nothing.
  lemma {:induction false} FullInventsNothing(job: FullJob, before: AddressMap, after: AddressMap, outcome: Outcome)
    requires 1 <= job.size && FullStep(job, before, after, outcome)
    ensures FromBeforeOrRows(before, after, job.input.rows)
  {
    hide Chunked, KeysOf;
    ChunkedPartly(Progress(before, 0, 0, 0), job.input.rows, job.size);
  }

  lemma {:induction false} DiffInventsNothing(job: DiffJob, before: AddressMap, after: AddressMap, outcome: Outcome)
    requires 1 <= job.size && DiffStep(job, before, after, outcome)
    ensures FromBeforeOrRows(before, after, Added(job))
  {
    hide Chunked, Removed, Added;
    ChunkedPartly(Progress(before - Removed(job), 0, 0, 0), Added(job), job.size);
  }

  ghost predicate AllHashed(m: AddressMap) {
    forall k :: k in m ==> Hashed(m[k])
  }

  // The rows of a stream carry their hashes.
  lemma {:induction false} StreamRowsHashed(filter: TownFilter, file: File)
    ensures forall a :: a in StreamOf(filter, file).rows ==> Hashed(a) && |a.zipcode| == 7
  {
    hide Kept, RowsOf, Hashed;
    RowsWellFormed(file[..FirstBad(file)]);
    KeptFrom(filter, Parsed(file));
  }

  lemma {:induction false} KeptFrom(filter: TownFilter, rows: seq<ParsedRow>)
    ensures forall a :: a in Kept(filter, rows) ==> exists r :: r in rows && r.addr == a
  {
    hide Skips;
    if rows != [] {
      var n := |rows| - 1;
      KeptFrom(filter, rows[..n]);
      assert rows == rows[..n] + [rows[n]];
    }
  }

  // So each stored hash stays the hash of its row, whatever stops the run.
  lemma {:induction false} StoredHashesStayTrue(filter: TownFilter, file: File, before: AddressMap, after: AddressMap)
    requires AllHashed(before) && FromBeforeOrRows(before, after, StreamOf(filter, file).rows)
    ensures AllHashed(after)
  {
    hide StreamOf, Hashed;
    StreamRowsHashed(filter, file);
  }

  // Canonical contents stay canonical, however the run ends.
  lemma FullStepCanonical(job: FullJob, before: AddressMap, after: AddressMap, outcome: Outcome)
    requires 1 <= job.size && FullStep(job, before, after, outcome)
    requires AllCanonical(before) && CanonicalRows(job.input.rows)
    ensures AllCanonical(after)
  {
    hide FullStep, Canonical;
    FullInventsNothing(job, before, after, outcome);
  }

  // No key leaves the table unless the whole file was read, every row of it written, enough records
  // counted, and the key is not among the rows.
  lemma {:induction false} NoPrematureDeletion(job: FullJob, before: AddressMap, after: AddressMap, outcome: Outcome,
                                               k: AddressKey)
    requires 1 <= job.size && FullStep(job, before, after, outcome)
    requires k in before && k !in after
    ensures job.input.readable && job.prune && job.input.total >= job.minRows
    ensures k !in KeysOf(job.input.rows)
    ensures forall a :: a in job.input.rows ==> a.Key() in after
    ensures DistinctKeys(job.input.rows) ==>
              forall a :: a in job.input.rows ==> a.Key() in after && after[a.Key()].sourceHash == a.sourceHash
  {
    hide Chunked, RowMap;
    var rows := job.input.rows;
    var p := Progress(before, 0, 0, 0);
    var up := Upserts(before, job.input.rows, job.size).m;
    ChunkedPartly(p, rows, job.size);
    ChunkedKeys(p, rows, job.size);
    if DistinctKeys(rows) {
      HashOverride(p, rows, job.size);
      forall a | a in rows ensures a.Key() in up && up[a.Key()].sourceHash == a.sourceHash {
        RowHash(rows, a);
        assert Hashes(up)[a.Key()] == a.sourceHash;
      }
    }
    forall a | a in rows ensures a.Key() in after {
      assert a.Key() in KeysOf(rows);
    }
  }

  lemma {:induction false} ChunkedKeys(p: Progress, rows: seq<Address>, size: nat)
    requires 1 <= size
    ensures Chunked(p, rows, size).m.Keys == p.m.Keys + KeysOf(rows)
    decreases |rows|
  {
    hide BatchStep;
    if rows != [] {
      var n := Min(size, |rows|);
      StepKeys(p, rows[..n]);
      ChunkedKeys(BatchStep(p, rows[..n]), rows[n..], size);
      assert rows == rows[..n] + rows[n..];
      assert KeysOf(rows) == KeysOf(rows[..n]) + KeysOf(rows[n..]);
    }
  }

  // The guard looks at the number of records read, skipped ones included, so it bounds what survives only up to
  // the number of skipped rows: a pruning run ends with the rows that are left, and empties the table if none is.
  lemma {:induction false} GuardCountsSkippedRows(job: FullJob, before: AddressMap, after: AddressMap)
    requires 1 <= job.size && FullStep(job, before, after, Done) && job.prune
    ensures after.Keys == KeysOf(job.input.rows)
    ensures after == map[] <==> job.input.rows == []
    ensures DistinctKeys(job.input.rows) ==>
              |after| == |job.input.rows| == job.input.total - FullCounts(job, before, after).4
    ensures DistinctKeys(job.input.rows) ==>
              (|after| >= job.minRows <==> job.input.total - FullCounts(job, before, after).4 >= job.minRows)
  {
    hide Chunked;
    var rows := job.input.rows;
    ChunkedKeys(Progress(before, 0, 0, 0), rows, job.size);
    assert after.Keys == KeysOf(rows);
    if rows != [] {
      assert rows[0].Key() in after;
    }
    if DistinctKeys(rows) {
      CountKeys(rows);
      assert |after| == |after.Keys|;
    }
  }

  // A file whose every town matches the filter has no rows left.
  lemma NothingKept(filter: TownFilter, rows: seq<ParsedRow>)
    requires filter.Matching? && forall row :: row in rows ==> filter.matches(row.addr.town)
    ensures Kept(filter, rows) == []
  {
    if rows != [] {
      assert rows[|rows| - 1] in rows;
      NothingKept(filter, rows[..|rows| - 1]);
    }
  }

  // ----- Counts of a full run -----

  // The counters are the sizes of the sets of new, changed, unchanged and vanished keys.
  lemma {:induction false} FullCountsExact(job: FullJob, before: AddressMap, after: AddressMap)
    requires 1 <= job.size && FullStep(job, before, after, Done)
    requires DistinctKeys(job.input.rows)
    ensures var rows := job.input.rows;
            var (added, updated, same, deleted, skipped, total) := FullCounts(job, before, after);
            && added == |KeysOf(rows) - before.Keys|
            && updated == |StaleKeys(before, rows)|
            && same == |(KeysOf(rows) * before.Keys) - StaleKeys(before, rows)|
            && deleted == (if job.prune then |before.Keys - KeysOf(rows)| else 0)
            && skipped == job.input.total - |rows| && total == job.input.total
  {
    hide BatchStep, Chunked, KeysOf, StaleKeys;
    var rows := job.input.rows;
    var p := Progress(before, 0, 0, 0);
    BatchSizeIrrelevant(p, rows, job.size);
    CountsAreKeySets(before, rows);
    StepKeys(p, rows);
    PrunedSize(before, BatchStep(p, rows).m, KeysOf(rows));
  }

  // Nothing is counted twice or not at all.
  lemma {:induction false} FullCountsConserve(job: FullJob, before: AddressMap, after: AddressMap)
    requires 1 <= job.size && FullStep(job, before, after, Done)
    requires DistinctKeys(job.input.rows)
    ensures var (added, updated, same, deleted, skipped, total) := FullCounts(job, before, after);
            |after| == |before| + added - deleted && added + updated + same + skipped == total
  {
    hide BatchStep, Chunked, KeysOf, StaleKeys;
    var rows := job.input.rows;
    BatchSizeIrrelevant(Progress(before, 0, 0, 0), rows, job.size);
    CountsAreKeySets(before, rows);
  }

  lemma PrunedSize(before: AddressMap, up: AddressMap, keys: set<AddressKey>)
    requires up.Keys == before.Keys + keys
    ensures |up| - |Restricted(up, keys)| == |before.Keys - keys|
  {
    var after := Restricted(up, keys);
    assert after.Keys == keys;
    SplitSize(up.Keys, keys);
    assert up.Keys - keys == before.Keys - keys;
    assert |up| == |up.Keys| && |after| == |after.Keys|;
  }

  // ----- One month's diff -----

  // Remove, then override; a key in both files ends with the added row.
  lemma {:induction false} DiffRefinesMap(job: DiffJob, before: AddressMap, after: AddressMap)
    requires 1 <= job.size && DiffStep(job, before, after, Done) && DistinctKeys(Added(job))
    ensures Hashes(after) == (Hashes(before) - Removed(job)) + Hashes(RowMap(Added(job)))
    ensures forall a :: a in Added(job) && a.Key() in Removed(job) ==> a.Key() in after && after[a.Key()] == a
  {
    hide BatchStep, Chunked, RowMap, Removed, Added;
    var rows := Added(job);
    var p := Progress(before - Removed(job), 0, 0, 0);
    HashOverride(p, rows, job.size);
    assert Hashes(before - Removed(job)) == Hashes(before) - Removed(job);
    BatchSizeIrrelevant(p, rows, job.size);
    forall a | a in rows && a.Key() in Removed(job) ensures a.Key() in after && after[a.Key()] == a {
      StepAt(p, rows, a);
    }
  }

  lemma {:induction false} DiffRefinesContents(job: DiffJob, before: AddressMap, after: AddressMap)
    requires 1 <= job.size && DiffStep(job, before, after, Done) && DistinctKeys(Added(job))
    requires AllCanonical(before) && CanonicalRows(Added(job))
    ensures after == (before - Removed(job)) + RowMap(Added(job))
  {
    hide BatchStep, Chunked, RowMap, Canonical, Removed, Added;
    CanonicalOverride(Progress(before - Removed(job), 0, 0, 0), Added(job), job.size);
  }

  // Applying the same diff again changes nothing, with no assumption on the hashes.
  lemma {:induction false} DiffReplay(job: DiffJob, m0: AddressMap, m1: AddressMap, m2: AddressMap)
    requires 1 <= job.size && DistinctKeys(Added(job))
    requires DiffStep(job, m0, m1, Done) && DiffStep(job, m1, m2, Done)
    ensures m2 == m1
  {
    hide BatchStep, Chunked, Removed, Added, KeysOf;
    var rows, gone := Added(job), Removed(job);
    var p0, p1 := Progress(m0 - gone, 0, 0, 0), Progress(m1 - gone, 0, 0, 0);
    BatchSizeIrrelevant(p0, rows, job.size);
    BatchSizeIrrelevant(p1, rows, job.size);
    StepKeys(p0, rows);
    StepKeys(p1, rows);
    forall k | k in m0.Keys + KeysOf(rows) ensures (k in m2 <==> k in m1) && (k in m1 ==> m2[k] == m1[k]) {
      ReplayAt(p0, p1, gone, rows, k);
    }
    assert m2.Keys == m1.Keys;
  }

  lemma ReplayAt(p0: Progress, p1: Progress, gone: set<AddressKey>, rows: seq<Address>, k: AddressKey)
    requires DistinctKeys(rows) && p0.m.Keys !! gone
    requires p1.m == BatchStep(p0, rows).m - gone
    ensures k in BatchStep(p1, rows).m <==> k in BatchStep(p0, rows).m
    ensures k in BatchStep(p0, rows).m ==> BatchStep(p1, rows).m[k] == BatchStep(p0, rows).m[k]
  {
    hide BatchStep, KeysOf;
    StepKeys(p0, rows);
    StepKeys(p1, rows);
    if k in KeysOf(rows) {
      var a := RowAt(rows, k);
      StepAt(p0, rows, a);
      StepAt(p1, rows, a);
    } else {
      StepElsewhere(p0, rows, k);
      StepElsewhere(p1, rows, k);
    }
  }

  lemma RowAt(rows: seq<Address>, k: AddressKey) returns (a: Address)
    requires k in KeysOf(rows)
    ensures a in rows && a.Key() == k
  {
    a :| a in rows && a.Key() == k;
  }

  // The replay reports no addition, no update and no deletion exactly when no key is in both files.
  lemma {:induction false} ReplayCounts(job: DiffJob, m0: AddressMap, m1: AddressMap)
    requires 1 <= job.size && DistinctKeys(Added(job)) && DiffStep(job, m0, m1, Done)
    ensures DiffCounts(job, m1).1 == 0
    ensures DiffCounts(job, m1).0 == DiffCounts(job, m1).3 == |Removed(job) * KeysOf(Added(job))|
    ensures Removed(job) !! KeysOf(Added(job)) <==> DiffCounts(job, m1).0 == 0 && DiffCounts(job, m1).3 == 0
  {
    hide BatchStep, Chunked, Removed, Added, KeysOf, StaleKeys;
    var rows, gone := Added(job), Removed(job);
    var p0, p1 := Progress(m0 - gone, 0, 0, 0), Progress(m1 - gone, 0, 0, 0);
    BatchSizeIrrelevant(p0, rows, job.size);
    BatchSizeIrrelevant(p1, rows, job.size);
    StepKeys(p0, rows);
    CountsAreKeySets(m1 - gone, rows);
    RemovedCount(m1, gone);
    NothingStale(p0, rows, gone);
    ReplayKeys(m0.Keys, m1.Keys, gone, KeysOf(rows));
    assert (m1 - gone).Keys == m1.Keys - gone;
    DisjointSize(gone, KeysOf(rows));
  }

  lemma DisjointSize<T>(s: set<T>, t: set<T>)
    ensures s !! t <==> |s * t| == 0
  {
    if s !! t {
      assert s * t == {};
    } else {
      var x :| x in s && x in t;
      assert x in s * t;
    }
  }

  lemma ReplayKeys<T>(m0: set<T>, m1: set<T>, gone: set<T>, keys: set<T>)
    requires m1 == (m0 - gone) + keys
    ensures keys - (m1 - gone) == gone * keys && m1 * gone == gone * keys
  {
  }

  lemma RemovedCount(m: AddressMap, gone: set<AddressKey>)
    ensures |m| - |m - gone| == |m.Keys * gone|
  {
    SplitSize(m.Keys, m.Keys * gone);
    assert m.Keys - m.Keys * gone == (m - gone).Keys;
    assert |m| == |m.Keys| && |m - gone| == |(m - gone).Keys|;
  }

  lemma NothingStale(p0: Progress, rows: seq<Address>, gone: set<AddressKey>)
    requires DistinctKeys(rows)
    ensures StaleKeys(BatchStep(p0, rows).m - gone, rows) == {}
  {
    hide BatchStep;
    forall a | a in rows ensures !IsStale(BatchStep(p0, rows).m - gone)(a) {
      StepAt(p0, rows, a);
    }
  }

  lemma {:induction false} DiffCountsExact(job: DiffJob, before: AddressMap, after: AddressMap)
    requires 1 <= job.size && DistinctKeys(Added(job)) && DiffStep(job, before, after, Done)
    ensures var m := before - Removed(job);
            var (added, updated, same, deleted, skipped, total) := DiffCounts(job, before);
            && deleted == |before.Keys * Removed(job)|
            && added == |KeysOf(Added(job)) - m.Keys|
            && updated == |StaleKeys(m, Added(job))|
            && same == |(KeysOf(Added(job)) * m.Keys) - StaleKeys(m, Added(job))|
            && skipped == (if job.add.Some? then job.add.value.total - |job.add.value.rows| else 0)
            && total == (if job.del.Some? then |job.del.value.keys| else 0)
                        + (if job.add.Some? then job.add.value.total else 0)
            && |after| == |before| + added - deleted
  {
    hide BatchStep, Chunked, Removed, Added, KeysOf, StaleKeys;
    var m := before - Removed(job);
    BatchSizeIrrelevant(Progress(m, 0, 0, 0), Added(job), job.size);
    CountsAreKeySets(m, Added(job));
    RemovedCount(before, Removed(job));
    assert DiffCounts(job, before).3 == |before.Keys * Removed(job)|;
    assert |after| == |m| + DiffCounts(job, before).0;
  }
}

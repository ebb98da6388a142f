// internal/sync/applier.go:39-69 as a function on the table's contents, and what batching does to it.

module Batches {
  import opened Seqs
  import opened Addresses
  import opened Tables

  // The contents of the table with the counters of ApplyResult that applyBatch feeds.
  datatype Progress = Progress(m: AddressMap, added: nat, updated: nat, same: nat)

  function IsNew(m: AddressMap): Address -> bool {
    (a: Address) => a.Key() !in m
  }

  function IsStale(m: AddressMap): Address -> bool {
    (a: Address) => a.Key() in m && m[a.Key()].sourceHash != a.sourceHash
  }

  function IsCurrent(m: AddressMap): Address -> bool {
    (a: Address) => a.Key() in m && m[a.Key()].sourceHash == a.sourceHash
  }

  function NeedsWrite(m: AddressMap): Address -> bool {
    (a: Address) => a.Key() !in m || m[a.Key()].sourceHash != a.sourceHash
  }

  // Every row of the batch is classified against the contents before the batch.
  function BatchStep(p: Progress, batch: seq<Address>): Progress {
    Progress(
      PutAll(p.m, Filter(batch, NeedsWrite(p.m))),
      p.added + |Filter(batch, IsNew(p.m))|,
      p.updated + |Filter(batch, IsStale(p.m))|,
      p.same + |Filter(batch, IsCurrent(p.m))|)
  }

  // Full batches of the given size, then the remainder.
  function Chunked(p: Progress, rows: seq<Address>, size: nat): Progress
    requires 1 <= size
    decreases |rows|
  {
    if rows == [] then p else
      var n := Min(size, |rows|);
      Chunked(BatchStep(p, rows[..n]), rows[n..], size)
  }

  lemma EmptyStep(p: Progress)
    ensures BatchStep(p, []) == p
  {
  }

  // The counters of a batch do not depend on the counters so far.
  lemma StepShift(p: Progress, m: AddressMap, batch: seq<Address>)
    requires p.m == m
    ensures var q := BatchStep(Progress(m, 0, 0, 0), batch);
            BatchStep(p, batch) == Progress(q.m, p.added + q.added, p.updated + q.updated, p.same + q.same)
  {
  }

  // n rows fill a number of batches exactly.
  predicate WholeBatches(n: nat, size: nat)
    requires 1 <= size
  {
    n == 0 || (size <= n && WholeBatches(n - size, size))
  }

  function KeysOf(rows: seq<Address>): set<AddressKey> {
    set a | a in rows :: a.Key()
  }

  // The map a list of rows denotes.
  function RowMap(rows: seq<Address>): AddressMap {
    PutAll(map[], rows)
  }

  ghost predicate DistinctKeys(rows: seq<Address>) {
    forall i, j :: 0 <= i < j < |rows| ==> rows[i].Key() != rows[j].Key()
  }

  // Some stored content differs from the row that should replace it while the hashes agree.
  ghost predicate HidesAChange(m: AddressMap, a: Address) {
    a.Key() in m && m[a.Key()].sourceHash == a.sourceHash && m[a.Key()] != a
  }

  ghost predicate AllCanonical(m: AddressMap) {
    forall k :: k in m ==> Canonical(m[k])
  }

  lemma ChunkedAppend(p: Progress, xs: seq<Address>, ys: seq<Address>, size: nat)
    requires 1 <= size && WholeBatches(|xs|, size)
    ensures Chunked(p, xs + ys, size) == Chunked(Chunked(p, xs, size), ys, size)
    decreases |xs|
  {
    if xs == [] {
      assert xs + ys == ys;
    } else {
      assert |xs| >= size;
      assert (xs + ys)[..size] == xs[..size] && (xs + ys)[size..] == xs[size..] + ys;
      ChunkedAppend(BatchStep(p, xs[..size]), xs[size..], ys, size);
    }
  }

  lemma OneChunk(p: Progress, rows: seq<Address>, size: nat)
    requires 1 <= size && |rows| <= size && rows != []
    ensures Chunked(p, rows, size) == BatchStep(p, rows)
  {
    assert rows[..|rows|] == rows && rows[|rows|..] == [];
  }

  lemma PutAllKeys(m: AddressMap, rows: seq<Address>)
    ensures PutAll(m, rows).Keys == m.Keys + KeysOf(rows)
  {
    if rows != [] {
      PutAllKeys(m, rows[..|rows| - 1]);
      assert rows == rows[..|rows| - 1] + [rows[|rows| - 1]];
    }
  }

  lemma PutAllElsewhere(m: AddressMap, rows: seq<Address>, k: AddressKey)
    requires k !in KeysOf(rows)
    ensures k in PutAll(m, rows) <==> k in m
    ensures k in m ==> PutAll(m, rows)[k] == m[k]
  {
    if rows != [] {
      assert rows == rows[..|rows| - 1] + [rows[|rows| - 1]];
      PutAllElsewhere(m, rows[..|rows| - 1], k);
    }
  }

  lemma PutAllAt(m: AddressMap, rows: seq<Address>, a: Address)
    requires DistinctKeys(rows) && a in rows
    ensures a.Key() in PutAll(m, rows) && PutAll(m, rows)[a.Key()] == a
  {
    var n := |rows| - 1;
    if a != rows[n] {
      assert rows == rows[..n] + [rows[n]];
      PutAllAt(m, rows[..n], a);
    }
  }

  lemma DistinctInit(rows: seq<Address>)
    requires DistinctKeys(rows) && rows != []
    ensures var n := |rows| - 1; DistinctKeys(rows[..n]) && forall a :: a in rows[..n] ==> a.Key() != rows[n].Key()
  {
  }

  lemma DistinctSnoc(rows: seq<Address>, a: Address)
    requires DistinctKeys(rows) && forall b :: b in rows ==> b.Key() != a.Key()
    ensures DistinctKeys(rows + [a])
  {
  }

  lemma {:induction false} FilterDistinct(rows: seq<Address>, p: Address -> bool)
    requires DistinctKeys(rows)
    ensures DistinctKeys(Filter(rows, p))
  {
    hide DistinctKeys;
    if rows == [] {
      assert Filter(rows, p) == rows;
    } else {
      var n := |rows| - 1;
      DistinctInit(rows);
      FilterDistinct(rows[..n], p);
      FilterMembers(rows[..n], p);
      if p(rows[n]) {
        DistinctSnoc(Filter(rows[..n], p), rows[n]);
      } else {
        assert Filter(rows, p) == Filter(rows[..n], p);
      }
    }
  }

  // Two batches with no key in common amount to one batch.
  lemma StepsMerge(p: Progress, xs: seq<Address>, ys: seq<Address>)
    requires KeysOf(xs) !! KeysOf(ys)
    ensures BatchStep(BatchStep(p, xs), ys) == BatchStep(p, xs + ys)
  {
    hide Filter;
    var m1 := BatchStep(p, xs).m;
    FilterMembers(xs, NeedsWrite(p.m));
    forall a | a in ys ensures (a.Key() in m1 <==> a.Key() in p.m) && (a.Key() in m1 ==> m1[a.Key()] == p.m[a.Key()]) {
      assert a.Key() in KeysOf(ys);
      assert KeysOf(Filter(xs, NeedsWrite(p.m))) <= KeysOf(xs);
      PutAllElsewhere(p.m, Filter(xs, NeedsWrite(p.m)), a.Key());
    }
    FilterSame(ys, NeedsWrite(m1), NeedsWrite(p.m));
    FilterSame(ys, IsNew(m1), IsNew(p.m));
    FilterSame(ys, IsStale(m1), IsStale(p.m));
    FilterSame(ys, IsCurrent(m1), IsCurrent(p.m));
    FilterAppend(xs, ys, NeedsWrite(p.m));
    FilterAppend(xs, ys, IsNew(p.m));
    FilterAppend(xs, ys, IsStale(p.m));
    FilterAppend(xs, ys, IsCurrent(p.m));
    PutAllAppend(p.m, Filter(xs, NeedsWrite(p.m)), Filter(ys, NeedsWrite(p.m)));
  }

  lemma SplitKeys(rows: seq<Address>, n: nat)
    requires DistinctKeys(rows) && n <= |rows|
    ensures KeysOf(rows[..n]) !! KeysOf(rows[n..])
  {
    forall a, b | a in rows[..n] && b in rows[n..] ensures a.Key() != b.Key() {
      var i :| 0 <= i < n && rows[i] == a;
      var j :| n <= j < |rows| && rows[j] == b;
    }
  }

  // With pairwise distinct keys the batch size does not matter, neither for the table nor for the counters.
  lemma {:induction false} BatchSizeIrrelevant(p: Progress, rows: seq<Address>, size: nat)
    requires 1 <= size && DistinctKeys(rows)
    ensures Chunked(p, rows, size) == BatchStep(p, rows)
    decreases |rows|
  {
    if rows == [] {
      assert Filter(rows, NeedsWrite(p.m)) == [];
    } else {
      var n := Min(size, |rows|);
      var xs, ys := rows[..n], rows[n..];
      assert rows == xs + ys;
      SplitKeys(rows, n);
      BatchSizeIrrelevant(BatchStep(p, xs), ys, size);
      StepsMerge(p, xs, ys);
    }
  }

  // What one pass over rows with distinct keys leaves under each key.
  lemma StepAt(p: Progress, rows: seq<Address>, a: Address)
    requires DistinctKeys(rows) && a in rows
    ensures a.Key() in BatchStep(p, rows).m
    ensures BatchStep(p, rows).m[a.Key()] == if IsCurrent(p.m)(a) then p.m[a.Key()] else a
    ensures BatchStep(p, rows).m[a.Key()].sourceHash == a.sourceHash
  {
    var written := Filter(rows, NeedsWrite(p.m));
    FilterMembers(rows, NeedsWrite(p.m));
    FilterDistinct(rows, NeedsWrite(p.m));
    if NeedsWrite(p.m)(a) {
      PutAllAt(p.m, written, a);
    } else {
      SameKeySameRow(rows, a);
      PutAllElsewhere(p.m, written, a.Key());
    }
  }

  lemma SameKeySameRow(rows: seq<Address>, a: Address)
    requires DistinctKeys(rows) && a in rows
    ensures forall b :: b in rows && b.Key() == a.Key() ==> b == a
  {
    forall b | b in rows && b.Key() == a.Key() ensures b == a {
      var i :| 0 <= i < |rows| && rows[i] == a;
      var j :| 0 <= j < |rows| && rows[j] == b;
    }
  }

  lemma StepElsewhere(p: Progress, rows: seq<Address>, k: AddressKey)
    requires k !in KeysOf(rows)
    ensures k in BatchStep(p, rows).m <==> k in p.m
    ensures k in p.m ==> BatchStep(p, rows).m[k] == p.m[k]
  {
    FilterMembers(rows, NeedsWrite(p.m));
    assert KeysOf(Filter(rows, NeedsWrite(p.m))) <= KeysOf(rows);
    PutAllElsewhere(p.m, Filter(rows, NeedsWrite(p.m)), k);
  }

  lemma StepKeys(p: Progress, rows: seq<Address>)
    ensures BatchStep(p, rows).m.Keys == p.m.Keys + KeysOf(rows)
  {
    PutAllKeys(p.m, Filter(rows, NeedsWrite(p.m)));
    FilterMembers(rows, NeedsWrite(p.m));
    forall a | a in rows ensures a.Key() in p.m || a.Key() in KeysOf(Filter(rows, NeedsWrite(p.m))) {
      assert NeedsWrite(p.m)(a) ==> a in Filter(rows, NeedsWrite(p.m));
    }
  }

  lemma RowMapKeys(rows: seq<Address>)
    ensures RowMap(rows).Keys == KeysOf(rows)
  {
    PutAllKeys(map[], rows);
  }

  lemma RowMapAt(rows: seq<Address>, a: Address)
    requires DistinctKeys(rows) && a in rows
    ensures a.Key() in RowMap(rows) && RowMap(rows)[a.Key()] == a
  {
    PutAllAt(map[], rows, a);
  }

  lemma OverrideAt(p: Progress, rows: seq<Address>, k: AddressKey)
    requires DistinctKeys(rows) && k in p.m.Keys + KeysOf(rows)
    ensures k in BatchStep(p, rows).m && k in p.m + RowMap(rows)
    ensures BatchStep(p, rows).m[k] == (p.m + RowMap(rows))[k]
            <==> forall a :: a in rows && a.Key() == k ==> !HidesAChange(p.m, a)
  {
    hide BatchStep, RowMap, Filter;
    RowMapKeys(rows);
    StepKeys(p, rows);
    if k in KeysOf(rows) {
      var a :| a in rows && a.Key() == k;
      StepAt(p, rows, a);
      RowMapAt(rows, a);
      SameKeySameRow(rows, a);
    } else {
      StepElsewhere(p, rows, k);
    }
  }

  // Skipping rows whose hash agrees is the same as writing every row, exactly when no stored content
  // hides behind an equal hash.
  lemma {:induction false} WritesOnlyChanges(p: Progress, rows: seq<Address>)
    requires DistinctKeys(rows)
    ensures BatchStep(p, rows).m == p.m + RowMap(rows) <==> forall a :: a in rows ==> !HidesAChange(p.m, a)
  {
    hide BatchStep, RowMap, Filter, HidesAChange;
    var m1, m2 := BatchStep(p, rows).m, p.m + RowMap(rows);
    RowMapKeys(rows);
    StepKeys(p, rows);
    assert m1.Keys == m2.Keys == p.m.Keys + KeysOf(rows);
    forall k | k in p.m.Keys + KeysOf(rows)
      ensures m1[k] == m2[k] <==> forall a :: a in rows && a.Key() == k ==> !HidesAChange(p.m, a)
    {
      OverrideAt(p, rows, k);
    }
    forall a | a in rows ensures a.Key() in p.m.Keys + KeysOf(rows) {
    }
  }

  lemma CanonicalHidesNothing(m: AddressMap, a: Address)
    requires AllCanonical(m) && Canonical(a)
    ensures !HidesAChange(m, a)
  {
    if a.Key() in m && m[a.Key()].sourceHash == a.sourceHash {
      CanonicalHashInjective(m[a.Key()], a);
    }
  }

  // Under the two conditions the source relies on, a run of batches is a plain override.
  lemma {:induction false} CanonicalOverride(p: Progress, rows: seq<Address>, size: nat)
    requires 1 <= size && DistinctKeys(rows)
    requires AllCanonical(p.m) && forall a :: a in rows ==> Canonical(a)
    ensures Chunked(p, rows, size).m == p.m + RowMap(rows)
  {
    hide BatchStep, Chunked, RowMap, Canonical, HidesAChange;
    BatchSizeIrrelevant(p, rows, size);
    forall a | a in rows ensures !HidesAChange(p.m, a) {
      CanonicalHidesNothing(p.m, a);
    }
    WritesOnlyChanges(p, rows);
  }

  // ----- The counters are the sizes of key sets -----

  lemma CountKeys(rows: seq<Address>)
    requires DistinctKeys(rows)
    ensures |KeysOf(rows)| == |rows|
  {
    if rows != [] {
      var n := |rows| - 1;
      CountKeys(rows[..n]);
      assert rows == rows[..n] + [rows[n]];
      assert KeysOf(rows) == KeysOf(rows[..n]) + {rows[n].Key()};
    }
  }

  lemma CountFiltered(rows: seq<Address>, p: Address -> bool, keys: set<AddressKey>)
    requires DistinctKeys(rows)
    requires forall k :: k in keys <==> exists a :: a in rows && a.Key() == k && p(a)
    ensures |Filter(rows, p)| == |keys|
  {
    FilterMembers(rows, p);
    FilterDistinct(rows, p);
    CountKeys(Filter(rows, p));
    assert KeysOf(Filter(rows, p)) == keys;
  }

  // Keys of the file that the table has with another hash.
  function StaleKeys(m: AddressMap, rows: seq<Address>): set<AddressKey> {
    set a | a in rows && a.Key() in m && m[a.Key()].sourceHash != a.sourceHash :: a.Key()
  }

  lemma CountNew(m: AddressMap, rows: seq<Address>)
    requires DistinctKeys(rows)
    ensures |Filter(rows, IsNew(m))| == |KeysOf(rows) - m.Keys|
  {
    CountFiltered(rows, IsNew(m), KeysOf(rows) - m.Keys);
  }

  lemma CountStale(m: AddressMap, rows: seq<Address>)
    requires DistinctKeys(rows)
    ensures |Filter(rows, IsStale(m))| == |StaleKeys(m, rows)|
  {
    CountFiltered(rows, IsStale(m), StaleKeys(m, rows));
  }

  lemma CountCurrent(m: AddressMap, rows: seq<Address>)
    requires DistinctKeys(rows)
    ensures |Filter(rows, IsCurrent(m))| == |(KeysOf(rows) * m.Keys) - StaleKeys(m, rows)|
  {
    forall a | a in rows ensures a.Key() in StaleKeys(m, rows) <==> IsStale(m)(a) {
      SameKeySameRow(rows, a);
    }
    CountFiltered(rows, IsCurrent(m), (KeysOf(rows) * m.Keys) - StaleKeys(m, rows));
  }

  lemma {:induction false} CountsAreKeySets(m: AddressMap, rows: seq<Address>)
    requires DistinctKeys(rows)
    ensures var p := BatchStep(Progress(m, 0, 0, 0), rows);
            && p.added == |KeysOf(rows) - m.Keys|
            && p.updated == |StaleKeys(m, rows)|
            && p.same == |(KeysOf(rows) * m.Keys) - StaleKeys(m, rows)|
            && p.added + p.updated + p.same == |rows|
            && |p.m| == |m| + p.added
  {
    hide Filter, PutAll, KeysOf, StaleKeys;
    CountNew(m, rows);
    CountStale(m, rows);
    CountCurrent(m, rows);
    CountKeys(rows);
    StaleAmongKeys(m, rows);
    KeySetSizes(m.Keys, KeysOf(rows), StaleKeys(m, rows));
    StepSize(m, rows);
  }

  lemma StepSize(m: AddressMap, rows: seq<Address>)
    ensures |BatchStep(Progress(m, 0, 0, 0), rows).m| == |m| + |KeysOf(rows) - m.Keys|
  {
    hide BatchStep, KeysOf;
    StepKeys(Progress(m, 0, 0, 0), rows);
    KeySetSizes(m.Keys, KeysOf(rows), {});
    var after := BatchStep(Progress(m, 0, 0, 0), rows).m;
    assert |after| == |after.Keys| && |m| == |m.Keys|;
  }

  lemma StaleAmongKeys(m: AddressMap, rows: seq<Address>)
    ensures StaleKeys(m, rows) <= KeysOf(rows) * m.Keys
  {
  }

  lemma KeySetSizes<T>(m: set<T>, keys: set<T>, stale: set<T>)
    requires stale <= keys * m
    ensures |keys| == |keys - m| + |stale| + |(keys * m) - stale|
    ensures |m + keys| == |m| + |keys - m|
  {
    SplitSize(keys, keys * m);
    assert keys - (keys * m) == keys - m;
    SplitSize(keys * m, stale);
    SplitSize(m + keys, m);
    assert (m + keys) - m == keys - m;
  }

  lemma SplitSize<T>(s: set<T>, t: set<T>)
    requires t <= s
    ensures |s| == |t| + |s - t|
  {
    assert s == t + (s - t);
  }

  // ----- Every row is counted once, repeated keys or not -----

  lemma {:induction false} ThreeWays(m: AddressMap, rows: seq<Address>)
    ensures |Filter(rows, IsNew(m))| + |Filter(rows, IsStale(m))| + |Filter(rows, IsCurrent(m))| == |rows|
  {
    if rows != [] {
      ThreeWays(m, rows[..|rows| - 1]);
    }
  }

  lemma {:induction false} EveryRowCounted(p: Progress, rows: seq<Address>, size: nat)
    requires 1 <= size
    ensures var q := Chunked(p, rows, size); q.added + q.updated + q.same == p.added + p.updated + p.same + |rows|
    decreases |rows|
  {
    hide Filter, PutAll;
    if rows != [] {
      var n := Min(size, |rows|);
      ThreeWays(p.m, rows[..n]);
      EveryRowCounted(BatchStep(p, rows[..n]), rows[n..], size);
    }
  }

  lemma SmallQuotient(d: int, size: int)
    requires 1 <= size && 0 - size < d * size < size
    ensures d == 0
  {
  }

  lemma Remainder(n: nat, q: int, r: nat, size: nat)
    requires n == q * size + r && r < size
    ensures n % size == r
  {
    var p, s := n / size, n % size;
    assert n == p * size + s;
    assert (p - q) * size == r - s;
    SmallQuotient(p - q, size);
  }

  lemma {:induction false} WholeMeans(n: nat, size: nat)
    requires 1 <= size
    ensures WholeBatches(n, size) <==> n % size == 0
  {
    if size <= n {
      var m := n - size;
      WholeMeans(m, size);
      assert m == (m / size) * size + m % size;
      Remainder(n, m / size + 1, m % size, size);
    } else {
      Remainder(n, 0, n, size);
    }
  }

  // ----- Rows that share a key -----

  lemma OneRow(m: AddressMap, a: Address, p: Address -> bool)
    ensures PutAll(m, [a]) == m[a.Key() := a]
    ensures Filter([a], p) == if p(a) then [a] else []
  {
    assert [a][..0] == [];
  }

  // Both rows are compared with what was stored before the batch.
  lemma DuplicateInOneBatch(m: AddressMap, a1: Address, a2: Address)
    requires NeedsWrite(m)(a1) && !NeedsWrite(m)(a2)
    ensures BatchStep(Progress(m, 0, 0, 0), [a1, a2]).m == m[a1.Key() := a1]
  {
    hide Filter, PutAll;
    FilterAppend([a1], [a2], NeedsWrite(m));
    OneRow(m, a1, NeedsWrite(m));
    OneRow(m, a2, NeedsWrite(m));
    assert [a1] + [a2] == [a1, a2];
    assert [a1] + [] == [a1];
  }

  lemma DuplicateInTwoBatches(m: AddressMap, a1: Address, a2: Address)
    requires NeedsWrite(m)(a1) && a1.Key() == a2.Key() && a1.sourceHash != a2.sourceHash
    ensures Chunked(Progress(m, 0, 0, 0), [a1, a2], 1).m == m[a1.Key() := a1][a2.Key() := a2]
  {
    hide Filter, PutAll, BatchStep;
    var p := Progress(m, 0, 0, 0);
    var q := BatchStep(p, [a1]);
    assert q.m == m[a1.Key() := a1] by {
      StepOf(p, a1);
    }
    StepOf(q, a2);
    assert [a1, a2][..1] == [a1] && [a1, a2][1..] == [a2];
    OneChunk(q, [a2], 1);
  }

  lemma StepOf(p: Progress, a: Address)
    requires NeedsWrite(p.m)(a)
    ensures BatchStep(p, [a]).m == p.m[a.Key() := a]
  {
    hide Filter, PutAll;
    OneRow(p.m, a, NeedsWrite(p.m));
  }

  // With k -> h2 stored, the batch [(k, h1), (k, h2)] ends with h1, while two batches of one row end with h2:
  // an example for the second half of DistinctExactly.
  lemma DuplicateKeysDependOnBatchSize(a1: Address, a2: Address)
    requires a1.Key() == a2.Key() && a1.sourceHash != a2.sourceHash
    ensures Chunked(Progress(map[a1.Key() := a2], 0, 0, 0), [a1, a2], 2).m == map[a1.Key() := a1]
    ensures Chunked(Progress(map[a1.Key() := a2], 0, 0, 0), [a1, a2], 1).m == map[a1.Key() := a2]
  {
    hide Filter, PutAll, BatchStep, Chunked;
    var m := map[a1.Key() := a2];
    OneChunk(Progress(m, 0, 0, 0), [a1, a2], 2);
    DuplicateInOneBatch(m, a1, a2);
    DuplicateInTwoBatches(m, a1, a2);
  }

  // ----- Exactly the files without repeated keys are indifferent to batching -----

  // One row at a time, a key is counted as added once.
  lemma {:induction false} SingleRowsAdded(p: Progress, rows: seq<Address>)
    ensures Chunked(p, rows, 1).added == p.added + |KeysOf(rows) - p.m.Keys|
    decreases |rows|
  {
    hide BatchStep, KeysOf;
    if rows == [] {
      NoKeys();
    } else {
      var q := BatchStep(p, rows[..1]);
      SingleRowsAdded(q, rows[1..]);
      OneRowAdded(p, rows[0], rows[1..]);
      assert rows[..1] == [rows[0]] && rows == [rows[0]] + rows[1..];
    }
  }

  lemma NoKeys()
    ensures KeysOf([]) == {}
  {
  }

  lemma {:induction false} OneRowAdded(p: Progress, a: Address, rest: seq<Address>)
    ensures var q := BatchStep(p, [a]);
            p.added + |KeysOf([a] + rest) - p.m.Keys| == q.added + |KeysOf(rest) - q.m.Keys|
  {
    hide BatchStep, KeysOf;
    OneRowBatch(p, a);
    FirstKey(a, rest);
    OneMore(KeysOf(rest), p.m.Keys, a.Key());
  }

  lemma {:induction false} OneRowBatch(p: Progress, a: Address)
    ensures BatchStep(p, [a]).added == p.added + (if a.Key() in p.m then 0 else 1)
    ensures BatchStep(p, [a]).m.Keys == p.m.Keys + {a.Key()}
  {
    OneRow(p.m, a, IsNew(p.m));
    StepKeys(p, [a]);
    assert KeysOf([a]) == {a.Key()};
    hide Filter, PutAll, KeysOf;
  }

  lemma FirstKey(a: Address, rest: seq<Address>)
    ensures KeysOf([a] + rest) == {a.Key()} + KeysOf(rest)
  {
  }

  lemma OneMore<T>(keys: set<T>, m: set<T>, k: T)
    ensures |({k} + keys) - m| == (if k in m then 0 else 1) + |keys - (m + {k})|
  {
    assert ({k} + keys) - m == (keys - (m + {k})) + (if k in m then {} else {k});
  }

  lemma {:induction false} AsManyKeysAsRows(rows: seq<Address>)
    ensures |KeysOf(rows)| <= |rows|
    ensures |KeysOf(rows)| == |rows| ==> DistinctKeys(rows)
  {
    hide DistinctKeys, KeysOf;
    if rows == [] {
      NoKeys();
      NoneDistinct();
    } else {
      var init, last := rows[..|rows| - 1], rows[|rows| - 1];
      AsManyKeysAsRows(init);
      assert rows == init + [last];
      KeysOfLast(init, last);
      if last.Key() !in KeysOf(init) && DistinctKeys(init) {
        KeyAbsent(init, last);
        DistinctSnoc(init, last);
      }
    }
  }

  lemma NoneDistinct()
    ensures DistinctKeys([])
  {
  }

  lemma KeysOfLast(rows: seq<Address>, a: Address)
    ensures KeysOf(rows + [a]) == KeysOf(rows) + {a.Key()}
  {
  }

  lemma KeyAbsent(rows: seq<Address>, a: Address)
    requires a.Key() !in KeysOf(rows)
    ensures forall b :: b in rows ==> b.Key() != a.Key()
  {
  }

  lemma AllAdded(rows: seq<Address>)
    ensures BatchStep(Progress(map[], 0, 0, 0), rows).added == |rows|
  {
    FilterAll(rows, IsNew(map[]));
  }

  // The requirement of BatchSizeIrrelevant is exact.
  lemma {:induction false} DistinctExactly(rows: seq<Address>)
    ensures DistinctKeys(rows)
            <==> forall m, size: nat | 1 <= size ::
                   Chunked(Progress(m, 0, 0, 0), rows, size) == BatchStep(Progress(m, 0, 0, 0), rows)
  {
    hide Chunked, BatchStep, DistinctKeys, KeysOf;
    if DistinctKeys(rows) {
      forall m, size: nat | 1 <= size
        ensures Chunked(Progress(m, 0, 0, 0), rows, size) == BatchStep(Progress(m, 0, 0, 0), rows)
      {
        BatchSizeIrrelevant(Progress(m, 0, 0, 0), rows, size);
      }
    } else {
      var empty := Progress(map[], 0, 0, 0);
      SingleRowsAdded(empty, rows);
      AllAdded(rows);
      AsManyKeysAsRows(rows);
      assert KeysOf(rows) - empty.m.Keys == KeysOf(rows);
      assert Chunked(empty, rows, 1) != BatchStep(empty, rows);
    }
  }
}

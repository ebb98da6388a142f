// What sequences of look-back runs add up to: overlapping windows, with and without interruptions.

module Visits {
  import opened Seqs
  import opened Addresses
  import opened Tables
  import opened Batches
  import opened Appliers
  import opened Syncs
  import opened SyncTheory
  import opened Months
  import opened DiffRuns
  import opened Windows
  import opened LookBack

  // ----- Windows over a calendar of files -----

  // The files of every month.
  datatype Archive = Archive(del: int -> Listing, add: int -> Stream)

  // Position 2i is the abolished file of month i, position 2i + 1 its new-address file.
  function UnitsOf(archive: Archive): int -> Unit<string> {
    (p: int) => if p % 2 == 0 then Remove(Elems(archive.del(p / 2).keys))
        else Override(Hashes(RowMap(archive.add(p / 2).rows)))
  }

  // The feed offers the published files of the archive under their YYMM names, and nothing else, for months from lo up
  // to hi, hi excluded.
  ghost predicate Serves(feed: Feed, archive: Archive, published: set<int>, lo: int, hi: int) {
    forall i :: lo <= i < hi ==>
                  && feed.del(YYMM(i)) == (if 2 * i in published then Found(archive.del(i)) else NotFound)
                  && feed.add(YYMM(i)) == (if 2 * i + 1 in published then Found(archive.add(i)) else NotFound)
  }

  ghost predicate DistinctFiles(archive: Archive, published: set<int>) {
    forall p :: p in published && p % 2 == 1 ==> DistinctKeys(archive.add(p / 2).rows)
  }

  lemma MonthOfArchive(w: WindowJob, archive: Archive, published: set<int>, i: int, m: AddressMap)
    requires 1 <= w.size && Serves(w.feed, archive, published, i, i + 1) && DistinctFiles(archive, published)
    ensures Hashes(DiffEffect(m, MonthJob(w, YYMM(i))).m)
            == ApplyRange(Hashes(m), UnitsOf(archive), published, 2 * i, 2 * (i + 1))
  {
    hide DiffEffect, RowMap, YYMM, DistinctKeys, ApplyRange;
    var job := MonthJob(w, YYMM(i));
    var units := UnitsOf(archive);
    Parity(i);
    assert Added(job) == if 2 * i + 1 in published then archive.add(i).rows else [];
    assert Removed(job) == if 2 * i in published then Elems(archive.del(i).keys) else {};
    assert DistinctKeys(Added(job)) by {
      if 2 * i + 1 !in published {
        NoRowsDistinct();
      }
    }
    MonthIsTwoUnits(job, m);
    TwoPositions(Hashes(m), units, published, 2 * i);
    NoEffect(Hashes(m));
    NoEffect(Apply(Hashes(m), Remove(Removed(job))));
    NoRowsDistinct();
  }

  lemma Parity(i: int)
    ensures (2 * i) % 2 == 0 && (2 * i + 1) % 2 == 1 && (2 * i) / 2 == (2 * i + 1) / 2 == i
  {
  }

  lemma NoRowsDistinct()
    ensures DistinctKeys([]) && Hashes(RowMap([])) == map[]
  {
  }

  lemma NoEffect(m: HashMap)
    ensures Apply(m, Remove({})) == m && Apply(m, Override(map[])) == m
  {
    assert m - {} == m;
  }

  lemma TwoPositions(m: HashMap, units: int -> Unit<string>, published: set<int>, p: int)
    ensures ApplyRange(m, units, published, p, p + 2)
            == var n := if p in published then Apply(m, units(p)) else m;
               if p + 1 in published then Apply(n, units(p + 1)) else n
  {
    hide Apply;
    assert ApplyRange(m, units, published, p, p) == m;
    assert ApplyRange(m, units, published, p, p + 1) == if p in published then Apply(m, units(p)) else m;
  }

  // A window of runDiff is a stretch of the calendar.
  lemma {:induction false} WindowIsRange(w: WindowJob, archive: Archive, published: set<int>, last: int, n: nat, k: nat,
                                         m: AddressMap)
    requires 1 <= w.size && k <= n && w.months == Window(last, n)
    requires Serves(w.feed, archive, published, last - n + 1, last + 1) && DistinctFiles(archive, published)
    ensures Hashes(WindowEffect(w, w.months[..k], m))
            == ApplyRange(Hashes(m), UnitsOf(archive), published, 2 * (last - n + 1), 2 * (last - n + 1 + k))
    decreases k
  {
    hide *;
    var lo := last - n + 1;
    WindowSize(last, n);
    if k == 0 {
      EmptyWindow(w, m);
      RangeNothing(Hashes(m), UnitsOf(archive), published, 2 * lo);
    } else {
      var j := lo + k - 1;
      var units := UnitsOf(archive);
      var before := WindowEffect(w, w.months[..k - 1], m);
      WindowIsRange(w, archive, published, last, n, k - 1, m);
      assert Hashes(before) == ApplyRange(Hashes(m), units, published, 2 * lo, 2 * j);
      WindowSnoc(w, k - 1, m);
      assert w.months[..k - 1 + 1] == w.months[..k];
      WindowAt(last, n, k - 1);
      ServesOne(w.feed, archive, published, lo, last + 1, j);
      MonthOfArchive(w, archive, published, j, before);
      RangeSplit(Hashes(m), units, published, 2 * lo, 2 * j, 2 * (j + 1));
    }
  }

  lemma ServesOne(feed: Feed, archive: Archive, published: set<int>, lo: int, hi: int, i: int)
    requires Serves(feed, archive, published, lo, hi) && lo <= i < hi
    ensures Serves(feed, archive, published, i, i + 1)
  {
  }

  lemma RangeNothing(m: HashMap, units: int -> Unit<string>, published: set<int>, lo: int)
    ensures ApplyRange(m, units, published, lo, lo) == m
  {
  }

  // ----- Many runs -----

  // A successful diff run in month `last`, looking back n months, with what the site published by then.
  datatype Visit = Visit(last: int, n: nat, feed: Feed, published: set<int>)

  function FirstMonth(v: Visit): int {
    v.last - v.n + 1
  }

  function VisitRun(v: Visit): Run {
    Run(2 * FirstMonth(v), 2 * (v.last + 1), v.published)
  }

  function RunsOf(visits: seq<Visit>): seq<Run> {
    if visits == [] then [] else RunsOf(visits[..|visits| - 1]) + [VisitRun(visits[|visits| - 1])]
  }

  function VisitJob(v: Visit, size: nat): WindowJob {
    WindowJob(v.feed, Window(v.last, v.n), size)
  }

  // The table after each of the visits, one complete run of runDiff per visit.
  function VisitsEffect(visits: seq<Visit>, size: nat, m: AddressMap): AddressMap
    requires 1 <= size
  {
    if visits == [] then m else
      var w := VisitJob(visits[|visits| - 1], size);
      WindowEffect(w, w.months, VisitsEffect(visits[..|visits| - 1], size, m))
  }

  // That is what a sequence of successful runs of runDiff leaves.
  lemma {:induction false} TablesFollowVisits(visits: seq<Visit>, size: nat, eng: EngineOptions,
                                              tables: seq<AddressMap>)
    requires 1 <= size && |tables| == |visits| + 1
    requires forall i :: 0 <= i < |visits| ==>
                           DiffRunStep(VisitJob(visits[i], size), eng, tables[i], tables[i + 1], Finished(Done), false)
    ensures tables[|visits|] == VisitsEffect(visits, size, tables[0])
  {
    hide WindowEffect, Window, MonthFine;
    if visits != [] {
      var k := |visits| - 1;
      TablesFollowVisits(visits[..k], size, eng, tables[..k + 1]);
      assert DiffRunStep(VisitJob(visits[k], size), eng, tables[k], tables[k + 1], Finished(Done), false);
    }
  }

  // A clock that does not run backwards, a site that takes no file back while a later window has it, and files with
  // distinct keys.
  ghost predicate Orderly(visits: seq<Visit>, archive: Archive) {
    && (forall a :: 0 <= a < |visits| ==>
          && Serves(visits[a].feed, archive, visits[a].published, FirstMonth(visits[a]), visits[a].last + 1)
          && DistinctFiles(archive, visits[a].published))
    && (forall a, b :: 0 <= a < b < |visits| ==> visits[a].last <= visits[b].last)
    && (forall a, b, p ::
          0 <= a < b < |visits| && p in visits[a].published && 2 * FirstMonth(visits[b]) <= p
          ==> p in visits[b].published)
  }

  lemma {:induction false} VisitsAreRuns(visits: seq<Visit>, size: nat, archive: Archive, m: AddressMap)
    requires 1 <= size && Orderly(visits, archive)
    ensures Hashes(VisitsEffect(visits, size, m)) == RunsEffect(Hashes(m), UnitsOf(archive), RunsOf(visits))
  {
    hide WindowEffect, Hashes, ApplyRange, UnitsOf, Serves, DistinctFiles, Window;
    if visits != [] {
      var k := |visits| - 1;
      var v := visits[k];
      var w := VisitJob(v, size);
      OrderlyInit(visits, archive);
      VisitsAreRuns(visits[..k], size, archive, m);
      WindowSize(v.last, v.n);
      assert w.months[..v.n] == w.months;
      WindowIsRange(w, archive, v.published, v.last, v.n, v.n, VisitsEffect(visits[..k], size, m));
      var runs := RunsOf(visits);
      assert runs[..|runs| - 1] == RunsOf(visits[..k]) && runs[|runs| - 1] == VisitRun(v);
    }
  }

  lemma OrderlyInit(visits: seq<Visit>, archive: Archive)
    requires visits != [] && Orderly(visits, archive)
    ensures Orderly(visits[..|visits| - 1], archive)
  {
    hide Serves, DistinctFiles;
  }

  lemma {:induction false} RunsOfAt(visits: seq<Visit>)
    ensures |RunsOf(visits)| == |visits|
    ensures forall a :: 0 <= a < |visits| ==> RunsOf(visits)[a] == VisitRun(visits[a])
  {
    hide VisitRun;
    if visits != [] {
      RunsOfAt(visits[..|visits| - 1]);
    }
  }

  lemma VisitsAdvance(visits: seq<Visit>, archive: Archive)
    requires Orderly(visits, archive)
    ensures Advancing(RunsOf(visits))
  {
    hide RunsOf, Serves, DistinctFiles;
    RunsOfAt(visits);
  }

  // Overlapping look-back windows lose and distort nothing: the table ends as if each file seen by some run
  // had been applied exactly once, in calendar order, to the original table.
  lemma {:induction false} OverlappingWindows(visits: seq<Visit>, size: nat, archive: Archive, m: AddressMap, lo: int)
    requires 1 <= size && visits != [] && Orderly(visits, archive)
    requires forall v :: v in visits ==> lo <= FirstMonth(v)
    ensures Hashes(VisitsEffect(visits, size, m))
            == ApplyRange(Hashes(m), UnitsOf(archive), Coverage(RunsOf(visits)), 2 * lo,
                          2 * (visits[|visits| - 1].last + 1))
  {
    hide VisitsEffect, RunsEffect, Hashes, ApplyRange, UnitsOf, Coverage, RunsOf, Orderly, Advancing;
    VisitsAreRuns(visits, size, archive, m);
    VisitsAdvance(visits, archive);
    RunsOfAt(visits);
    forall r | r in RunsOf(visits) ensures 2 * lo <= r.lo {
      var a :| 0 <= a < |visits| && RunsOf(visits)[a] == r;
      assert visits[a] in visits;
    }
    OverlapsLoseNothing(Hashes(m), UnitsOf(archive), RunsOf(visits), 2 * lo);
  }

  // Without a gap between consecutive windows, and with each file that is ever published visible to some run whose
  // window has it, that is every published file of the whole period.
  lemma {:induction false} NothingMissed(visits: seq<Visit>, size: nat, archive: Archive, m: AddressMap,
                                         everything: set<int>, lo: int)
    requires 1 <= size && visits != [] && Orderly(visits, archive)
    requires forall a :: 0 <= a < |visits| - 1 ==> FirstMonth(visits[a + 1]) <= visits[a].last + 1
    requires (forall v :: v in visits ==> lo <= FirstMonth(v)) && exists v :: v in visits && FirstMonth(v) == lo
    requires forall a, p ::
               0 <= a < |visits| && Covers(VisitRun(visits[a]), p) && p in everything ==> p in Coverage(RunsOf(visits))
    requires forall a, p :: 0 <= a < |visits| && p in visits[a].published ==> p in everything
    ensures Hashes(VisitsEffect(visits, size, m))
            == ApplyRange(Hashes(m), UnitsOf(archive), everything, 2 * lo, 2 * (visits[|visits| - 1].last + 1))
  {
    VisitsAreRuns(visits, size, archive, m);
    VisitsAdvance(visits, archive);
    RunsOfAt(visits);
    RunsMeet(visits, everything);
    Starts(visits, lo);
    SeenIsPublished(visits, everything);
    hide *;
    EveryUnitOnce(Hashes(m), UnitsOf(archive), RunsOf(visits), everything, 2 * lo);
  }

  // File p of the archive, abolished ones before new ones of each month, mentions the key.
  ghost predicate FileMentions(archive: Archive, p: int, k: AddressKey) {
    if p % 2 == 0 then k in archive.del(p / 2).keys else exists a :: a in archive.add(p / 2).rows && a.Key() == k
  }

  // So for each key the newest published file of the period that mentions it decides, whichever runs have seen it.
  lemma {:induction false} NewestFileDecides(visits: seq<Visit>, size: nat, archive: Archive, m: AddressMap,
                                             everything: set<int>, lo: int, p: int, k: AddressKey)
    requires 1 <= size && visits != [] && Orderly(visits, archive)
    requires forall a :: 0 <= a < |visits| - 1 ==> FirstMonth(visits[a + 1]) <= visits[a].last + 1
    requires (forall v :: v in visits ==> lo <= FirstMonth(v)) && exists v :: v in visits && FirstMonth(v) == lo
    requires forall a, q ::
               0 <= a < |visits| && Covers(VisitRun(visits[a]), q) && q in everything ==> q in Coverage(RunsOf(visits))
    requires forall a, q :: 0 <= a < |visits| && q in visits[a].published ==> q in everything
    requires 2 * lo <= p < 2 * (visits[|visits| - 1].last + 1) && p in everything && FileMentions(archive, p, k)
    requires forall q :: p < q < 2 * (visits[|visits| - 1].last + 1) && q in everything ==> !FileMentions(archive, q, k)
    ensures var after := VisitsEffect(visits, size, m);
            if p % 2 == 0 then k !in after
            else k in after && exists a :: a in archive.add(p / 2).rows && a.Key() == k
                                           && after[k].sourceHash == a.sourceHash
  {
    NothingMissed(visits, size, archive, m, everything, lo);
    var hi := 2 * (visits[|visits| - 1].last + 1);
    hide VisitsEffect, Orderly, Coverage, RunsOf, UnitsOf, ApplyRange, RowMap, FileMentions;
    forall q ensures k in Mentions(UnitsOf(archive)(q)) <==> FileMentions(archive, q, k) {
      UnitMentions(archive, q, k);
    }
    LastUnitDecides(Hashes(m), UnitsOf(archive), everything, 2 * lo, hi, p, k);
    UnitHash(archive, p, k);
    var after := VisitsEffect(visits, size, m);
    assert k in after <==> k in Hashes(after);
  }

  lemma UnitMentions(archive: Archive, q: int, k: AddressKey)
    ensures k in Mentions(UnitsOf(archive)(q)) <==> FileMentions(archive, q, k)
  {
    hide RowMap;
    RowMapKeys(archive.add(q / 2).rows);
  }

  lemma {:induction false} UnitHash(archive: Archive, p: int, k: AddressKey)
    requires FileMentions(archive, p, k)
    ensures if p % 2 == 0 then UnitsOf(archive)(p).Remove?
            else
              && UnitsOf(archive)(p).Override? && k in UnitsOf(archive)(p).rows
              && exists a :: a in archive.add(p / 2).rows && a.Key() == k
                             && UnitsOf(archive)(p).rows[k] == a.sourceHash
  {
    hide RowMap;
    var rows := archive.add(p / 2).rows;
    RowMapKeys(rows);
    if p % 2 != 0 {
      RowMapFrom(rows, k);
    }
  }

  lemma {:induction false} RowMapFrom(rows: seq<Address>, k: AddressKey)
    requires k in KeysOf(rows)
    ensures k in RowMap(rows) && RowMap(rows)[k] in rows && RowMap(rows)[k].Key() == k
  {
    LastPut(map[], rows, k);
  }

  lemma {:induction false} RunsMeet(visits: seq<Visit>, everything: set<int>)
    requires forall a :: 0 <= a < |visits| - 1 ==> FirstMonth(visits[a + 1]) <= visits[a].last + 1
    requires forall a, p ::
               0 <= a < |visits| && Covers(VisitRun(visits[a]), p) && p in everything ==> p in Coverage(RunsOf(visits))
    ensures var runs := RunsOf(visits);
            && |runs| == |visits| && (visits != [] ==> runs[|runs| - 1].hi == 2 * (visits[|visits| - 1].last + 1))
            && (forall a :: 0 <= a < |runs| - 1 ==> runs[a + 1].lo <= runs[a].hi)
            && forall a, i :: 0 <= a < |runs| && Covers(runs[a], i) && i in everything ==> i in Coverage(runs)
  {
    hide RunsOf, Coverage, Covers;
    RunsOfAt(visits);
  }

  lemma {:induction false} Starts(visits: seq<Visit>, lo: int)
    requires (forall v :: v in visits ==> lo <= FirstMonth(v)) && exists v :: v in visits && FirstMonth(v) == lo
    ensures var runs := RunsOf(visits);
            (forall r :: r in runs ==> 2 * lo <= r.lo) && exists a :: 0 <= a < |runs| && runs[a].lo == 2 * lo
  {
    hide RunsOf;
    RunsOfAt(visits);
    var runs := RunsOf(visits);
    forall r | r in runs ensures 2 * lo <= r.lo {
      var a :| 0 <= a < |visits| && runs[a] == r;
      assert visits[a] in visits;
    }
    var v :| v in visits && FirstMonth(v) == lo;
    var k :| 0 <= k < |visits| && visits[k] == v;
    assert runs[k].lo == 2 * lo;
  }

  lemma {:induction false} SeenIsPublished(visits: seq<Visit>, everything: set<int>)
    requires forall a, p :: 0 <= a < |visits| && p in visits[a].published ==> p in everything
    ensures Coverage(RunsOf(visits)) <= everything
  {
    hide RunsOf;
    RunsOfAt(visits);
    var runs := RunsOf(visits);
    forall i | i in Coverage(runs) ensures i in everything {
      var r :| r in runs && i in r.published && Sees(r, i);
      var a :| 0 <= a < |visits| && runs[a] == r;
    }
  }

  // ----- With interruptions -----

  // A run of runDiff, successful or cut off.
  datatype Attempt = Attempt(visit: Visit, outcome: RunOutcome)

  predicate Succeeded(t: Attempt) {
    t.outcome == Finished(Done)
  }

  // The visits of the attempts that succeeded.
  function VisitsOf(attempts: seq<Attempt>): seq<Visit> {
    if attempts == [] then [] else
      var last := attempts[|attempts| - 1];
      VisitsOf(attempts[..|attempts| - 1]) + if Succeeded(last) then [last.visit] else []
  }

  // What the feed has at all is the archive's; downloads may fail.
  ghost predicate Offers(feed: Feed, archive: Archive, published: set<int>, lo: int, hi: int) {
    forall i :: lo <= i < hi ==>
                  && (feed.del(YYMM(i)).Found? ==> 2 * i in published && feed.del(YYMM(i)).file == archive.del(i))
                  && (feed.add(YYMM(i)).Found? ==> 2 * i + 1 in published && feed.add(YYMM(i)).file == archive.add(i))
  }

  ghost predicate OffersAt(v: Visit, archive: Archive) {
    Offers(v.feed, archive, v.published, FirstMonth(v), v.last + 1)
  }

  ghost predicate ServesAt(v: Visit, archive: Archive) {
    Serves(v.feed, archive, v.published, FirstMonth(v), v.last + 1) && DistinctFiles(archive, v.published)
  }

  // No file that the earlier visit may have seen is taken back while the later window has it.
  predicate Keeps(v: Visit, later: Visit) {
    && v.last <= later.last
    && forall p :: p in v.published && 2 * FirstMonth(later) <= p ==> p in later.published
  }

  ghost predicate OrderlyAttempts(attempts: seq<Attempt>, archive: Archive) {
    && (forall a :: 0 <= a < |attempts| ==> OffersAt(attempts[a].visit, archive))
    && (forall a :: 0 <= a < |attempts| && Succeeded(attempts[a]) ==> ServesAt(attempts[a].visit, archive))
    && (forall a, b :: 0 <= a < b < |attempts| ==> Keeps(attempts[a].visit, attempts[b].visit))
  }

  // Attempt i was cut off, and so was every one after it.
  ghost predicate Trailing(attempts: seq<Attempt>, i: nat) {
    forall k :: i <= k < |attempts| ==> !Succeeded(attempts[k])
  }

  // The next success after a cut run looks back at least as far.
  ghost predicate Retried(attempts: seq<Attempt>) {
    forall i, j :: 0 <= i < j < |attempts| && Trailing(attempts[..j], i) && Succeeded(attempts[j])
                   ==> FirstMonth(attempts[j].visit) <= FirstMonth(attempts[i].visit)
  }

  function MentionedBy(units: int -> Unit<string>, v: Visit): set<AddressKey> {
    Mentioned(units, v.published, 2 * FirstMonth(v), 2 * (v.last + 1))
  }

  // What the cut runs since the last success may have left different.
  function Pending(attempts: seq<Attempt>, units: int -> Unit<string>): set<AddressKey> {
    if attempts == [] || Succeeded(attempts[|attempts| - 1]) then {} else
      Pending(attempts[..|attempts| - 1], units) + MentionedBy(units, attempts[|attempts| - 1].visit)
  }

  lemma {:induction false} PendingBounded(attempts: seq<Attempt>, units: int -> Unit<string>, keys: set<AddressKey>)
    requires forall i :: 0 <= i < |attempts| && Trailing(attempts, i) ==> MentionedBy(units, attempts[i].visit) <= keys
    ensures Pending(attempts, units) <= keys
  {
    hide MentionedBy;
    if attempts != [] && !Succeeded(attempts[|attempts| - 1]) {
      var n := |attempts| - 1;
      assert Trailing(attempts, n);
      forall i | 0 <= i < n && Trailing(attempts[..n], i) ensures MentionedBy(units, attempts[..n][i].visit) <= keys {
        StillTrailing(attempts, i);
      }
      PendingBounded(attempts[..n], units, keys);
    }
  }

  lemma StillTrailing(attempts: seq<Attempt>, i: nat)
    requires attempts != [] && !Succeeded(attempts[|attempts| - 1]) && Trailing(attempts[..|attempts| - 1], i)
    ensures Trailing(attempts, i)
  {
    forall k | i <= k < |attempts| ensures !Succeeded(attempts[k]) {
      if k < |attempts| - 1 {
        assert attempts[..|attempts| - 1][k] == attempts[k];
      }
    }
  }

  // A success mentions all that the cut runs before it may have left different.
  lemma {:induction false} SuccessCovers(attempts: seq<Attempt>, archive: Archive)
    requires attempts != [] && Succeeded(attempts[|attempts| - 1]) && OrderlyAttempts(attempts, archive)
             && Retried(attempts)
    ensures Pending(attempts[..|attempts| - 1], UnitsOf(archive))
            <= MentionedBy(UnitsOf(archive), attempts[|attempts| - 1].visit)
  {
    hide OffersAt, ServesAt, UnitsOf, Mentioned;
    var n := |attempts| - 1;
    var later := attempts[n].visit;
    forall i | 0 <= i < n && Trailing(attempts[..n], i)
      ensures MentionedBy(UnitsOf(archive), attempts[..n][i].visit) <= MentionedBy(UnitsOf(archive), later)
    {
      var v := attempts[i].visit;
      assert Keeps(v, later) && FirstMonth(later) <= FirstMonth(v);
      MentionedInside(UnitsOf(archive), v.published, later.published, 2 * FirstMonth(v), 2 * (v.last + 1),
                      2 * FirstMonth(later), 2 * (later.last + 1));
    }
    PendingBounded(attempts[..n], UnitsOf(archive), MentionedBy(UnitsOf(archive), later));
  }

  lemma OffersOne(feed: Feed, archive: Archive, published: set<int>, lo: int, hi: int, i: int)
    requires Offers(feed, archive, published, lo, hi) && lo <= i < hi
    ensures feed.del(YYMM(i)).Found? ==> 2 * i in published && feed.del(YYMM(i)).file == archive.del(i)
    ensures feed.add(YYMM(i)).Found? ==> 2 * i + 1 in published && feed.add(YYMM(i)).file == archive.add(i)
  {
  }

  // The keys of one month are those of its two positions.
  lemma MonthInRange(w: WindowJob, archive: Archive, published: set<int>, i: int)
    requires Offers(w.feed, archive, published, i, i + 1)
    ensures var job := MonthJob(w, YYMM(i));
            Removed(job) + Hashes(RowMap(Added(job))).Keys <= Mentioned(UnitsOf(archive), published, 2 * i, 2 * (i + 1))
  {
    hide YYMM, RowMap, Mentioned;
    OffersOne(w.feed, archive, published, i, i + 1, i);
    Parity(i);
    NoRowsDistinct();
    var units := UnitsOf(archive);
    if 2 * i in published {
      MentionedAt(units, published, 2 * i, 2 * (i + 1), 2 * i);
    }
    if 2 * i + 1 in published {
      MentionedAt(units, published, 2 * i, 2 * (i + 1), 2 * i + 1);
    }
  }

  lemma {:induction false} TouchedInRange(w: WindowJob, archive: Archive, published: set<int>, last: int, n: nat,
                                          k: nat)
    requires k <= n && w.months == Window(last, n) && Offers(w.feed, archive, published, last - n + 1, last + 1)
    ensures |w.months| == n
    ensures Touched(w, w.months[..k]) <= Mentioned(UnitsOf(archive), published, 2 * (last - n + 1),
                                                   2 * (last - n + 1 + k))
    decreases k
  {
    hide *;
    var lo := last - n + 1;
    WindowSize(last, n);
    if k == 0 {
      NothingTouched(w, w.months[..0]);
    } else {
      var j := lo + k - 1;
      OneOffered(w.feed, archive, published, lo, last + 1, j);
      WindowAt(last, n, k - 1);
      TouchedInRange(w, archive, published, last, n, k - 1);
      var months := w.months[..k];
      assert months[..k - 1] == w.months[..k - 1] && months[k - 1] == YYMM(j);
      TouchedSnoc(w, months);
      MonthInRange(w, archive, published, j);
      MentionedInside(UnitsOf(archive), published, published, 2 * lo, 2 * j, 2 * lo, 2 * (j + 1));
      MentionedInside(UnitsOf(archive), published, published, 2 * j, 2 * (j + 1), 2 * lo, 2 * (j + 1));
    }
  }

  lemma OneOffered(feed: Feed, archive: Archive, published: set<int>, lo: int, hi: int, i: int)
    requires Offers(feed, archive, published, lo, hi) && lo <= i < hi
    ensures Offers(feed, archive, published, i, i + 1)
  {
  }

  ghost predicate TablesOk(attempts: seq<Attempt>, size: nat, eng: EngineOptions, tables: seq<AddressMap>)
    requires 1 <= size
  {
    && |tables| == |attempts| + 1
    && forall i :: 0 <= i < |attempts| ==>
                     DiffRunStep(VisitJob(attempts[i].visit, size), eng, tables[i], tables[i + 1], attempts[i].outcome,
                                 false)
  }

  lemma OneTableMore(attempts: seq<Attempt>, size: nat, eng: EngineOptions, tables: seq<AddressMap>)
    requires 1 <= size && TablesOk(attempts, size, eng, tables)
    ensures |tables| == |attempts| + 1
  {
  }

  // A cut run changes at most what its files mention.
  lemma CutStep(t: Attempt, size: nat, eng: EngineOptions, archive: Archive, before: AddressMap, after: AddressMap)
    requires 1 <= size && OffersAt(t.visit, archive) && DiffRunStep(VisitJob(t.visit, size), eng, before, after,
                                                                    t.outcome, false)
    ensures AgreeOff(Hashes(before), Hashes(after), MentionedBy(UnitsOf(archive), t.visit))
  {
    hide DiffRunStep, Window, Offers, Mentioned, UnitsOf, Within, WindowGone, WindowRows, AgreeOff, Hashes;
    var v := t.visit;
    var w := VisitJob(v, size);
    TouchedInRange(w, archive, v.published, v.last, v.n, v.n);
    assert w.months[..v.n] == w.months;
    CutIsWithin(w, eng, before, after, t.outcome);
    WithinAgrees(before, after, WindowGone(w, w.months), WindowRows(w, w.months));
    AgreeMore(Hashes(before), Hashes(after), Touched(w, w.months), MentionedBy(UnitsOf(archive), v));
  }

  // A success brings two tables together that differ only on keys its files mention.
  lemma SuccessStep(v: Visit, size: nat, archive: Archive, m1: AddressMap, m2: AddressMap, keys: set<AddressKey>)
    requires 1 <= size && ServesAt(v, archive) && AgreeOff(Hashes(m1), Hashes(m2), keys)
    requires keys <= MentionedBy(UnitsOf(archive), v)
    ensures var w := VisitJob(v, size); Hashes(WindowEffect(w, w.months, m1)) == Hashes(WindowEffect(w, w.months, m2))
  {
    hide Window, Serves, DistinctFiles, Mentioned, UnitsOf, AgreeOff, Hashes, WindowEffect, ApplyRange;
    var w := VisitJob(v, size);
    WindowSize(v.last, v.n);
    assert w.months[..v.n] == w.months;
    WindowIsRange(w, archive, v.published, v.last, v.n, v.n, m1);
    WindowIsRange(w, archive, v.published, v.last, v.n, v.n, m2);
    RangeHeals(Hashes(m1), Hashes(m2), keys, UnitsOf(archive), v.published, 2 * FirstMonth(v), 2 * (v.last + 1));
  }

  lemma AttemptsInit(attempts: seq<Attempt>, size: nat, eng: EngineOptions, archive: Archive, tables: seq<AddressMap>)
    requires 1 <= size && attempts != [] && OrderlyAttempts(attempts, archive) && Retried(attempts)
             && TablesOk(attempts, size, eng, tables)
    ensures var n := |attempts| - 1;
            OrderlyAttempts(attempts[..n], archive) && Retried(attempts[..n])
                && TablesOk(attempts[..n], size, eng, tables[..n + 1])
  {
    hide OffersAt, ServesAt, DiffRunStep, Keeps, Trailing;
    var n := |attempts| - 1;
    forall i, j | 0 <= i < j < n && Trailing(attempts[..n][..j], i) && Succeeded(attempts[..n][j])
      ensures FirstMonth(attempts[..n][j].visit) <= FirstMonth(attempts[..n][i].visit)
    {
      assert attempts[..n][..j] == attempts[..j];
    }
  }

  // The table differs from that of the successes alone only on what is pending.
  lemma {:induction false} AttemptsFollow(attempts: seq<Attempt>, size: nat, eng: EngineOptions, archive: Archive,
                                          tables: seq<AddressMap>)
    requires 1 <= size && OrderlyAttempts(attempts, archive) && Retried(attempts)
             && TablesOk(attempts, size, eng, tables)
    ensures AgreeOff(Hashes(tables[|attempts|]), Hashes(VisitsEffect(VisitsOf(attempts), size, tables[0])),
                     Pending(attempts, UnitsOf(archive)))
  {
    hide UnitsOf, Hashes, WindowEffect, MentionedBy, OffersAt, ServesAt, Keeps, Retried;
    if attempts != [] {
      var n := |attempts| - 1;
      var t, units := attempts[n], UnitsOf(archive);
      AttemptsInit(attempts, size, eng, archive, tables);
      AttemptsFollow(attempts[..n], size, eng, archive, tables[..n + 1]);
      var good := VisitsEffect(VisitsOf(attempts[..n]), size, tables[0]);
      assert DiffRunStep(VisitJob(t.visit, size), eng, tables[n], tables[n + 1], t.outcome, false);
      hide AgreeOff;
      if Succeeded(t) {
        SuccessCovers(attempts, archive);
        SuccessStep(t.visit, size, archive, tables[n], good, Pending(attempts[..n], units));
        LastVisit(VisitsOf(attempts[..n]), t.visit, size, tables[0]);
        DoneEffect(VisitJob(t.visit, size), eng, tables[n], tables[n + 1]);
        AgreeSame(Hashes(tables[n + 1]), Pending(attempts, units));
      } else {
        CutStep(t, size, eng, archive, tables[n], tables[n + 1]);
        AgreeChain(Hashes(tables[n]), Hashes(tables[n + 1]), Hashes(good), MentionedBy(units, t.visit),
                   Pending(attempts[..n], units));
        assert VisitsOf(attempts) == VisitsOf(attempts[..n]);
        assert Pending(attempts, units) == MentionedBy(units, t.visit) + Pending(attempts[..n], units);
      }
    } else {
      AgreeSame(Hashes(tables[0]), {});
    }
  }

  lemma DoneEffect(w: WindowJob, eng: EngineOptions, before: AddressMap, after: AddressMap)
    requires 1 <= w.size && DiffRunStep(w, eng, before, after, Finished(Done), false)
    ensures after == WindowEffect(w, w.months, before)
  {
  }

  lemma AgreeSame(m: HashMap, keys: set<AddressKey>)
    ensures AgreeOff(m, m, keys)
  {
  }

  lemma AgreeChain(m: HashMap, m1: HashMap, m2: HashMap, keys: set<AddressKey>, more: set<AddressKey>)
    requires AgreeOff(m, m1, keys) && AgreeOff(m, m2, more)
    ensures AgreeOff(m1, m2, keys + more)
  {
  }

  lemma LastVisit(visits: seq<Visit>, v: Visit, size: nat, m: AddressMap)
    requires 1 <= size
    ensures var w := VisitJob(v, size);
            VisitsEffect(visits + [v], size, m) == WindowEffect(w, w.months, VisitsEffect(visits, size, m))
  {
    hide WindowEffect, Window;
    assert (visits + [v])[..|visits|] == visits;
  }

  // The successes of orderly attempts are orderly.
  lemma {:induction false} SuccessesOrderly(attempts: seq<Attempt>, archive: Archive)
    requires OrderlyAttempts(attempts, archive)
    ensures Orderly(VisitsOf(attempts), archive)
    ensures forall v :: v in VisitsOf(attempts) ==> exists i :: 0 <= i < |attempts| && attempts[i].visit == v
  {
    hide OffersAt, Serves, DistinctFiles, Keeps, Orderly;
    if attempts == [] {
      NoVisits(archive);
    } else {
      var n := |attempts| - 1;
      SuccessesOrderly(attempts[..n], archive);
      var before := VisitsOf(attempts[..n]);
      forall v | v in before ensures exists i :: 0 <= i < n && attempts[i].visit == v {
        var i :| 0 <= i < n && attempts[..n][i].visit == v;
        assert attempts[i].visit == v;
      }
      if Succeeded(attempts[n]) {
        OneMoreVisit(before, attempts[n].visit, archive);
      } else {
        assert VisitsOf(attempts) == before;
      }
    }
  }

  lemma NoVisits(archive: Archive)
    ensures Orderly([], archive)
  {
  }

  lemma OneMoreVisit(visits: seq<Visit>, v: Visit, archive: Archive)
    requires Orderly(visits, archive) && ServesAt(v, archive) && forall u :: u in visits ==> Keeps(u, v)
    ensures Orderly(visits + [v], archive)
  {
    hide Serves, DistinctFiles;
    var all := visits + [v];
    forall a, b | 0 <= a < b < |all| ensures Keeps(all[a], all[b]) {
      if b == |visits| {
        assert all[a] in visits;
      } else {
        assert all[a] == visits[a] && all[b] == visits[b];
      }
    }
  }

  lemma {:induction false} SameAsSuccesses(attempts: seq<Attempt>, size: nat, eng: EngineOptions, archive: Archive,
                                           tables: seq<AddressMap>)
    requires 1 <= size && OrderlyAttempts(attempts, archive) && Retried(attempts)
             && TablesOk(attempts, size, eng, tables)
    requires attempts != [] && Succeeded(attempts[|attempts| - 1])
    ensures Hashes(tables[|attempts|]) == Hashes(VisitsEffect(VisitsOf(attempts), size, tables[0]))
  {
    AttemptsFollow(attempts, size, eng, archive, tables);
    assert Pending(attempts, UnitsOf(archive)) == {};
    hide *;
    hide Pending;
    AgreeEverywhere(Hashes(tables[|attempts|]), Hashes(VisitsEffect(VisitsOf(attempts), size, tables[0])),
                    Pending(attempts, UnitsOf(archive)));
  }

  lemma {:induction false} LastSuccess(attempts: seq<Attempt>, lo: int)
    requires attempts != [] && Succeeded(attempts[|attempts| - 1])
    requires forall t :: t in attempts && Succeeded(t) ==> lo <= FirstMonth(t.visit)
    ensures var visits := VisitsOf(attempts); visits != [] && visits[|visits| - 1] == attempts[|attempts| - 1].visit
    ensures forall v :: v in VisitsOf(attempts) ==> lo <= FirstMonth(v)
  {
    SuccessesIn(attempts);
  }

  // Interrupted and overlapping runs converge: whenever the next success after a cut run looks back at least as far,
  // the table ends as if each file seen by a success had been applied exactly once, in calendar order.
  lemma {:induction false} InterruptedRuns(attempts: seq<Attempt>, size: nat, eng: EngineOptions, archive: Archive,
                                           tables: seq<AddressMap>, lo: int)
    requires 1 <= size && OrderlyAttempts(attempts, archive) && Retried(attempts)
             && TablesOk(attempts, size, eng, tables)
    requires attempts != [] && Succeeded(attempts[|attempts| - 1])
    requires forall t :: t in attempts && Succeeded(t) ==> lo <= FirstMonth(t.visit)
    ensures Hashes(tables[|attempts|])
            == ApplyRange(Hashes(tables[0]), UnitsOf(archive), Coverage(RunsOf(VisitsOf(attempts))),
                          2 * lo, 2 * (attempts[|attempts| - 1].visit.last + 1))
  {
    hide *;
    OneTableMore(attempts, size, eng, tables);
    SameAsSuccesses(attempts, size, eng, archive, tables);
    SuccessesOrderly(attempts, archive);
    LastSuccess(attempts, lo);
    OverlappingWindows(VisitsOf(attempts), size, archive, tables[0], lo);
  }

  lemma {:induction false} SuccessesIn(attempts: seq<Attempt>)
    ensures forall v :: v in VisitsOf(attempts) ==> exists t :: t in attempts && Succeeded(t) && t.visit == v
  {
    if attempts != [] {
      var n := |attempts| - 1;
      SuccessesIn(attempts[..n]);
      assert attempts == attempts[..n] + [attempts[n]];
    }
  }

  // ----- The same for the addresses themselves, when their hashes tell them apart -----

  function ContentUnits(archive: Archive): int -> Unit<Address> {
    (p: int) => if p % 2 == 0 then Remove(Elems(archive.del(p / 2).keys)) else Override(RowMap(archive.add(p / 2).rows))
  }

  ghost predicate CanonicalFiles(archive: Archive, published: set<int>) {
    forall p :: p in published && p % 2 == 1 ==> CanonicalRows(archive.add(p / 2).rows)
  }

  lemma HashesOfUnit(m: AddressMap, keys: set<AddressKey>, rows: AddressMap)
    ensures Hashes(m - keys) == Hashes(m) - keys && Hashes(m + rows) == Hashes(m) + Hashes(rows)
  {
  }

  lemma {:induction false} RangeHashes(m: AddressMap, archive: Archive, published: set<int>, lo: int, hi: int)
    ensures Hashes(ApplyRange(m, ContentUnits(archive), published, lo, hi))
            == ApplyRange(Hashes(m), UnitsOf(archive), published, lo, hi)
    decreases hi - lo
  {
    hide Hashes, RowMap;
    if lo < hi {
      RangeHashes(m, archive, published, lo, hi - 1);
      var p := hi - 1;
      var before := ApplyRange(m, ContentUnits(archive), published, lo, p);
      HashesOfUnit(before, Elems(archive.del(p / 2).keys), RowMap(archive.add(p / 2).rows));
    }
  }

  lemma RowMapCanonical(rows: seq<Address>)
    requires CanonicalRows(rows)
    ensures AllCanonical(RowMap(rows))
  {
    hide Canonical;
    PutAllPartly(map[], rows);
  }

  lemma UnitCanonical(m: AddressMap, keys: set<AddressKey>, rows: AddressMap)
    requires AllCanonical(m)
    ensures AllCanonical(m - keys)
    ensures AllCanonical(rows) ==> AllCanonical(m + rows)
  {
    hide Canonical;
  }

  lemma {:induction false} RangeCanonical(m: AddressMap, archive: Archive, published: set<int>, lo: int, hi: int)
    requires AllCanonical(m) && CanonicalFiles(archive, published)
    ensures AllCanonical(ApplyRange(m, ContentUnits(archive), published, lo, hi))
    decreases hi - lo
  {
    hide AllCanonical, CanonicalRows, RowMap;
    if lo < hi {
      RangeCanonical(m, archive, published, lo, hi - 1);
      var p := hi - 1;
      var before := ApplyRange(m, ContentUnits(archive), published, lo, p);
      if p in published && p % 2 == 1 {
        RowMapCanonical(archive.add(p / 2).rows);
      }
      UnitCanonical(before, Elems(archive.del(p / 2).keys), RowMap(archive.add(p / 2).rows));
    }
  }

  lemma ContentsFollow(m: AddressMap, after: AddressMap, archive: Archive, published: set<int>, lo: int, hi: int)
    requires AllCanonical(m) && AllCanonical(after) && CanonicalFiles(archive, published)
    requires Hashes(after) == ApplyRange(Hashes(m), UnitsOf(archive), published, lo, hi)
    ensures after == ApplyRange(m, ContentUnits(archive), published, lo, hi)
  {
    hide *;
    RangeHashes(m, archive, published, lo, hi);
    RangeCanonical(m, archive, published, lo, hi);
    HashesDetermine(after, ApplyRange(m, ContentUnits(archive), published, lo, hi));
  }

  lemma MonthRowsCanonical(w: WindowJob, archive: Archive, published: set<int>, i: int)
    requires Offers(w.feed, archive, published, i, i + 1) && CanonicalFiles(archive, published)
    ensures CanonicalRows(Added(MonthJob(w, YYMM(i))))
  {
    hide YYMM, Canonical;
    OffersOne(w.feed, archive, published, i, i + 1, i);
    Parity(i);
  }

  lemma MoreRowsCanonical(w: WindowJob, months: seq<string>)
    requires months != [] && CanonicalRows(WindowRows(w, months[..|months| - 1]))
    requires CanonicalRows(Added(MonthJob(w, months[|months| - 1])))
    ensures CanonicalRows(WindowRows(w, months))
  {
    hide Canonical, Added;
  }

  lemma NoRowsCanonical(w: WindowJob, months: seq<string>)
    requires months == []
    ensures CanonicalRows(WindowRows(w, months))
  {
  }

  lemma {:induction false} WindowRowsCanonical(w: WindowJob, archive: Archive, published: set<int>, last: int, n: nat,
                                               k: nat)
    requires k <= n && w.months == Window(last, n) && Offers(w.feed, archive, published, last - n + 1, last + 1)
    requires CanonicalFiles(archive, published)
    ensures |w.months| == n && CanonicalRows(WindowRows(w, w.months[..k]))
    decreases k
  {
    hide *;
    WindowSize(last, n);
    if k == 0 {
      NoRowsCanonical(w, w.months[..0]);
    } else {
      var j := last - n + k;
      WindowAt(last, n, k - 1);
      OneOffered(w.feed, archive, published, last - n + 1, last + 1, j);
      WindowRowsCanonical(w, archive, published, last, n, k - 1);
      MonthRowsCanonical(w, archive, published, j);
      var months := w.months[..k];
      assert months[..k - 1] == w.months[..k - 1] && months[k - 1] == YYMM(j);
      MoreRowsCanonical(w, months);
    }
  }

  // A visit keeps a canonical table canonical, however it ends.
  lemma VisitCanonical(v: Visit, size: nat, archive: Archive, before: AddressMap, after: AddressMap)
    requires 1 <= size && OffersAt(v, archive) && CanonicalFiles(archive, v.published) && AllCanonical(before)
    requires CutOf(VisitJob(v, size), before, after)
    ensures AllCanonical(after)
  {
    hide Window, Offers, CanonicalFiles, CanonicalRows, AllCanonical, Within, WindowGone, WindowRows;
    var w := VisitJob(v, size);
    WindowRowsCanonical(w, archive, v.published, v.last, v.n, v.n);
    assert w.months[..v.n] == w.months;
    WithinCanonical(before, after, WindowGone(w, w.months), WindowRows(w, w.months));
  }

  lemma ServesOffers(v: Visit, archive: Archive)
    requires Serves(v.feed, archive, v.published, FirstMonth(v), v.last + 1)
    ensures OffersAt(v, archive)
  {
  }

  ghost predicate CanonicalVisits(visits: seq<Visit>, archive: Archive) {
    forall v :: v in visits ==> CanonicalFiles(archive, v.published)
  }

  lemma VisitsSnoc(visits: seq<Visit>, size: nat, m: AddressMap)
    requires 1 <= size && visits != []
    ensures var n := |visits| - 1;
            var w := VisitJob(visits[n], size);
            VisitsEffect(visits, size, m) == WindowEffect(w, w.months, VisitsEffect(visits[..n], size, m))
  {
    hide WindowEffect, Window;
  }

  // The last visit serves what it offers, from canonical files.
  lemma LastCanonical(visits: seq<Visit>, archive: Archive)
    requires visits != [] && Orderly(visits, archive) && CanonicalVisits(visits, archive)
    ensures var n := |visits| - 1;
            && Orderly(visits[..n], archive) && CanonicalVisits(visits[..n], archive)
            && OffersAt(visits[n], archive) && CanonicalFiles(archive, visits[n].published)
  {
    hide CanonicalFiles, Serves, DistinctFiles, OffersAt;
    OrderlyInit(visits, archive);
    ServesOffers(visits[|visits| - 1], archive);
  }

  lemma CompleteIsCut(w: WindowJob, m: AddressMap)
    requires 1 <= w.size
    ensures CutOf(w, m, WindowEffect(w, w.months, m))
  {
    hide Within, WindowEffect, WindowGone, WindowRows;
    WindowWithin(w, w.months, m);
  }

  lemma {:induction false} VisitsCanonical(visits: seq<Visit>, size: nat, archive: Archive, m: AddressMap)
    requires 1 <= size && Orderly(visits, archive) && CanonicalVisits(visits, archive) && AllCanonical(m)
    ensures AllCanonical(VisitsEffect(visits, size, m))
  {
    hide AllCanonical, CanonicalVisits, Orderly, WindowEffect, Window, OffersAt, CanonicalFiles, CutOf;
    if visits != [] {
      var n := |visits| - 1;
      LastCanonical(visits, archive);
      VisitsCanonical(visits[..n], size, archive, m);
      VisitsSnoc(visits, size, m);
      hide VisitsEffect, VisitJob;
      var before := VisitsEffect(visits[..n], size, m);
      var w := VisitJob(visits[n], size);
      JobSize(visits[n], size);
      CompleteIsCut(w, before);
      VisitCanonical(visits[n], size, archive, before, WindowEffect(w, w.months, before));
    }
  }

  lemma JobSize(v: Visit, size: nat)
    ensures VisitJob(v, size).size == size
  {
  }

  lemma {:induction false} CoverageCanonical(visits: seq<Visit>, archive: Archive)
    requires CanonicalVisits(visits, archive)
    ensures CanonicalFiles(archive, Coverage(RunsOf(visits)))
  {
    hide RunsOf, CanonicalRows;
    RunsOfAt(visits);
    var runs := RunsOf(visits);
    forall p | p in Coverage(runs) && p % 2 == 1 ensures CanonicalRows(archive.add(p / 2).rows) {
      var r :| r in runs && p in r.published && Sees(r, p);
      var a :| 0 <= a < |visits| && runs[a] == r;
      assert visits[a] in visits;
    }
  }

  lemma {:induction false} OverlappingContents(visits: seq<Visit>, size: nat, archive: Archive, m: AddressMap, lo: int)
    requires 1 <= size && visits != [] && Orderly(visits, archive)
    requires forall v :: v in visits ==> lo <= FirstMonth(v)
    requires AllCanonical(m) && CanonicalVisits(visits, archive)
    ensures VisitsEffect(visits, size, m)
            == ApplyRange(m, ContentUnits(archive), Coverage(RunsOf(visits)), 2 * lo,
                          2 * (visits[|visits| - 1].last + 1))
  {
    hide *;
    OverlappingWindows(visits, size, archive, m, lo);
    VisitsCanonical(visits, size, archive, m);
    CoverageCanonical(visits, archive);
    ContentsFollow(m, VisitsEffect(visits, size, m), archive, Coverage(RunsOf(visits)), 2 * lo,
                   2 * (visits[|visits| - 1].last + 1));
  }

  lemma {:induction false} NothingMissedContents(visits: seq<Visit>, size: nat, archive: Archive, m: AddressMap,
                                                 everything: set<int>, lo: int)
    requires 1 <= size && visits != [] && Orderly(visits, archive)
    requires forall a :: 0 <= a < |visits| - 1 ==> FirstMonth(visits[a + 1]) <= visits[a].last + 1
    requires (forall v :: v in visits ==> lo <= FirstMonth(v)) && exists v :: v in visits && FirstMonth(v) == lo
    requires forall a, p ::
               0 <= a < |visits| && Covers(VisitRun(visits[a]), p) && p in everything ==> p in Coverage(RunsOf(visits))
    requires forall a, p :: 0 <= a < |visits| && p in visits[a].published ==> p in everything
    requires AllCanonical(m) && CanonicalFiles(archive, everything)
    ensures VisitsEffect(visits, size, m)
            == ApplyRange(m, ContentUnits(archive), everything, 2 * lo, 2 * (visits[|visits| - 1].last + 1))
  {
    CanonicalAll(visits, archive, everything);
    hide *;
    NothingMissed(visits, size, archive, m, everything, lo);
    VisitsCanonical(visits, size, archive, m);
    ContentsFollow(m, VisitsEffect(visits, size, m), archive, everything, 2 * lo, 2 * (visits[|visits| - 1].last + 1));
  }

  lemma CanonicalAll(visits: seq<Visit>, archive: Archive, everything: set<int>)
    requires forall a, p :: 0 <= a < |visits| && p in visits[a].published ==> p in everything
    requires CanonicalFiles(archive, everything)
    ensures CanonicalVisits(visits, archive)
  {
    hide CanonicalRows;
    forall v | v in visits ensures CanonicalFiles(archive, v.published) {
      var a :| 0 <= a < |visits| && visits[a] == v;
    }
  }

  ghost predicate CanonicalAttempts(attempts: seq<Attempt>, archive: Archive) {
    forall i :: 0 <= i < |attempts| ==> CanonicalFiles(archive, attempts[i].visit.published)
  }

  lemma {:induction false} TablesCanonical(attempts: seq<Attempt>, size: nat, eng: EngineOptions, archive: Archive,
                                           tables: seq<AddressMap>, n: nat)
    requires 1 <= size && OrderlyAttempts(attempts, archive) && TablesOk(attempts, size, eng, tables) && n <= |attempts|
    requires CanonicalAttempts(attempts, archive) && AllCanonical(tables[0])
    ensures AllCanonical(tables[n])
    decreases n
  {
    hide AllCanonical, CanonicalFiles, OffersAt, ServesAt, Keeps, DiffRunStep, Within, WindowGone, WindowRows, Window;
    if n > 0 {
      TablesCanonical(attempts, size, eng, archive, tables, n - 1);
      var t := attempts[n - 1];
      assert DiffRunStep(VisitJob(t.visit, size), eng, tables[n - 1], tables[n], t.outcome, false);
      CutIsWithin(VisitJob(t.visit, size), eng, tables[n - 1], tables[n], t.outcome);
      VisitCanonical(t.visit, size, archive, tables[n - 1], tables[n]);
    }
  }

  lemma {:induction false} InterruptedContents(attempts: seq<Attempt>, size: nat, eng: EngineOptions, archive: Archive,
                                               tables: seq<AddressMap>, lo: int)
    requires 1 <= size && OrderlyAttempts(attempts, archive) && Retried(attempts)
             && TablesOk(attempts, size, eng, tables)
    requires attempts != [] && Succeeded(attempts[|attempts| - 1])
    requires forall t :: t in attempts && Succeeded(t) ==> lo <= FirstMonth(t.visit)
    requires CanonicalAttempts(attempts, archive) && AllCanonical(tables[0])
    ensures tables[|attempts|]
            == ApplyRange(tables[0], ContentUnits(archive), Coverage(RunsOf(VisitsOf(attempts))),
                          2 * lo, 2 * (attempts[|attempts| - 1].visit.last + 1))
  {
    hide *;
    OneTableMore(attempts, size, eng, tables);
    SuccessesCanonical(attempts, archive);
    InterruptedRuns(attempts, size, eng, archive, tables, lo);
    TablesCanonical(attempts, size, eng, archive, tables, |attempts|);
    CoverageCanonical(VisitsOf(attempts), archive);
    ContentsFollow(tables[0], tables[|attempts|], archive, Coverage(RunsOf(VisitsOf(attempts))),
                   2 * lo, 2 * (attempts[|attempts| - 1].visit.last + 1));
  }

  lemma SuccessesCanonical(attempts: seq<Attempt>, archive: Archive)
    requires CanonicalAttempts(attempts, archive)
    ensures CanonicalVisits(VisitsOf(attempts), archive)
  {
    hide CanonicalFiles;
    SuccessesIn(attempts);
  }
}

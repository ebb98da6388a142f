// internal/sync/engine.go:426-506: downloading and applying the months of the look-back window.

module DiffRuns {
  import opened Seqs
  import opened Addresses
  import opened Tables
  import opened AddressRepo
  import opened Batches
  import opened Parsing
  import opened Appliers
  import opened Syncs
  import opened Months

  // What a download gives during one run.
  datatype Fetched<T> = Found(file: T) | NotFound | FetchError

  // The publisher's site: the monthly files by YYMM name, and the full file.
  datatype Site = Site(add: string -> Fetched<File>, del: string -> Fetched<File>, full: Fetched<File>)

  // The site as the applier gets to see it.
  datatype Feed = Feed(add: string -> Fetched<Stream>, del: string -> Fetched<Listing>, full: Fetched<Stream>)

  datatype EngineOptions = EngineOptions(batchSize: int, fullPrune: bool, fullMinRows: int, diffFallbackFull: bool,
                                         lookback: int)

  datatype RunOutcome = Finished(outcome: Outcome) | DownloadFailed | NoSource

  // A look-back window to apply.
  datatype WindowJob = WindowJob(feed: Feed, months: seq<string>, size: nat)

  function Viewed<S, T>(f: Fetched<S>, view: S -> T): Fetched<T> {
    match f
    case Found(file) => Found(view(file))
    case NotFound => NotFound
    case FetchError => FetchError
  }

  function FeedOf(filter: TownFilter, site: Site): Feed {
    Feed((ym: string) => Viewed(site.add(ym), (file: File) => StreamOf(filter, file)),
         (ym: string) => Viewed(site.del(ym), (file: File) => ListingOf(file)),
         Viewed(site.full, (file: File) => StreamOf(filter, file)))
  }

  function FileOf<T>(f: Fetched<T>): Option<T> {
    if f.Found? then Some(f.file) else None
  }

  function MonthJob(w: WindowJob, ym: string): DiffJob {
    DiffJob(FileOf(w.feed.add(ym)), FileOf(w.feed.del(ym)), w.size)
  }

  predicate Published(feed: Feed, ym: string) {
    feed.add(ym).Found? || feed.del(ym).Found?
  }

  predicate Reachable(feed: Feed, ym: string) {
    !feed.add(ym).FetchError? && !feed.del(ym).FetchError?
  }

  predicate MonthFine(w: WindowJob, ym: string) {
    Reachable(w.feed, ym) && BothReadable(MonthJob(w, ym))
  }

  // The months applied from oldest to newest.
  function WindowEffect(w: WindowJob, months: seq<string>, m: AddressMap): AddressMap
    requires 1 <= w.size
  {
    if months == [] then m else
      DiffEffect(WindowEffect(w, months[..|months| - 1], m), MonthJob(w, months[|months| - 1])).m
  }

  datatype Totals = Totals(added: int, updated: int, deleted: int, skipped: int, total: int)

  // runDiff sums every counter of a month but the unchanged rows.
  function WindowTotals(w: WindowJob, months: seq<string>, m: AddressMap): Totals
    requires 1 <= w.size
  {
    if months == [] then Totals(0, 0, 0, 0, 0) else
      var init, ym := months[..|months| - 1], months[|months| - 1];
      var t := WindowTotals(w, init, m);
      var (added, updated, same, deleted, skipped, total) := DiffCounts(MonthJob(w, ym), WindowEffect(w, init, m));
      Totals(t.added + added, t.updated + updated, t.deleted + deleted, t.skipped + skipped, t.total + total)
  }

  function WindowGone(w: WindowJob, months: seq<string>): set<AddressKey> {
    if months == [] then {} else
      WindowGone(w, months[..|months| - 1]) + Removed(MonthJob(w, months[|months| - 1]))
  }

  function WindowRows(w: WindowJob, months: seq<string>): seq<Address> {
    if months == [] then [] else
      WindowRows(w, months[..|months| - 1]) + Added(MonthJob(w, months[|months| - 1]))
  }

  // What a run over the window may leave.
  ghost predicate DiffRunStep(w: WindowJob, eng: EngineOptions, before: AddressMap, after: AddressMap,
                              outcome: RunOutcome, fellBack: bool)
    requires 1 <= w.size
  {
    if fellBack then
      && (forall ym :: ym in w.months ==> !Published(w.feed, ym))
      && eng.diffFallbackFull
      && FullRunStep(w, eng, before, after, outcome)
    else
      match outcome
      case NoSource =>
        !eng.diffFallbackFull && (forall ym :: ym in w.months ==> !Published(w.feed, ym)) && after == before
      case DownloadFailed =>
        && (exists ym :: ym in w.months && !Reachable(w.feed, ym))
        && Within(before, after, WindowGone(w, w.months), WindowRows(w, w.months))
      case Finished(o) =>
        if o == Done then
          && (exists ym :: ym in w.months && Published(w.feed, ym))
          && (forall ym :: ym in w.months ==> MonthFine(w, ym))
          && after == WindowEffect(w, w.months, before)
        else Within(before, after, WindowGone(w, w.months), WindowRows(w, w.months))
  }

  ghost predicate FullRunStep(w: WindowJob, eng: EngineOptions, before: AddressMap, after: AddressMap,
                              outcome: RunOutcome)
    requires 1 <= w.size
  {
    match outcome
    case NoSource => false
    case DownloadFailed => !w.feed.full.Found? && after == before
    case Finished(o) => w.feed.full.Found? && FullStep(FullRunJob(w, eng), before, after, o)
  }

  function FullRunJob(w: WindowJob, eng: EngineOptions): FullJob
    requires w.feed.full.Found?
  {
    FullJob(w.feed.full.file, w.size, eng.fullPrune, eng.fullMinRows)
  }

  // The counters of a full run: none if nothing was downloaded.
  ghost predicate FullRunTally(w: WindowJob, eng: EngineOptions, before: AddressMap, after: AddressMap,
                               outcome: RunOutcome, res: ApplyResult)
    requires 1 <= w.size
  {
    match outcome
    case Finished(o) => w.feed.full.Found? && FullTally(FullRunJob(w, eng), before, after, o, res)
    case DownloadFailed => res == NO_RESULT
    case NoSource => false
  }

  function TotalsOf(res: ApplyResult): Totals {
    Totals(res.added, res.updated, res.deleted, res.skipped, res.total)
  }

  // The first i months are complete and counted; of the next one a part may have been applied, and is not counted.
  ghost predicate CountedUpTo(w: WindowJob, i: nat, before: AddressMap, after: AddressMap, t: Totals)
    requires 1 <= w.size && i <= |w.months|
  {
    var done := WindowEffect(w, w.months[..i], before);
    && t == WindowTotals(w, w.months[..i], before)
    && (forall j :: 0 <= j < i ==> MonthFine(w, w.months[j]))
    && (after == done || (i < |w.months| && MonthWithin(MonthJob(w, w.months[i]), done, after)))
  }

  ghost predicate MonthWithin(job: DiffJob, before: AddressMap, after: AddressMap) {
    Within(before, after, Removed(job), Added(job))
  }

  // The counters of a diff run that did not succeed: the sums over the months before the one it stopped in.
  ghost predicate StoppedTally(w: WindowJob, before: AddressMap, after: AddressMap, res: ApplyResult)
    requires 1 <= w.size
  {
    res.same == 0 && exists i: nat :: i <= |w.months| && CountedUpTo(w, i, before, after, TotalsOf(res))
  }

  // The counters of a diff run, by the way it ends.
  ghost predicate DiffRunTally(w: WindowJob, eng: EngineOptions, before: AddressMap, after: AddressMap,
                               outcome: RunOutcome, fellBack: bool, res: ApplyResult)
    requires 1 <= w.size
  {
    if fellBack then FullRunTally(w, eng, before, after, outcome, res)
    else if outcome == Finished(Done) then TotalsOf(res) == WindowTotals(w, w.months, before) && res.same == 0
    else StoppedTally(w, before, after, res)
  }

  // ----- The audit of a run -----

  // The audit of the file, if one was downloaded.
  ghost predicate AuditOfDownload(opt: ApplyOptions, download: Fetched<File>, audit: seq<seq<SkippedRow>>,
                                  complete: bool) {
    if download.Found? then AuditOf(opt, download.file, audit, complete) else audit == []
  }

  // The matching records of the months' new-address files, in calendar order.
  function MonthsAudit(opt: ApplyOptions, site: Site, months: seq<string>): seq<SkippedRow> {
    if months == [] then [] else
      var download := site.add(months[|months| - 1]);
      MonthsAudit(opt, site, months[..|months| - 1])
      + if download.Found? then Audited(opt, Parsed(download.file)) else []
  }

  ghost predicate AuditOfMonths(opt: ApplyOptions, site: Site, months: seq<string>, audit: seq<seq<SkippedRow>>,
                                complete: bool) {
    && (forall b :: b in audit ==> 1 <= |b| <= 1000)
    && (!opt.hasSink ==> audit == [])
    && (opt.hasSink ==> Flatten(audit) <= MonthsAudit(opt, site, months))
    && (opt.hasSink && complete ==> Flatten(audit) == MonthsAudit(opt, site, months))
  }

  lemma NoMonthsAudited(opt: ApplyOptions, site: Site, months: seq<string>)
    ensures AuditOfMonths(opt, site, months[..0], [], true)
  {
    assert Flatten<SkippedRow>([]) == [];
  }

  lemma AuditAnyway(opt: ApplyOptions, file: File, audit: seq<seq<SkippedRow>>, complete: bool)
    requires AuditOf(opt, file, audit, complete)
    ensures AuditOf(opt, file, audit, false)
  {
  }

  lemma DownloadAuditAnyway(opt: ApplyOptions, download: Fetched<File>, audit: seq<seq<SkippedRow>>, complete: bool,
                            less: bool)
    requires AuditOfDownload(opt, download, audit, complete) && (less ==> complete)
    ensures AuditOfDownload(opt, download, audit, less)
  {
  }

  lemma MonthsAuditAnyway(opt: ApplyOptions, site: Site, months: seq<string>, audit: seq<seq<SkippedRow>>)
    requires AuditOfMonths(opt, site, months, audit, true)
    ensures AuditOfMonths(opt, site, months, audit, false)
  {
  }

  lemma NoDownloadAudited(opt: ApplyOptions, download: Fetched<File>)
    ensures AuditOfDownload(opt, download, [], !download.Found?)
  {
    assert Flatten<SkippedRow>([]) == [];
  }

  // The months so far are complete; one more has been audited as far as it went.
  lemma MonthAudited(opt: ApplyOptions, site: Site, months: seq<string>, i: nat,
                     audit: seq<seq<SkippedRow>>, part: seq<seq<SkippedRow>>, complete: bool)
    requires i < |months| && AuditOfMonths(opt, site, months[..i], audit, true)
    requires AuditOfDownload(opt, site.add(months[i]), part, complete)
    ensures AuditOfMonths(opt, site, months[..i + 1], audit + part, complete)
  {
    hide Audited, Parsed, Flatten;
    assert months[..i + 1][..i] == months[..i];
    FlattenAppend(audit, part);
    assert Flatten<SkippedRow>([]) == [] by { NothingFlat(); }
    assert Flatten(audit) + [] == Flatten(audit);
  }

  lemma NothingFlat()
    ensures Flatten<SkippedRow>([]) == []
  {
  }

  lemma {:induction false} MonthsAuditGrows(opt: ApplyOptions, site: Site, months: seq<string>, i: nat)
    requires i <= |months|
    ensures MonthsAudit(opt, site, months[..i]) <= MonthsAudit(opt, site, months)
    decreases |months| - i
  {
    hide Audited, Parsed;
    if i == |months| {
      assert months[..i] == months;
    } else {
      MonthsAuditGrows(opt, site, months, i + 1);
      assert months[..i + 1][..i] == months[..i];
    }
  }

  lemma StoppedAudit(opt: ApplyOptions, site: Site, months: seq<string>, i: nat, audit: seq<seq<SkippedRow>>,
                     complete: bool)
    requires i <= |months| && AuditOfMonths(opt, site, months[..i], audit, complete)
    ensures AuditOfMonths(opt, site, months, audit, complete && i == |months|)
  {
    hide MonthsAudit, Flatten;
    MonthsAuditGrows(opt, site, months, i);
    if i == |months| {
      assert months[..i] == months;
    }
  }

  // ----- Lemmas for the loop -----

  lemma WithinTrans(a: AddressMap, b: AddressMap, c: AddressMap,
                    g: set<AddressKey>, h: set<AddressKey>, all: set<AddressKey>,
                    xs: seq<Address>, ys: seq<Address>, rows: seq<Address>)
    requires Within(a, b, g, xs) && Within(b, c, h, ys)
    requires g <= all && h <= all && forall x :: x in xs || x in ys ==> x in rows
    ensures Within(a, c, all, rows)
  {
  }

  lemma EffectWithin(job: DiffJob, before: AddressMap)
    requires 1 <= job.size
    ensures Within(before, DiffEffect(before, job).m, Removed(job), Added(job))
  {
    hide Chunked, Removed, Added;
    ChunkedPartly(Progress(before - Removed(job), 0, 0, 0), Added(job), job.size);
    RemovedThenPut(before, Removed(job), DiffEffect(before, job).m, Added(job));
  }

  lemma StepWithin(job: DiffJob, before: AddressMap, after: AddressMap, outcome: Outcome)
    requires 1 <= job.size && DiffStep(job, before, after, outcome)
    ensures Within(before, after, Removed(job), Added(job))
  {
    hide Within, DiffEffect;
    EffectWithin(job, before);
  }

  lemma WindowSnoc(w: WindowJob, i: nat, m: AddressMap)
    requires 1 <= w.size && i < |w.months|
    ensures var ym := w.months[i];
            && WindowEffect(w, w.months[..i + 1], m) == DiffEffect(WindowEffect(w, w.months[..i], m), MonthJob(w, ym)).m
            && WindowGone(w, w.months[..i + 1]) == WindowGone(w, w.months[..i]) + Removed(MonthJob(w, ym))
            && WindowRows(w, w.months[..i + 1]) == WindowRows(w, w.months[..i]) + Added(MonthJob(w, ym))
  {
    hide DiffEffect, Removed, Added;
    assert w.months[..i + 1][..i] == w.months[..i];
  }

  lemma TotalsSnoc(w: WindowJob, i: nat, m: AddressMap)
    requires 1 <= w.size && i < |w.months|
    ensures var t := WindowTotals(w, w.months[..i], m);
            var c := DiffCounts(MonthJob(w, w.months[i]), WindowEffect(w, w.months[..i], m));
            WindowTotals(w, w.months[..i + 1], m)
            == Totals(t.added + c.0, t.updated + c.1, t.deleted + c.3, t.skipped + c.4, t.total + c.5)
  {
    hide DiffEffect, DiffCounts;
    assert w.months[..i + 1][..i] == w.months[..i];
  }

  lemma {:induction false} WindowPrefix(w: WindowJob, i: nat, j: nat)
    requires 1 <= w.size && i <= j <= |w.months|
    ensures WindowGone(w, w.months[..i]) <= WindowGone(w, w.months[..j])
    ensures forall a :: a in WindowRows(w, w.months[..i]) ==> a in WindowRows(w, w.months[..j])
    decreases j - i
  {
    hide WindowGone, WindowRows, WindowEffect, DiffEffect, Removed, Added;
    if i < j {
      WindowPrefix(w, i, j - 1);
      WindowSnoc(w, j - 1, map[]);
    }
  }

  // A month that is not published changes nothing.
  lemma UnpublishedMonth(w: WindowJob, ym: string, m: AddressMap)
    requires 1 <= w.size && !Published(w.feed, ym)
    ensures DiffEffect(m, MonthJob(w, ym)).m == m
    ensures DiffCounts(MonthJob(w, ym), m) == (0, 0, 0, 0, 0, 0)
    ensures BothReadable(MonthJob(w, ym))
  {
    assert m - {} == m;
    NoBatches(Progress(m, 0, 0, 0), w.size);
  }

  // Stopping inside month i leaves a state within what the window mentions.
  lemma StopsWithin(w: WindowJob, i: nat, before: AddressMap, now: AddressMap, after: AddressMap)
    requires 1 <= w.size && i < |w.months|
    requires Within(before, now, WindowGone(w, w.months[..i]), WindowRows(w, w.months[..i]))
    requires Within(now, after, Removed(MonthJob(w, w.months[i])), Added(MonthJob(w, w.months[i])))
    ensures Within(before, after, WindowGone(w, w.months[..i + 1]), WindowRows(w, w.months[..i + 1]))
    ensures Within(before, after, WindowGone(w, w.months), WindowRows(w, w.months))
  {
    hide Within, WindowGone, WindowRows, WindowEffect, DiffEffect, Removed, Added;
    WindowSnoc(w, i, before);
    WithinTrans(before, now, after, WindowGone(w, w.months[..i]), Removed(MonthJob(w, w.months[i])),
                WindowGone(w, w.months[..i + 1]),
                WindowRows(w, w.months[..i]), Added(MonthJob(w, w.months[i])), WindowRows(w, w.months[..i + 1]));
    WindowPrefix(w, i + 1, |w.months|);
    assert w.months[..|w.months|] == w.months;
    WithinRefl(after);
    WithinTrans(before, after, after, WindowGone(w, w.months[..i + 1]), {}, WindowGone(w, w.months),
                WindowRows(w, w.months[..i + 1]), [], WindowRows(w, w.months));
  }

  lemma WithinRefl(m: AddressMap)
    ensures Within(m, m, {}, [])
  {
  }

  lemma WithinAny(m: AddressMap, gone: set<AddressKey>, rows: seq<Address>)
    ensures Within(m, m, gone, rows)
  {
  }

  // ----- The runs -----

  method RunFull(repo: AddressTable, full: Fetched<File>, eng: EngineOptions, opt: ApplyOptions, ghost w: WindowJob)
    returns (res: ApplyResult, outcome: RunOutcome, audit: seq<seq<SkippedRow>>, ghost refused: bool)
    requires repo.Valid() && w.size == BatchSize(eng.batchSize)
    requires w.feed.full == Viewed(full, (file: File) => StreamOf(opt.filter, file))
    modifies repo
    ensures repo.Valid()
    ensures FullRunStep(w, eng, old(repo.Map()), repo.Map(), outcome)
    ensures FullRunTally(w, eng, old(repo.Map()), repo.Map(), outcome, res)
    ensures AuditOfDownload(opt.(sourceType := "full"), full, audit,
                            outcome in {Finished(Done), Finished(TooFewRows), Finished(PruneFailed)}
                            || (outcome == Finished(ReadFailed) && !refused))
  {
    hide FullStep, FullTally, AuditOf, Contents, ValidRows, StreamOf;
    res, audit, refused := NO_RESULT, [], false;
    if !full.Found? {
      outcome := DownloadFailed;
      return;
    }
    var o;
    res, o, audit, refused := ApplyFull(repo, full.file, eng.batchSize, eng.fullPrune, eng.fullMinRows,
                                        opt.(sourceType := "full"));
    outcome := Finished(o);
  }

  // One month: fetch both files, then apply what is published.
  method RunMonth(repo: AddressTable, site: Site, eng: EngineOptions, opt: ApplyOptions, ym: string, ghost w: WindowJob)
    returns (res: ApplyResult, outcome: RunOutcome, audit: seq<seq<SkippedRow>>)
    requires repo.Valid() && w.size == BatchSize(eng.batchSize) && w.feed == FeedOf(opt.filter, site)
    modifies repo
    ensures repo.Valid()
    ensures match outcome
            case NoSource =>
              && !Published(w.feed, ym) && Reachable(w.feed, ym)
              && repo.Map() == old(repo.Map()) && res == NO_RESULT && audit == []
            case DownloadFailed => !Reachable(w.feed, ym) && repo.Map() == old(repo.Map())
            case Finished(o) =>
              && Published(w.feed, ym) && Reachable(w.feed, ym)
              && DiffStep(MonthJob(w, ym), old(repo.Map()), repo.Map(), o)
    ensures outcome == Finished(Done) ==> Counts(res) == DiffCounts(MonthJob(w, ym), old(repo.Map()))
    ensures AuditOfDownload(opt.(sourceType := "add"), site.add(ym), audit, outcome in {Finished(Done), NoSource})
  {
    hide DiffStep, DiffCounts, AuditOf, Contents, ValidRows, StreamOf, ListingOf;
    res, audit := NO_RESULT, [];
    var addOpt := opt.(sourceType := "add");
    NoDownloadAudited(addOpt, site.add(ym));
    var addSrc := site.add(ym);
    if addSrc.FetchError? {
      return res, DownloadFailed, audit;
    }
    var delSrc := site.del(ym);
    if delSrc.FetchError? {
      return res, DownloadFailed, audit;
    }
    if addSrc.NotFound? && delSrc.NotFound? {
      return res, NoSource, audit;
    }
    var o;
    ghost var refused;
    res, o, audit, refused := ApplyDiff(repo, FileOf(addSrc), FileOf(delSrc), eng.batchSize, addOpt);
    if addSrc.Found? && o != Done {
      AuditAnyway(addOpt, addSrc.file, audit,
                  o == ReadFailed && !refused && (delSrc.Found? ==> Readable(delSrc.file)));
    }
    outcome := Finished(o);
  }

  // The newest of the first i months that had a file.
  ghost predicate NewestPublished(w: WindowJob, i: nat, period: string)
    requires i <= |w.months|
  {
    exists l :: 0 <= l < i && w.months[l] == period && Published(w.feed, period)
                && forall j :: l < j < i ==> !Published(w.feed, w.months[j])
  }

  // Where runDiff stands after i months.
  ghost predicate Reached(w: WindowJob, i: nat, before: AddressMap, now: AddressMap, res: ApplyResult, applied: nat,
                          period: string)
    requires 1 <= w.size && i <= |w.months|
  {
    && now == WindowEffect(w, w.months[..i], before)
    && Within(before, now, WindowGone(w, w.months[..i]), WindowRows(w, w.months[..i]))
    && TotalsOf(res) == WindowTotals(w, w.months[..i], before) && res.same == 0
    && (forall j :: 0 <= j < i ==> MonthFine(w, w.months[j]))
    && (applied == 0 ==> now == before && forall j :: 0 <= j < i ==> !Published(w.feed, w.months[j]))
    && (applied > 0 ==> NewestPublished(w, i, period))
  }

  lemma ReachedStart(w: WindowJob, before: AddressMap)
    requires 1 <= w.size
    ensures Reached(w, 0, before, before, NO_RESULT, 0, "")
  {
    EmptyWindow(w, before);
    WithinRefl(before);
  }

  lemma ReachedPastMissing(w: WindowJob, i: nat, before: AddressMap, now: AddressMap, res: ApplyResult, applied: nat,
                           period: string)
    requires 1 <= w.size && i < |w.months| && Reached(w, i, before, now, res, applied, period)
    requires !Published(w.feed, w.months[i]) && Reachable(w.feed, w.months[i])
    ensures Reached(w, i + 1, before, now, res, applied, period)
  {
    hide WindowEffect, WindowTotals, WindowGone, WindowRows, Within, DiffEffect, DiffCounts, BothReadable, Published;
    hide Reachable;
    var ym := w.months[i];
    WindowSnoc(w, i, before);
    TotalsSnoc(w, i, before);
    UnpublishedMonth(w, ym, now);
    WithinAny(now, Removed(MonthJob(w, ym)), Added(MonthJob(w, ym)));
    StopsWithin(w, i, before, now, now);
  }

  lemma ReachedPastMonth(w: WindowJob, i: nat, before: AddressMap, now: AddressMap, res: ApplyResult, applied: nat,
                         period: string,
                         after: AddressMap, part: ApplyResult)
    requires 1 <= w.size && i < |w.months| && Reached(w, i, before, now, res, applied, period)
    requires Published(w.feed, w.months[i]) && Reachable(w.feed, w.months[i])
    requires DiffStep(MonthJob(w, w.months[i]), now, after, Done)
             && Counts(part) == DiffCounts(MonthJob(w, w.months[i]), now)
    ensures Reached(w, i + 1, before, after, Summed(res, part), applied + 1, w.months[i])
  {
    hide WindowEffect, WindowTotals, WindowGone, WindowRows, Within, DiffEffect, DiffCounts, DiffStep, BothReadable;
    hide Published, Reachable;
    var job := MonthJob(w, w.months[i]);
    WindowSnoc(w, i, before);
    TotalsSnoc(w, i, before);
    DoneIs(job, now, after);
    EffectWithin(job, now);
    StopsWithin(w, i, before, now, after);
  }

  function Summed(agg: ApplyResult, res: ApplyResult): ApplyResult {
    ApplyResult(agg.added + res.added, agg.updated + res.updated, agg.same, agg.deleted + res.deleted,
                agg.skipped + res.skipped, agg.total + res.total)
  }

  lemma StopsShort(w: WindowJob, i: nat, before: AddressMap, now: AddressMap, res: ApplyResult, applied: nat,
                   period: string, after: AddressMap)
    requires 1 <= w.size && i < |w.months| && Reached(w, i, before, now, res, applied, period)
    requires after == now || exists o :: DiffStep(MonthJob(w, w.months[i]), now, after, o)
    ensures Within(before, after, WindowGone(w, w.months), WindowRows(w, w.months))
    ensures StoppedTally(w, before, after, res)
  {
    hide WindowEffect, WindowTotals, WindowGone, WindowRows, Within, DiffStep, Removed, Added, MonthFine;
    var job := MonthJob(w, w.months[i]);
    if after == now {
      WithinAny(now, Removed(job), Added(job));
    } else {
      var o :| DiffStep(job, now, after, o);
      StepWithin(job, now, after, o);
    }
    StopsWithin(w, i, before, now, after);
    assert CountedUpTo(w, i, before, after, TotalsOf(res));
  }

  lemma ReachedEnd(w: WindowJob, eng: EngineOptions, before: AddressMap, now: AddressMap, res: ApplyResult,
                   applied: nat, period: string)
    requires 1 <= w.size && Reached(w, |w.months|, before, now, res, applied, period)
    ensures applied > 0 ==> DiffRunStep(w, eng, before, now, Finished(Done), false)
                            && DiffRunTally(w, eng, before, now, Finished(Done), false, res)
                                && NewestPublished(w, |w.months|, period)
    ensures applied == 0 ==> now == before && forall ym :: ym in w.months ==> !Published(w.feed, ym)
    ensures StoppedTally(w, before, now, res)
  {
    hide WindowEffect, WindowTotals, WindowGone, WindowRows, Within, MonthFine, Published;
    assert w.months[..|w.months|] == w.months;
    assert CountedUpTo(w, |w.months|, before, now, TotalsOf(res));
    if applied > 0 {
      assert period in w.months;
    }
  }

  method RunDiff(repo: AddressTable, now: Day, site: Site, eng: EngineOptions, opt: ApplyOptions)
    returns (res: ApplyResult, outcome: RunOutcome, fellBack: bool, period: string, audit: seq<seq<SkippedRow>>)
    requires repo.Valid()
    modifies repo
    ensures repo.Valid()
    ensures var w := WindowJob(FeedOf(opt.filter, site),
                               Window(now.month, if eng.lookback <= 0 then 1 else eng.lookback),
                               BatchSize(eng.batchSize));
            && DiffRunStep(w, eng, old(repo.Map()), repo.Map(), outcome, fellBack)
            && DiffRunTally(w, eng, old(repo.Map()), repo.Map(), outcome, fellBack, res)
            && (outcome == Finished(Done) && !fellBack ==> NewestPublished(w, |w.months|, period))
            && (fellBack ==> AuditOfDownload(opt.(sourceType := "full"), site.full, audit, outcome == Finished(Done)))
            && (!fellBack ==>
                  AuditOfMonths(opt.(sourceType := "add"), site, w.months, audit, outcome == Finished(Done)))
  {
    hide Window, WindowEffect, WindowTotals, WindowGone, WindowRows, DiffStep, DiffCounts, Within, FullRunStep;
    hide FullRunTally, StoppedTally, Reached, NewestPublished, Published, Reachable, AuditOf, AuditOfMonths;
    hide AuditOfDownload, Contents, ValidRows, YYMM, MonthFine, MonthJob, Summed, CountedUpTo;
    ghost var before := repo.Map();
    var months := MonthsWindow(now, eng.lookback);
    ghost var w := WindowJob(FeedOf(opt.filter, site), months, BatchSize(eng.batchSize));
    res, fellBack, period, audit := NO_RESULT, false, "", [];
    ghost var addOpt, fullOpt := opt.(sourceType := "add"), opt.(sourceType := "full");
    var applied := 0;
    NoMonthsAudited(addOpt, site, months);
    ReachedStart(w, before);
    for i := 0 to |months|
      invariant repo.Valid() && Reached(w, i, before, repo.Map(), res, applied, period)
      invariant AuditOfMonths(addOpt, site, months[..i], audit, true) && (applied == 0 ==> audit == [])
    {
      ghost var m := repo.Map();
      var part, skipped;
      part, outcome, skipped := RunMonth(repo, site, eng, opt, months[i], w);
      MonthAudited(addOpt, site, months, i, audit, skipped, outcome in {Finished(Done), NoSource});
      audit := audit + skipped;
      if outcome == NoSource {
        ReachedPastMissing(w, i, before, m, res, applied, period);
      } else if outcome == Finished(Done) {
        ReachedPastMonth(w, i, before, m, res, applied, period, repo.Map(), part);
        res := Summed(res, part);
        applied := applied + 1;
        period := months[i];
      } else {
        StopsShort(w, i, before, m, res, applied, period, repo.Map());
        StoppedAudit(addOpt, site, months, i + 1, audit, false);
        assert months[i] in months;
        return;
      }
    }
    ReachedEnd(w, eng, before, repo.Map(), res, applied, period);
    StoppedAudit(addOpt, site, months, |months|, audit, true);
    if applied == 0 {
      if eng.diffFallbackFull {
        fellBack := true;
        ghost var refused;
        var skipped;
        res, outcome, skipped, refused := RunFull(repo, site.full, eng, opt, w);
        DownloadAuditAnyway(fullOpt, site.full, skipped,
                            outcome in {Finished(Done), Finished(TooFewRows), Finished(PruneFailed)}
                            || (outcome == Finished(ReadFailed) && !refused),
                            outcome == Finished(Done));
        audit := audit + skipped;
        assert audit == skipped;
        return;
      }
      MonthsAuditAnyway(addOpt, site, months, audit);
      outcome := NoSource;
      return;
    }
    outcome := Finished(Done);
  }

  lemma DoneIs(job: DiffJob, before: AddressMap, after: AddressMap)
    requires 1 <= job.size && DiffStep(job, before, after, Done)
    ensures BothReadable(job) && after == DiffEffect(before, job).m
  {
  }

  lemma EmptyWindow(w: WindowJob, m: AddressMap)
    requires 1 <= w.size
    ensures WindowEffect(w, w.months[..0], m) == m && WindowTotals(w, w.months[..0], m) == Totals(0, 0, 0, 0, 0)
    ensures WindowGone(w, w.months[..0]) == {} && WindowRows(w, w.months[..0]) == []
  {
  }
}

// internal/query/service.go: validation, limits and statuses above Search.

module Services {
  import opened Seqs
  import opened Addresses
  import opened Tables
  import opened Decimals
  import opened Parsing
  import opened Queries
  import opened Searching

  datatype Status = StatusOk | TooManyResults | Timeout | InvalidRequest | NotFound | InternalError

  datatype SearchParams = SearchParams(zipcode: string, prefecture: string, city: string, q: string, limit: int,
                                       offset: int)

  datatype Reply =
    | Reply(status: Status, total: nat, returned: nat, truncated: bool, addressCount: Option<nat>, items: seq<Row>)
    | Refusal(reason: Status, httpStatus: int)

  predicate IsZipcodeExact(s: string) {
    |s| == 7 && AllDigits(s)
  }

  predicate IsZipcodePrefix(s: string) {
    1 <= |s| <= 7 && AllDigits(s)
  }

  function PageLimit(fuzzyLimit: nat, limit: int): (l: nat)
    requires 1 <= fuzzyLimit
    ensures 1 <= l <= fuzzyLimit
    ensures 0 < limit ==> l == Min(limit, fuzzyLimit)
    ensures limit <= 0 ==> l == fuzzyLimit
  {
    if 0 < limit && limit < fuzzyLimit then limit else fuzzyLimit
  }

  // What the caller asks for, whatever the page.
  function Wanted(p: SearchParams): AddressQuery {
    AddressQuery(p.zipcode, TrimSpace(p.prefecture), TrimSpace(p.city), TrimSpace(p.q), 0, 0)
  }

  function WantedZipcode(zipcode: string): AddressQuery {
    AddressQuery(zipcode, "", "", "", 0, 0)
  }

  ghost function Results(rows: seq<Row>, q: AddressQuery): seq<Row> {
    Shown(Answer(rows, q))
  }

  // Limit and offset do not take part in the clause.
  lemma SameResults(rows: seq<Row>, q: AddressQuery, limit: int, offset: int)
    ensures Answer(rows, q.(limit := limit, offset := offset)) == Answer(rows, q)
  {
    hide ZipcodeAccepts, PrefectureAccepts, CityAccepts, KeywordAccepts, InOrder;
    FilterSame(rows, Accepted(q.(limit := limit, offset := offset)), Accepted(q));
  }

  // Which parameter restricts which columns.
  ghost predicate Requested(p: SearchParams, a: Address) {
    && ZipcodeAccepts(p.zipcode, a)
    && PrefectureAccepts(TrimSpace(p.prefecture), a)
    && CityAccepts(TrimSpace(p.city), a)
    && KeywordAccepts(TrimSpace(p.q), a)
  }

  // The row as the reply has it: identity and texts, without flags and hash.
  ghost predicate ShowsRow(r: Row, a: Row) {
    && r.id == a.id && r.addr.zipcode == a.addr.zipcode && r.addr.jisCode == a.addr.jisCode
    && r.addr.prefecture == a.addr.prefecture && r.addr.prefectureKana == a.addr.prefectureKana
    && r.addr.city == a.addr.city && r.addr.cityKana == a.addr.cityKana
    && r.addr.town == a.addr.town && r.addr.townKana == a.addr.townKana
    && r.addr.flagMultiZip == r.addr.flagKoaza == r.addr.flagChome == r.addr.flagMultiTown == 0
    && r.addr.sourceHash == ""
  }

  // Every row shown stands for a row of the table that is requested, and each of these is shown, in (zipcode, id)
  // order.
  ghost predicate ShowsExactly(items: seq<Row>, rows: seq<Row>, p: SearchParams) {
    && Ordered(items)
    && (forall r :: r in items <==> exists a :: a in rows && Requested(p, a.addr) && ShowsRow(r, a))
  }

  // The same for the rows of one zipcode.
  ghost predicate ShowsZipcode(items: seq<Row>, rows: seq<Row>, zipcode: string) {
    && Ordered(items)
    && (forall r :: r in items <==> exists a :: a in rows && a.addr.zipcode == zipcode && ShowsRow(r, a))
  }

  lemma ScannedShows(r: Row, a: Row)
    ensures r == Scanned(a) <==> ShowsRow(r, a)
  {
  }

  lemma {:induction false} ResultsOf(rows: seq<Row>, q: AddressQuery)
    requires ValidRows(rows)
    ensures Ordered(Results(rows, q))
    ensures forall r :: r in Results(rows, q) <==> exists a :: a in rows && Accepts(q, a.addr) && ShowsRow(r, a)
  {
    hide ValidRows, Ordered, Accepts, Shown, Scanned, ShowsRow;
    AnswerIsAnswer(rows, q);
    ShownOrdered(Answer(rows, q));
    hide Answer;
    forall r, a ensures r == Scanned(a) <==> ShowsRow(r, a) {
      ScannedShows(r, a);
    }
  }

  lemma {:induction false} ResultsExact(rows: seq<Row>, p: SearchParams)
    requires ValidRows(rows)
    ensures ShowsExactly(Results(rows, Wanted(p)), rows, p)
  {
    hide ValidRows, Ordered, Results, ShowsRow, TrimSpace, ZipcodeAccepts, PrefectureAccepts, CityAccepts;
    hide KeywordAccepts;
    ResultsOf(rows, Wanted(p));
  }

  lemma {:induction false} ZipcodeExact(rows: seq<Row>, zipcode: string)
    requires ValidRows(rows) && |zipcode| == 7
    ensures ShowsZipcode(Results(rows, WantedZipcode(zipcode)), rows, zipcode)
  {
    hide ValidRows, Ordered, Results, ShowsRow, Accepts;
    ResultsOf(rows, WantedZipcode(zipcode));
    forall a ensures Accepts(WantedZipcode(zipcode), a) <==> a.zipcode == zipcode {
      ExactZipcode(zipcode, a);
    }
  }

  // Order and membership leave one sequence.
  lemma OneSequence(items: seq<Row>, others: seq<Row>)
    requires Ordered(items) && Ordered(others) && forall r :: r in items <==> r in others
    ensures items == others
  {
    hide Ordered;
    forall r ensures multiset(items)[r] == multiset(others)[r] {
      OrderedCounts(items, r);
      OrderedCounts(others, r);
    }
    OneOrder(items, others);
  }

  // The reply is the page of these results at the offset.
  ghost predicate PageOf(all: seq<Row>, fuzzyLimit: nat, maxTotal: nat, p: SearchParams, reply: Reply)
    requires 1 <= fuzzyLimit
  {
    && reply.Reply? && 0 <= p.offset
    && reply.items == Page(all, p.offset, PageLimit(fuzzyLimit, p.limit))
    && reply.returned == |reply.items|
    && reply.total == |all|
    && (reply.truncated <==> reply.items != all)
    && reply.status == (if |all| > maxTotal then TooManyResults else StatusOk)
    && reply.addressCount == None
  }

  ghost predicate Served(rows: seq<Row>, fuzzyLimit: nat, maxTotal: nat, p: SearchParams, reply: Reply)
    requires 1 <= fuzzyLimit
  {
    exists all :: ShowsExactly(all, rows, p) && PageOf(all, fuzzyLimit, maxTotal, p, reply)
  }

  // The first maxTotal of these rows.
  ghost predicate FirstOf(all: seq<Row>, maxTotal: nat, reply: Reply) {
    && reply.Reply?
    && reply.status == StatusOk
    && reply.items == all[..Min(maxTotal, |all|)]
    && reply.returned == |reply.items|
    && reply.total == |all|
    && (reply.truncated <==> |all| > maxTotal)
    && reply.addressCount == Some(|all|)
  }

  // Nobody has the zipcode, or the reply shows the first maxTotal of those who have it.
  ghost predicate ServedZipcode(rows: seq<Row>, maxTotal: nat, zipcode: string, reply: Reply) {
    if forall r :: r in rows ==> r.addr.zipcode != zipcode then reply == Refusal(NotFound, 404)
    else exists all :: ShowsZipcode(all, rows, zipcode) && FirstOf(all, maxTotal, reply)
  }

  lemma ExactZipcode(zipcode: string, a: Address)
    requires |zipcode| == 7
    ensures Accepts(WantedZipcode(zipcode), a) <==> a.zipcode == zipcode
  {
  }

  lemma NoneFound(rows: seq<Row>, zipcode: string)
    requires ValidRows(rows) && |zipcode| == 7
    ensures |Answer(rows, WantedZipcode(zipcode))| == 0 <==> forall r :: r in rows ==> r.addr.zipcode != zipcode
  {
    hide ValidRows, Accepts, Ordered;
    var all := Answer(rows, WantedZipcode(zipcode));
    AnswerIsAnswer(rows, WantedZipcode(zipcode));
    hide Answer;
    forall r | r in rows ensures r in all <==> r.addr.zipcode == zipcode {
      ExactZipcode(zipcode, r.addr);
    }
    if |all| > 0 {
      assert all[0] in all && all[0] in rows;
    }
  }

  class Service {
    const repo: AddressReadRepo
    const fuzzyLimit: nat
    const maxTotal: nat

    ghost predicate Ready()
      reads repo.table
    {
      repo.table.Valid() && 1 <= fuzzyLimit && 1 <= maxTotal
    }

    constructor (repo: AddressReadRepo, fuzzyLimit: int, maxTotal: int)
      ensures this.repo == repo && 1 <= this.fuzzyLimit && 1 <= this.maxTotal
      ensures this.fuzzyLimit == (if fuzzyLimit <= 0 then 20 else fuzzyLimit)
      ensures this.maxTotal == (if maxTotal <= 0 then 1000 else maxTotal)
    {
      this.repo := repo;
      this.fuzzyLimit := if fuzzyLimit <= 0 then 20 else fuzzyLimit;
      this.maxTotal := if maxTotal <= 0 then 1000 else maxTotal;
    }

    method RepoError() returns (reply: Reply)
      ensures reply in {Refusal(Timeout, 504), Refusal(InternalError, 500)}
    {
      var timedOut := *;
      reply := if timedOut then Refusal(Timeout, 504) else Refusal(InternalError, 500);
    }

    method Search(p: SearchParams) returns (reply: Reply)
      requires Ready()
      ensures reply == Refusal(InvalidRequest, 400)
              <==> || (TrimSpace(p.zipcode) == TrimSpace(p.prefecture) == TrimSpace(p.city) == TrimSpace(p.q) == "")
                   || (p.zipcode != "" && !(1 <= |p.zipcode| <= 7 && AllDigits(p.zipcode)))
                   || p.offset < 0
      ensures reply.Reply? ==> Served(repo.table.rows, fuzzyLimit, maxTotal, p, reply)
      ensures reply.Refusal? ==>
                reply in {Refusal(InvalidRequest, 400), Refusal(Timeout, 504), Refusal(InternalError, 500)}
    {
      hide Answer, Shown, TrimSpace, Page, IsAnswer, ValidRows, ShowsExactly;
      if TrimSpace(p.zipcode) == "" && TrimSpace(p.prefecture) == ""
         && TrimSpace(p.city) == "" && TrimSpace(p.q) == "" {
        return Refusal(InvalidRequest, 400);
      }
      if p.zipcode != "" && !IsZipcodePrefix(p.zipcode) {
        return Refusal(InvalidRequest, 400);
      }
      if p.offset < 0 {
        return Refusal(InvalidRequest, 400);
      }
      var limit := fuzzyLimit;
      if p.limit > 0 && p.limit < limit {
        limit := p.limit;
      }
      DigitsUntouched(p.zipcode);
      var q := AddressQuery(TrimSpace(p.zipcode), TrimSpace(p.prefecture), TrimSpace(p.city), TrimSpace(p.q), limit,
                            p.offset);
      SameResults(repo.table.rows, Wanted(p), limit, p.offset);
      assert q == Wanted(p).(limit := limit, offset := p.offset);
      var found := repo.Search(q);
      if found.QueryFailed? {
        reply := RepoError();
        return;
      }
      ghost var all := Results(repo.table.rows, Wanted(p));
      ResultsExact(repo.table.rows, p);
      SameLength(Answer(repo.table.rows, Wanted(p)));
      PageWhole(all, p.offset, limit);
      var status := if found.total > maxTotal then TooManyResults else StatusOk;
      reply := Reply(status, found.total, |found.items|, found.total > |found.items|, None, found.items);
    }

    method GetByZipcode(zipcode: string) returns (reply: Reply)
      requires Ready()
      ensures reply == Refusal(InvalidRequest, 400) <==> |TrimSpace(zipcode)| != 7 || !AllDigits(TrimSpace(zipcode))
      ensures reply !in {Refusal(InvalidRequest, 400), Refusal(Timeout, 504), Refusal(InternalError, 500)} ==>
                ServedZipcode(repo.table.rows, maxTotal, TrimSpace(zipcode), reply)
    {
      hide Answer, Shown, TrimSpace, IsAnswer, ValidRows, ShowsZipcode, AllDigits;
      var trimmed := TrimSpace(zipcode);
      if !IsZipcodeExact(trimmed) {
        return Refusal(InvalidRequest, 400);
      }
      var q := AddressQuery(trimmed, "", "", "", maxTotal, 0);
      SameResults(repo.table.rows, WantedZipcode(trimmed), maxTotal, 0);
      assert q == WantedZipcode(trimmed).(limit := maxTotal, offset := 0);
      var found := repo.Search(q);
      if found.QueryFailed? {
        reply := RepoError();
        return;
      }
      NoneFound(repo.table.rows, trimmed);
      if found.total == 0 {
        return Refusal(NotFound, 404);
      }
      ZipcodeExact(repo.table.rows, trimmed);
      SameLength(Answer(repo.table.rows, WantedZipcode(trimmed)));
      reply := Reply(StatusOk, found.total, |found.items|, found.total > |found.items|, Some(found.total), found.items);
    }
  }

  lemma SameLength(all: seq<Row>)
    ensures |Shown(all)| == |all|
  {
  }

  // ----- Pages tile the results -----

  // The parameters of page k.
  function PageParams(fuzzyLimit: nat, p: SearchParams, k: nat): SearchParams
    requires 1 <= fuzzyLimit
  {
    p.(offset := k * PageLimit(fuzzyLimit, p.limit))
  }

  ghost predicate AllServed(rows: seq<Row>, fuzzyLimit: nat, maxTotal: nat, p: SearchParams, replies: seq<Reply>)
    requires 1 <= fuzzyLimit
  {
    forall k :: 0 <= k < |replies| ==>
                  replies[k].Reply? && Served(rows, fuzzyLimit, maxTotal, PageParams(fuzzyLimit, p, k), replies[k])
  }

  function ItemsOf(replies: seq<Reply>): seq<seq<Row>>
    requires forall k :: 0 <= k < |replies| ==> replies[k].Reply?
  {
    seq(|replies|, k requires 0 <= k < |replies| => replies[k].items)
  }

  // On a fixed table, replies at offsets 0, L, 2L, ... that reach the reported total show, put together, every matching
  // row exactly once in (zipcode, id) order; all report the same total; a page is truncated iff it is not the whole.
  lemma {:induction false} PagesTileTheResults(rows: seq<Row>, fuzzyLimit: nat, maxTotal: nat, p: SearchParams,
                                               replies: seq<Reply>)
    requires ValidRows(rows) && 1 <= fuzzyLimit && replies != []
    requires AllServed(rows, fuzzyLimit, maxTotal, p, replies)
    requires replies[0].total <= |replies| * PageLimit(fuzzyLimit, p.limit)
    ensures var items := Flatten(ItemsOf(replies));
            && ShowsExactly(items, rows, p)
            && forall k :: 0 <= k < |replies| ==>
                 replies[k].total == |items| && (replies[k].truncated <==> replies[k].items != items)
  {
    hide ValidRows, ShowsExactly, PageOf, Page, Flatten;
    var limit := PageLimit(fuzzyLimit, p.limit);
    var all :| ShowsExactly(all, rows, PageParams(fuzzyLimit, p, 0))
               && PageOf(all, fuzzyLimit, maxTotal, PageParams(fuzzyLimit, p, 0), replies[0]);
    SameRequest(all, rows, p, PageParams(fuzzyLimit, p, 0));
    forall k | 0 <= k < |replies| ensures PageOf(all, fuzzyLimit, maxTotal, PageParams(fuzzyLimit, p, k), replies[k]) {
      assert Served(rows, fuzzyLimit, maxTotal, PageParams(fuzzyLimit, p, k), replies[k]);
      var these :| ShowsExactly(these, rows, PageParams(fuzzyLimit, p, k))
                   && PageOf(these, fuzzyLimit, maxTotal, PageParams(fuzzyLimit, p, k), replies[k]);
      SameRequest(these, rows, p, PageParams(fuzzyLimit, p, k));
      SameShown(these, all, rows, p);
    }
    forall k | 0 <= k < |replies|
      ensures replies[k].items == Pages(all, limit, |replies|)[k] && replies[k].total == |all|
      ensures replies[k].truncated <==> replies[k].items != all
    {
      PageSays(all, fuzzyLimit, maxTotal, PageParams(fuzzyLimit, p, k), replies[k]);
    }
    assert ItemsOf(replies) == Pages(all, limit, |replies|);
    PagesTile(all, limit, |replies|);
  }

  lemma PageSays(all: seq<Row>, fuzzyLimit: nat, maxTotal: nat, p: SearchParams, reply: Reply)
    requires 1 <= fuzzyLimit && PageOf(all, fuzzyLimit, maxTotal, p, reply)
    ensures 0 <= p.offset && reply.items == Page(all, p.offset, PageLimit(fuzzyLimit, p.limit))
    ensures reply.total == |all| && (reply.truncated <==> reply.items != all)
  {
  }

  // The page does not take part in what is requested.
  lemma SameRequest(all: seq<Row>, rows: seq<Row>, p: SearchParams, other: SearchParams)
    requires other == p.(offset := other.offset)
    ensures ShowsExactly(all, rows, p) <==> ShowsExactly(all, rows, other)
  {
    hide Ordered, ShowsRow, TrimSpace, ZipcodeAccepts, PrefectureAccepts, CityAccepts, KeywordAccepts;
    forall a ensures Requested(p, a) <==> Requested(other, a) {
    }
    hide Requested;
  }

  lemma SameShown(items: seq<Row>, others: seq<Row>, rows: seq<Row>, p: SearchParams)
    requires ShowsExactly(items, rows, p) && ShowsExactly(others, rows, p)
    ensures items == others
  {
    hide Ordered, ShowsRow, Requested;
    OneSequence(items, others);
  }
}

// internal/store/address_read_repo.go:38-86: the two statements of Search, on the table they read.

module Searching {
  import opened Seqs
  import opened Addresses
  import opened Tables
  import opened AddressRepo
  import opened Queries
  import opened Statements

  // ----- ORDER BY zipcode, id -----

  // Binary collation.
  predicate TextBefore(s: string, t: string) {
    t != "" && (s == "" || s[0] < t[0] || (s[0] == t[0] && TextBefore(s[1..], t[1..])))
  }

  // Up to i the texts agree; there the first ends, or goes on with a smaller byte.
  ghost predicate PartAt(s: string, t: string, i: nat) {
    i <= |s| && i < |t| && s[..i] == t[..i] && (i == |s| || s[i] < t[i])
  }

  lemma TextBeforeMeans(s: string, t: string)
    ensures TextBefore(s, t) <==> exists i: nat :: PartAt(s, t, i)
  {
    if TextBefore(s, t) {
      var i := Parting(s, t);
    }
    forall i: nat | PartAt(s, t, i) ensures TextBefore(s, t) {
      PartedTexts(s, t, i);
    }
  }

  lemma {:induction false} Parting(s: string, t: string) returns (i: nat)
    requires TextBefore(s, t)
    ensures PartAt(s, t, i)
  {
    if s == "" || s[0] < t[0] {
      i := 0;
    } else {
      var j := Parting(s[1..], t[1..]);
      i := j + 1;
      assert s[..i] == [s[0]] + s[1..][..j] && t[..i] == [t[0]] + t[1..][..j];
    }
  }

  lemma {:induction false} PartedTexts(s: string, t: string, i: nat)
    requires PartAt(s, t, i)
    ensures TextBefore(s, t)
  {
    if 0 < i {
      assert s[0] == s[..i][0] && t[0] == t[..i][0];
      assert s[1..][..i - 1] == s[..i][1..] && t[1..][..i - 1] == t[..i][1..];
      PartedTexts(s[1..], t[1..], i - 1);
    }
  }

  lemma {:induction false} TextIrreflexive(s: string)
    ensures !TextBefore(s, s)
  {
    if s != "" {
      TextIrreflexive(s[1..]);
    }
  }

  lemma {:induction false} TextOrder(s: string, t: string)
    ensures TextBefore(s, t) || s == t || TextBefore(t, s)
    ensures !(TextBefore(s, t) && TextBefore(t, s)) && !TextBefore(s, s)
    decreases |s| + |t|
  {
    if s != "" {
      TextIrreflexive(s);
      if t != "" {
        TextOrder(s[1..], t[1..]);
        assert s == [s[0]] + s[1..] && t == [t[0]] + t[1..];
      }
    }
  }

  lemma {:induction false} TextChain(s: string, t: string, u: string)
    requires TextBefore(s, t) && TextBefore(t, u)
    ensures TextBefore(s, u)
  {
    if s != "" && s[0] == t[0] && t[0] == u[0] {
      TextChain(s[1..], t[1..], u[1..]);
    }
  }

  predicate Before(r: Row, q: Row) {
    TextBefore(r.addr.zipcode, q.addr.zipcode) || (r.addr.zipcode == q.addr.zipcode && r.id < q.id)
  }

  // By zipcode, and by id where the zipcodes agree.
  lemma BeforeMeans(r: Row, q: Row)
    ensures r.addr.zipcode == q.addr.zipcode ==> (Before(r, q) <==> r.id < q.id)
    ensures r.addr.zipcode != q.addr.zipcode ==> (Before(r, q) <==> TextBefore(r.addr.zipcode, q.addr.zipcode))
  {
    TextIrreflexive(r.addr.zipcode);
  }

  lemma RowOrder(r: Row, q: Row)
    ensures Before(r, q) || Before(q, r) || (r.addr.zipcode == q.addr.zipcode && r.id == q.id)
    ensures !(Before(r, q) && Before(q, r)) && !Before(r, r)
  {
    hide TextBefore;
    TextOrder(r.addr.zipcode, q.addr.zipcode);
    TextOrder(r.addr.zipcode, r.addr.zipcode);
  }

  lemma RowChain(r: Row, q: Row, p: Row)
    requires Before(r, q) && Before(q, p)
    ensures Before(r, p)
  {
    hide TextBefore;
    if TextBefore(r.addr.zipcode, q.addr.zipcode) && TextBefore(q.addr.zipcode, p.addr.zipcode) {
      TextChain(r.addr.zipcode, q.addr.zipcode, p.addr.zipcode);
    }
  }

  ghost predicate Ordered(rows: seq<Row>) {
    forall i, j :: 0 <= i < j < |rows| ==> Before(rows[i], rows[j])
  }

  // What ORDER BY yields: the same rows, each as often, in order.
  function InsertRow(r: Row, rows: seq<Row>): seq<Row> {
    if rows == [] || Before(r, rows[0]) then [r] + rows else [rows[0]] + InsertRow(r, rows[1..])
  }

  function InOrder(rows: seq<Row>): seq<Row> {
    if rows == [] then [] else InsertRow(rows[|rows| - 1], InOrder(rows[..|rows| - 1]))
  }

  lemma {:induction false} InsertSame(r: Row, rows: seq<Row>)
    ensures multiset(InsertRow(r, rows)) == multiset(rows) + multiset{r}
  {
    hide Before;
    if rows != [] && !Before(r, rows[0]) {
      InsertSame(r, rows[1..]);
      assert rows == [rows[0]] + rows[1..];
    }
  }

  lemma MultisetMember(rows: seq<Row>, others: seq<Row>)
    requires multiset(rows) == multiset(others)
    ensures |rows| == |others| && forall r :: r in rows <==> r in others
  {
    assert |multiset(rows)| == |rows| && |multiset(others)| == |others|;
    forall r ensures r in rows <==> r in others {
      assert r in multiset(rows) <==> r in multiset(others);
    }
  }

  lemma OrderedCons(r: Row, rows: seq<Row>)
    requires Ordered(rows) && forall q :: q in rows ==> Before(r, q)
    ensures Ordered([r] + rows)
  {
    hide Before;
  }

  lemma OrderedTail(rows: seq<Row>)
    requires Ordered(rows) && rows != []
    ensures Ordered(rows[1..]) && forall q :: q in rows[1..] ==> Before(rows[0], q)
  {
    hide Before;
  }

  lemma {:induction false} InsertOrdered(r: Row, rows: seq<Row>)
    requires Ordered(rows) && forall q :: q in rows ==> q.id != r.id
    ensures Ordered(InsertRow(r, rows))
  {
    hide Before, Ordered;
    if rows == [] {
      OrderedCons(r, []);
      assert [r] + [] == [r];
    } else {
      OrderedTail(rows);
      if Before(r, rows[0]) {
        forall q | q in rows[1..] ensures Before(r, q) {
          RowChain(r, rows[0], q);
        }
        assert forall q :: q in rows ==> q == rows[0] || q in rows[1..];
        OrderedCons(r, rows);
      } else {
        RowOrder(r, rows[0]);
        assert rows[0] in rows && forall q :: q in rows[1..] ==> q in rows;
        InsertOrdered(r, rows[1..]);
        InsertSame(r, rows[1..]);
        assert multiset(InsertRow(r, rows[1..])) == multiset(rows[1..] + [r]);
        MultisetMember(InsertRow(r, rows[1..]), rows[1..] + [r]);
        OrderedCons(rows[0], InsertRow(r, rows[1..]));
      }
    }
  }

  lemma {:induction false} InOrderSame(rows: seq<Row>)
    ensures multiset(InOrder(rows)) == multiset(rows)
  {
    if rows != [] {
      var n := |rows| - 1;
      InOrderSame(rows[..n]);
      InsertSame(rows[n], InOrder(rows[..n]));
      assert rows == rows[..n] + [rows[n]];
    }
  }

  lemma {:induction false} InOrderOrdered(rows: seq<Row>)
    requires ValidRows(rows)
    ensures Ordered(InOrder(rows))
  {
    hide ValidRows, Ordered;
    if rows == [] {
      NothingOrdered();
    } else {
      var n := |rows| - 1;
      LastIsFresh(rows);
      InOrderOrdered(rows[..n]);
      InOrderSame(rows[..n]);
      MultisetMember(InOrder(rows[..n]), rows[..n]);
      InsertOrdered(rows[n], InOrder(rows[..n]));
    }
  }

  lemma NothingOrdered()
    ensures Ordered([])
  {
  }

  lemma TailMultiset(rows: seq<Row>)
    requires rows != []
    ensures multiset(rows[1..]) == multiset(rows) - multiset{rows[0]}
  {
    assert rows == [rows[0]] + rows[1..];
  }

  // An ordering of the same rows is the only one, so ORDER BY leaves the database no choice.
  lemma {:induction false} OneOrder(rows: seq<Row>, others: seq<Row>)
    requires Ordered(rows) && Ordered(others) && multiset(rows) == multiset(others)
    ensures rows == others
  {
    hide Before, Ordered;
    MultisetMember(rows, others);
    if rows != [] {
      var r, q := rows[0], others[0];
      OrderedTail(rows);
      OrderedTail(others);
      assert r in others && q in rows;
      if r != q {
        assert r in others[1..] && q in rows[1..];
        RowOrder(r, q);
      } else {
        TailMultiset(rows);
        TailMultiset(others);
        assert rows == [r] + rows[1..] && others == [r] + others[1..];
        OneOrder(rows[1..], others[1..]);
      }
    }
  }

  // ----- The rows a query selects -----

  // Every matching row, in order.
  ghost predicate IsAnswer(rows: seq<Row>, q: AddressQuery, all: seq<Row>) {
    && Ordered(all)
    && (forall r :: r in all <==> r in rows && Accepts(q, r.addr))
  }

  ghost function Accepted(q: AddressQuery): Row -> bool {
    (r: Row) => Accepts(q, r.addr)
  }

  ghost function Answer(rows: seq<Row>, q: AddressQuery): seq<Row> {
    InOrder(Filter(rows, Accepted(q)))
  }

  lemma AnswerIsAnswer(rows: seq<Row>, q: AddressQuery)
    requires ValidRows(rows)
    ensures IsAnswer(rows, q, Answer(rows, q))
  {
    hide ValidRows, Accepts, Ordered;
    var found := Filter(rows, Accepted(q));
    FilterValid(rows, Accepted(q));
    InOrderOrdered(found);
    InOrderSame(found);
    MultisetMember(InOrder(found), found);
    FilterMembers(rows, Accepted(q));
  }

  // ----- The database runs a statement -----

  function Passing(g: Filtering): Row -> bool {
    (r: Row) => Passes(g, r.addr)
  }

  // The count that a statement asks for; none if it cannot be run.
  function RunCount(driver: string, rows: seq<Row>, statement: string, args: seq<Arg>): Option<nat> {
    match CallOf(driver, statement, args)
    case None => None
    case Some(call) =>
      match ReadCount(call)
      case None => None
      case Some(g) => Some(|Filter(rows, Passing(g))|)
  }

  // One value of a row that the database sends.
  datatype Cell = Integer(n: nat) | Character(s: string)

  function CellOf(c: Listed, r: Row): Cell {
    match c
    case Id => Integer(r.id)
    case JisCode => Character(r.addr.jisCode)
    case Of(col) => Character(Field(col, r.addr))
  }

  function Cells(cols: seq<Listed>, rows: seq<Row>): seq<seq<Cell>> {
    seq(|rows|, i requires 0 <= i < |rows| => seq(|cols|, j requires 0 <= j < |cols| => CellOf(cols[j], rows[i])))
  }

  // The listed columns of the page of rows that a statement asks for.
  function RunPage(driver: string, rows: seq<Row>, statement: string, args: seq<Arg>): Option<seq<seq<Cell>>> {
    match CallOf(driver, statement, args)
    case None => None
    case Some(call) =>
      match ReadPage(call)
      case None => None
      case Some(p) => Some(Cells(p.cols, Page(InOrder(Filter(rows, Passing(p.g))), p.offset, p.limit)))
  }

  // Run by any driver, the two statements of Search give the number of the rows that the query accepts, and the nine
  // listed columns of their page: once each, in (zipcode, id) order.
  lemma {:induction false} StatementsAnswer(driver: string, rows: seq<Row>, q: AddressQuery, limit: nat, offset: nat)
    ensures var args := Texted(PlanOf(q).args);
            && RunCount(driver, rows, Rebound(CountText(q), driver), args) == Some(|Answer(rows, q)|)
            && RunPage(driver, rows, Rebound(SelectText(q), driver), args + [Number(limit), Number(offset)])
               == Some(Cells(LISTED, Page(Answer(rows, q), offset, limit)))
  {
    hide *;
    StatementsMean(driver, q, limit, offset);
    var args := Texted(PlanOf(q).args);
    var g := FilteringFor(q);
    SamePassing(rows, q, g);
    RunsAs(driver, rows, Rebound(CountText(q), driver), args, g);
    PageRunsAs(driver, rows, Rebound(SelectText(q), driver), args + [Number(limit), Number(offset)],
               PageCall(LISTED, g, limit, offset));
  }

  lemma SamePassing(rows: seq<Row>, q: AddressQuery, g: Filtering)
    requires forall a :: Passes(g, a) <==> Accepts(q, a)
    ensures InOrder(Filter(rows, Passing(g))) == Answer(rows, q) && |Filter(rows, Passing(g))| == |Answer(rows, q)|
  {
    hide Accepts, Passes, InOrder;
    FilterSame(rows, Passing(g), Accepted(q));
    InOrderSame(Filter(rows, Accepted(q)));
    MultisetMember(InOrder(Filter(rows, Accepted(q))), Filter(rows, Accepted(q)));
  }

  lemma RunsAs(driver: string, rows: seq<Row>, statement: string, args: seq<Arg>, g: Filtering)
    requires CallOf(driver, statement, args).Some? && ReadCount(CallOf(driver, statement, args).value) == Some(g)
    ensures RunCount(driver, rows, statement, args) == Some(|Filter(rows, Passing(g))|)
  {
    hide CallOf, ReadCount, Filter;
  }

  lemma PageRunsAs(driver: string, rows: seq<Row>, statement: string, args: seq<Arg>, p: PageCall)
    requires CallOf(driver, statement, args).Some? && ReadPage(CallOf(driver, statement, args).value) == Some(p)
    ensures RunPage(driver, rows, statement, args)
            == Some(Cells(p.cols, Page(InOrder(Filter(rows, Passing(p.g))), p.offset, p.limit)))
  {
    hide CallOf, ReadPage, Filter, InOrder, Page, Cells;
  }

  lemma {:induction false} OrderedCounts(rows: seq<Row>, r: Row)
    requires Ordered(rows)
    ensures multiset(rows)[r] == if r in rows then 1 else 0
  {
    hide Before, Ordered;
    if rows != [] {
      OrderedTail(rows);
      OrderedCounts(rows[1..], r);
      assert rows == [rows[0]] + rows[1..];
      RowOrder(r, r);
    }
  }

  // IsAnswer determines the answer.
  lemma OneAnswer(rows: seq<Row>, q: AddressQuery, all: seq<Row>, others: seq<Row>)
    requires IsAnswer(rows, q, all) && IsAnswer(rows, q, others)
    ensures all == others
  {
    hide Ordered, Accepts;
    forall r ensures multiset(all)[r] == multiset(others)[r] {
      OrderedCounts(all, r);
      OrderedCounts(others, r);
    }
    OneOrder(all, others);
  }

  // ----- Pages -----

  function Page(all: seq<Row>, offset: nat, limit: nat): seq<Row> {
    var from := Min(offset, |all|);
    all[from..Min(from + limit, |all|)]
  }

  function Pages(all: seq<Row>, limit: nat, n: nat): seq<seq<Row>> {
    seq(n, k requires k >= 0 => Page(all, k * limit, limit))
  }

  lemma {:induction false} PagesSoFar(all: seq<Row>, limit: nat, n: nat)
    ensures Flatten(Pages(all, limit, n)) == all[..Min(n * limit, |all|)]
  {
    if n > 0 {
      PagesSoFar(all, limit, n - 1);
      assert Pages(all, limit, n) == Pages(all, limit, n - 1) + [Page(all, (n - 1) * limit, limit)];
      FlattenSnoc(Pages(all, limit, n - 1), Page(all, (n - 1) * limit, limit));
      assert n * limit == (n - 1) * limit + limit;
      NextPage(all, (n - 1) * limit, limit);
    }
  }

  lemma NextPage(all: seq<Row>, offset: nat, limit: nat)
    ensures all[..Min(offset, |all|)] + Page(all, offset, limit) == all[..Min(offset + limit, |all|)]
  {
  }

  // Pages at offsets 0, L, 2L, ... put together are the whole answer, once they reach its end.
  lemma PagesTile(all: seq<Row>, limit: nat, n: nat)
    requires |all| <= n * limit
    ensures Flatten(Pages(all, limit, n)) == all
  {
    PagesSoFar(all, limit, n);
  }

  // Only the whole answer is as long as the answer.
  lemma PageWhole(all: seq<Row>, offset: nat, limit: nat)
    ensures |Page(all, offset, limit)| <= |all|
    ensures |Page(all, offset, limit)| == |all| <==> Page(all, offset, limit) == all
  {
  }

  // ----- Search -----

  // The columns that the statement lists; flags and hash are not among them.
  function Scanned(r: Row): Row {
    Row(r.id, r.addr.(flagMultiZip := 0, flagKoaza := 0, flagChome := 0, flagMultiTown := 0, sourceHash := ""))
  }

  // The nine cells of a row, by position.
  lemma ListedCells(rows: seq<Row>, i: nat)
    requires i < |rows|
    ensures var r, c := rows[i].addr, Cells(LISTED, rows)[i];
            c == [Integer(rows[i].id), Character(r.zipcode), Character(r.jisCode), Character(r.prefecture),
                  Character(r.prefectureKana), Character(r.city), Character(r.cityKana), Character(r.town),
                  Character(r.townKana)]
  {
    var c, r := LISTED, rows[i];
    assert CellOf(c[0], r) == Integer(r.id) && CellOf(c[1], r) == Character(r.addr.zipcode);
    assert CellOf(c[2], r) == Character(r.addr.jisCode) && CellOf(c[3], r) == Character(r.addr.prefecture);
    assert CellOf(c[4], r) == Character(r.addr.prefectureKana) && CellOf(c[5], r) == Character(r.addr.city);
    assert CellOf(c[6], r) == Character(r.addr.cityKana) && CellOf(c[7], r) == Character(r.addr.town);
    assert CellOf(c[8], r) == Character(r.addr.townKana);
  }

  function Shown(rows: seq<Row>): seq<Row> {
    seq(|rows|, i requires 0 <= i < |rows| => Scanned(rows[i]))
  }

  lemma ShownPage(all: seq<Row>, offset: nat, limit: nat)
    ensures Shown(Page(all, offset, limit)) == Page(Shown(all), offset, limit)
  {
  }

  lemma ShownOrdered(all: seq<Row>)
    requires Ordered(all)
    ensures Ordered(Shown(all))
    ensures forall r :: r in Shown(all) <==> exists q :: q in all && r == Scanned(q)
  {
    hide TextBefore;
    assert forall i :: 0 <= i < |all| ==> Shown(all)[i] == Scanned(all[i]) && all[i] in all;
    forall r | r in Shown(all) ensures exists q :: q in all && r == Scanned(q) {
      var i :| 0 <= i < |all| && Shown(all)[i] == r;
      assert all[i] in all;
    }
  }

  datatype Found = Found(items: seq<Row>, total: nat) | QueryFailed

  lemma NoPage(offset: nat, limit: nat)
    ensures Page(Shown([]), offset, limit) == []
  {
  }

  class AddressReadRepo {
    const table: AddressTable
    const driver: string

    constructor (table: AddressTable, driver: string)
      ensures this.table == table && this.driver == driver
    {
      this.table := table;
      this.driver := driver;
    }

    // The database answers a statement it can run, unless it fails.
    method SelectCount(statement: string, args: seq<Arg>) returns (ok: bool, n: nat)
      ensures ok ==> RunCount(driver, table.rows, statement, args) == Some(n)
    {
      var sent := *;
      var answer := RunCount(driver, table.rows, statement, args);
      ok := sent && answer.Some?;
      n := if ok then answer.value else 0;
    }

    method SelectItems(statement: string, args: seq<Arg>) returns (ok: bool, cursor: seq<seq<Cell>>)
      ensures ok ==> RunPage(driver, table.rows, statement, args) == Some(cursor)
    {
      var sent := *;
      var answer := RunPage(driver, table.rows, statement, args);
      ok := sent && answer.Some?;
      cursor := if ok then answer.value else [];
    }

    // The columns go into the fields by position.
    method ScanAll(cursor: seq<seq<Cell>>, ghost rows: seq<Row>) returns (ok: bool, items: seq<Row>)
      requires cursor == Cells(LISTED, rows)
      ensures ok ==> items == Shown(rows)
    {
      items := [];
      for i := 0 to |cursor|
        invariant items == Shown(rows[..i])
      {
        ok := *;  // Scan, or a cancelled context
        if !ok {
          return false, items;
        }
        ListedCells(rows, i);
        var c := cursor[i];
        var a := Address(c[1].s, c[2].s, c[3].s, c[4].s, c[5].s, c[6].s, c[7].s, c[8].s, 0, 0, 0, 0, "");
        assert rows[..i + 1] == rows[..i] + [rows[i]];
        items := items + [Row(c[0].n, a)];
      }
      assert rows[..|rows|] == rows;
      ok := *;
    }

    method Search(q: AddressQuery) returns (r: Found)
      requires table.Valid()
      ensures IsAnswer(table.rows, q, Answer(table.rows, q))
      ensures r.Found? ==>
                && r.total == |Answer(table.rows, q)|
                && r.items == Page(Shown(Answer(table.rows, q)), if q.offset < 0 then 0 else q.offset,
                                   if q.limit <= 0 then 20 else q.limit)
    {
      hide IsAnswer, Numbered, PlanOf, InOrder, ValidRows, Texts, WhereText, CountText, SelectText, Filter, Shown;
      hide Contents, Answer, RunCount, RunPage, Texted;
      AnswerIsAnswer(table.rows, q);
      StatementTexts(q);
      var limit := if q.limit <= 0 then 20 else q.limit;
      var offset := if q.offset < 0 then 0 else q.offset;
      StatementsAnswer(driver, table.rows, q, limit, offset);
      var where, args := BuildWhere(q);
      var count := RebindPlaceholders(COUNT_HEAD + where, driver);
      var ok, total := SelectCount(count, Texted(args));
      if !ok {
        return QueryFailed;
      }
      if total == 0 {
        NoPage(offset, limit);
        return Found([], 0);
      }
      var select := RebindPlaceholders(SELECT_HEAD + where + PAGE_TAIL, driver);
      var cursor;
      ok, cursor := SelectItems(select, Texted(args) + [Number(limit), Number(offset)]);
      if !ok {
        return QueryFailed;
      }
      var items;
      ok, items := ScanAll(cursor, Page(Answer(table.rows, q), offset, limit));
      if !ok {
        return QueryFailed;
      }
      ShownPage(Answer(table.rows, q), offset, limit);
      return Found(items, total);
    }
  }
}

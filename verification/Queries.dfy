// internal/store/address_read_repo.go:97-160: the query compiler and the rebinding of placeholders.

module Queries {
  import opened Decimals
  import opened Addresses
  import opened Like

  datatype AddressQuery = AddressQuery(zipcode: string, prefecture: string, city: string, q: string, limit: int,
                                       offset: int)

  // ----- The target language: a conjunction of disjunctions of comparisons with placeholders -----

  datatype Column = PREFECTURE | PREFECTURE_KANA | CITY | CITY_KANA | TOWN | TOWN_KANA | ZIPCODE

  function ColumnName(c: Column): string {
    match c
    case PREFECTURE => "prefecture"
    case PREFECTURE_KANA => "prefecture_kana"
    case CITY => "city"
    case CITY_KANA => "city_kana"
    case TOWN => "town"
    case TOWN_KANA => "town_kana"
    case ZIPCODE => "zipcode"
  }

  function Field(c: Column, a: Address): string {
    match c
    case PREFECTURE => a.prefecture
    case PREFECTURE_KANA => a.prefectureKana
    case CITY => a.city
    case CITY_KANA => a.cityKana
    case TOWN => a.town
    case TOWN_KANA => a.townKana
    case ZIPCODE => a.zipcode
  }

  datatype Clause =
    | Equal(col: Column)
    | LikeOne(col: Column)
    | LikeAny(cols: seq<Column>)  // parenthesised, joined by OR

  function LikeText(c: Column): string {
    ColumnName(c) + " LIKE ? ESCAPE '\\'"
  }

  function OrText(cols: seq<Column>): string
    requires cols != []
  {
    if |cols| == 1 then LikeText(cols[0]) else OrText(cols[..|cols| - 1]) + " OR " + LikeText(cols[|cols| - 1])
  }

  function ClauseText(c: Clause): string {
    match c
    case Equal(col) => ColumnName(col) + " = ?"
    case LikeOne(col) => LikeText(col)
    case LikeAny(cols) => if cols == [] then "()" else "(" + OrText(cols) + ")"
  }

  // strings.Join
  function Join(parts: seq<string>, sep: string): string {
    if parts == [] then "" else if |parts| == 1 then parts[0]
    else Join(parts[..|parts| - 1], sep) + sep + parts[|parts| - 1]
  }

  function WhereText(parts: seq<string>): string {
    if parts == [] then "" else " WHERE " + Join(parts, " AND ")
  }

  function Texts(clauses: seq<Clause>): seq<string> {
    seq(|clauses|, i requires 0 <= i < |clauses| => ClauseText(clauses[i]))
  }

  // Placeholders of a clause.
  function Slots(c: Clause): nat {
    match c
    case Equal(_) => 1
    case LikeOne(_) => 1
    case LikeAny(cols) => |cols|
  }

  function AllSlots(clauses: seq<Clause>): nat {
    if clauses == [] then 0 else AllSlots(clauses[..|clauses| - 1]) + Slots(clauses[|clauses| - 1])
  }

  // Evaluation with positional arguments.
  predicate ClauseHolds(c: Clause, args: seq<string>, a: Address)
    requires |args| == Slots(c)
  {
    match c
    case Equal(col) => Field(col, a) == args[0]
    case LikeOne(col) => Matches(args[0], Field(col, a))
    case LikeAny(cols) => exists i :: 0 <= i < |cols| && Matches(args[i], Field(cols[i], a))
  }

  predicate Holds(clauses: seq<Clause>, args: seq<string>, a: Address)
    requires |args| == AllSlots(clauses)
  {
    if clauses == [] then true else
      var last := clauses[|clauses| - 1];
      && Holds(clauses[..|clauses| - 1], args[..|args| - Slots(last)], a)
      && ClauseHolds(last, args[|args| - Slots(last)..], a)
  }

  // ----- The specification of a query -----

  ghost predicate ZipcodeAccepts(zipcode: string, a: Address) {
    zipcode == "" || if |zipcode| == 7 then a.zipcode == zipcode else Prefix(zipcode, a.zipcode)
  }

  ghost predicate PrefectureAccepts(s: string, a: Address) {
    s == "" || Substring(s, a.prefecture) || Substring(s, a.prefectureKana)
  }

  ghost predicate CityAccepts(s: string, a: Address) {
    s == "" || Substring(s, a.city) || Substring(s, a.cityKana)
  }

  ghost predicate KeywordAccepts(s: string, a: Address) {
    || s == ""
    || Substring(s, a.prefecture) || Substring(s, a.prefectureKana)
    || Substring(s, a.city) || Substring(s, a.cityKana)
    || Substring(s, a.town) || Substring(s, a.townKana)
    || Substring(s, a.zipcode)
  }

  ghost predicate Accepts(q: AddressQuery, a: Address) {
    && ZipcodeAccepts(q.zipcode, a) && PrefectureAccepts(q.prefecture, a)
    && CityAccepts(q.city, a) && KeywordAccepts(q.q, a)
  }

  // The same by lists of columns.

  const PREFECTURE_COLUMNS := [PREFECTURE, PREFECTURE_KANA]
  const CITY_COLUMNS := [CITY, CITY_KANA]
  const KEYWORD_COLUMNS := [PREFECTURE, PREFECTURE_KANA, CITY, CITY_KANA, TOWN, TOWN_KANA, ZIPCODE]

  ghost predicate InSome(s: string, cols: seq<Column>, a: Address) {
    exists i :: 0 <= i < |cols| && Substring(s, Field(cols[i], a))
  }

  ghost predicate FieldAccepts(s: string, cols: seq<Column>, a: Address) {
    s == "" || InSome(s, cols, a)
  }

  lemma PairAccepts(s: string, a: Address)
    ensures FieldAccepts(s, PREFECTURE_COLUMNS, a) <==> PrefectureAccepts(s, a)
    ensures FieldAccepts(s, CITY_COLUMNS, a) <==> CityAccepts(s, a)
  {
    hide Substring;
    var ps, cs := PREFECTURE_COLUMNS, CITY_COLUMNS;
    assert Field(ps[0], a) == a.prefecture && Field(ps[1], a) == a.prefectureKana;
    assert Field(cs[0], a) == a.city && Field(cs[1], a) == a.cityKana;
  }

  lemma ListAccepts(s: string, a: Address)
    ensures FieldAccepts(s, KEYWORD_COLUMNS, a) <==> KeywordAccepts(s, a)
  {
    hide Substring;
    var ks := KEYWORD_COLUMNS;
    assert Field(ks[0], a) == a.prefecture && Field(ks[1], a) == a.prefectureKana;
    assert Field(ks[2], a) == a.city && Field(ks[3], a) == a.cityKana;
    assert Field(ks[4], a) == a.town && Field(ks[5], a) == a.townKana && Field(ks[6], a) == a.zipcode;
  }

  // ----- The compiler -----

  function Contains(s: string): string {
    "%" + EscapeLike(s) + "%"
  }

  function Repeated(s: string, n: nat): seq<string> {
    seq(n, _ => s)
  }

  // A compiled query: clauses with their arguments.
  datatype Plan = Plan(clauses: seq<Clause>, args: seq<string>)

  function Extended(p: Plan, c: Clause, args: seq<string>): Plan {
    Plan(p.clauses + [c], p.args + args)
  }

  function WithZipcode(p: Plan, zipcode: string): Plan {
    if zipcode == "" then p
    else if |zipcode| == 7 then Extended(p, Equal(ZIPCODE), [zipcode])
    else Extended(p, LikeOne(ZIPCODE), [EscapeLike(zipcode) + "%"])
  }

  function WithField(p: Plan, s: string, cols: seq<Column>): Plan {
    if s == "" then p else Extended(p, LikeAny(cols), Repeated(Contains(s), |cols|))
  }

  function PlanOf(q: AddressQuery): Plan {
    WithField(WithField(WithField(WithZipcode(Plan([], []), q.zipcode),
                                  q.prefecture, PREFECTURE_COLUMNS), q.city, CITY_COLUMNS), q.q, KEYWORD_COLUMNS)
  }

  // The plan so far means exactly the condition `accepts` about the address.
  ghost predicate Means(p: Plan, a: Address, accepts: bool) {
    |p.args| == AllSlots(p.clauses) && (Holds(p.clauses, p.args, a) <==> accepts)
  }

  lemma ExtendedMeans(p: Plan, c: Clause, args: seq<string>, a: Address, accepts: bool)
    requires Means(p, a, accepts) && |args| == Slots(c)
    ensures Means(Extended(p, c, args), a, accepts && ClauseHolds(c, args, a))
  {
    hide ClauseHolds, Slots;
    var r := Extended(p, c, args);
    assert r.clauses[..|r.clauses| - 1] == p.clauses;
    assert r.args[..|r.args| - |args|] == p.args && r.args[|r.args| - |args|..] == args;
  }

  lemma FieldMeans(p: Plan, s: string, cols: seq<Column>, a: Address, accepts: bool)
    requires Means(p, a, accepts)
    ensures Means(WithField(p, s, cols), a, accepts && FieldAccepts(s, cols, a))
  {
    hide Means, EscapeLike, Matches, Field;
    if s != "" {
      var args := Repeated(Contains(s), |cols|);
      ExtendedMeans(p, LikeAny(cols), args, a, accepts);
      forall i | 0 <= i < |cols| ensures Matches(args[i], Field(cols[i], a)) <==> Substring(s, Field(cols[i], a)) {
        ContainsPattern(s, Field(cols[i], a));
      }
    }
  }

  lemma ZipcodeMeans(p: Plan, zipcode: string, a: Address, accepts: bool)
    requires Means(p, a, accepts)
    ensures Means(WithZipcode(p, zipcode), a, accepts && ZipcodeAccepts(zipcode, a))
  {
    hide Means, EscapeLike, Matches;
    if |zipcode| == 7 {
      ExtendedMeans(p, Equal(ZIPCODE), [zipcode], a, accepts);
    } else if zipcode != "" {
      ExtendedMeans(p, LikeOne(ZIPCODE), [EscapeLike(zipcode) + "%"], a, accepts);
      PrefixPattern(zipcode, a.zipcode);
    }
  }

  // The compiled clause, evaluated with its positional arguments, accepts a row exactly when the query does.
  lemma {:induction false} CompiledMeaning(q: AddressQuery, a: Address)
    ensures |PlanOf(q).args| == AllSlots(PlanOf(q).clauses)
    ensures Holds(PlanOf(q).clauses, PlanOf(q).args, a) <==> Accepts(q, a)
  {
    hide WithField, WithZipcode, ZipcodeAccepts, PrefectureAccepts, CityAccepts, KeywordAccepts, FieldAccepts, Holds;
    PairAccepts(q.prefecture, a);
    PairAccepts(q.city, a);
    ListAccepts(q.q, a);
    var start := Plan([], []);
    assert Means(start, a, true) by { NothingHolds(a); }
    ZipcodeMeans(start, q.zipcode, a, true);
    var p1 := WithZipcode(start, q.zipcode);
    var c1 := ZipcodeAccepts(q.zipcode, a);
    FieldMeans(p1, q.prefecture, PREFECTURE_COLUMNS, a, c1);
    var p2 := WithField(p1, q.prefecture, PREFECTURE_COLUMNS);
    var c2 := c1 && FieldAccepts(q.prefecture, PREFECTURE_COLUMNS, a);
    FieldMeans(p2, q.city, CITY_COLUMNS, a, c2);
    var p3 := WithField(p2, q.city, CITY_COLUMNS);
    FieldMeans(p3, q.q, KEYWORD_COLUMNS, a, c2 && FieldAccepts(q.city, CITY_COLUMNS, a));
  }

  lemma NothingHolds(a: Address)
    ensures Holds([], [], a)
  {
  }

  lemma TextsExtended(clauses: seq<Clause>, c: Clause)
    ensures Texts(clauses + [c]) == Texts(clauses) + [ClauseText(c)]
  {
    hide ClauseText;
  }

  // The plan has grown by one clause and its arguments.
  predicate Grown(p: Plan, r: Plan, c: Clause, args: seq<string>) {
    Texts(r.clauses) == Texts(p.clauses) + [ClauseText(c)] && r.args == p.args + args
  }

  lemma ZipcodeStep(p: Plan, zipcode: string)
    ensures zipcode == "" ==> WithZipcode(p, zipcode) == p
    ensures |zipcode| == 7 ==> Grown(p, WithZipcode(p, zipcode), Equal(ZIPCODE), [zipcode])
    ensures |zipcode| !in {0, 7} ==> Grown(p, WithZipcode(p, zipcode), LikeOne(ZIPCODE), [EscapeLike(zipcode) + "%"])
  {
    hide ClauseText, EscapeLike, Texts;
    TextsExtended(p.clauses, Equal(ZIPCODE));
    TextsExtended(p.clauses, LikeOne(ZIPCODE));
  }

  lemma FieldStep(p: Plan, s: string, cols: seq<Column>)
    ensures s == "" ==> WithField(p, s, cols) == p
    ensures s != "" ==> Grown(p, WithField(p, s, cols), LikeAny(cols), Repeated(Contains(s), |cols|))
  {
    hide ClauseText, Contains, Repeated, Texts;
    TextsExtended(p.clauses, LikeAny(cols));
  }

  lemma TwoAndSeven(s: string)
    ensures Repeated(s, 2) == [s, s] && Repeated(s, 7) == [s, s, s, s, s, s, s]
  {
  }

  method BuildWhere(q: AddressQuery) returns (text: string, args: seq<string>)
    ensures text == WhereText(Texts(PlanOf(q).clauses)) && args == PlanOf(q).args
  {
    hide ClauseText, EscapeLike, WhereText, Texts, WithZipcode, WithField, Repeated, Contains;
    var parts: seq<string> := [];
    args := [];
    ghost var p := Plan([], []);
    assert Texts([]) == [] by { NoTexts(); }
    if q.zipcode != "" {
      if |q.zipcode| == 7 {
        parts := parts + [ClauseText(Equal(ZIPCODE))];
        args := args + [q.zipcode];
      } else {
        parts := parts + [ClauseText(LikeOne(ZIPCODE))];
        args := args + [EscapeLike(q.zipcode) + "%"];
      }
    }
    ZipcodeStep(p, q.zipcode);
    p := WithZipcode(p, q.zipcode);
    if q.prefecture != "" {
      parts := parts + [ClauseText(LikeAny(PREFECTURE_COLUMNS))];
      var c := Contains(q.prefecture);
      args := args + [c, c];
      TwoAndSeven(c);
    }
    FieldStep(p, q.prefecture, PREFECTURE_COLUMNS);
    p := WithField(p, q.prefecture, PREFECTURE_COLUMNS);
    assert parts == Texts(p.clauses) && args == p.args;
    if q.city != "" {
      parts := parts + [ClauseText(LikeAny(CITY_COLUMNS))];
      var c := Contains(q.city);
      args := args + [c, c];
      TwoAndSeven(c);
    }
    FieldStep(p, q.city, CITY_COLUMNS);
    p := WithField(p, q.city, CITY_COLUMNS);
    assert parts == Texts(p.clauses) && args == p.args;
    if q.q != "" {
      parts := parts + [ClauseText(LikeAny(KEYWORD_COLUMNS))];
      var c := Contains(q.q);
      args := args + [c, c, c, c, c, c, c];
      TwoAndSeven(c);
    }
    FieldStep(p, q.q, KEYWORD_COLUMNS);
    text := WhereText(parts);
  }

  lemma NoTexts()
    ensures Texts([]) == []
  {
  }

  // The clause texts, spelt out.
  lemma ZipcodeTexts()
    ensures ClauseText(Equal(ZIPCODE)) == "zipcode = ?"
    ensures ClauseText(LikeOne(ZIPCODE)) == "zipcode LIKE ? ESCAPE '\\'"
  {
  }

  lemma TwoColumnsText(one: Column, two: Column)
    ensures ClauseText(LikeAny([one, two])) == "(" + (LikeText(one) + " OR " + LikeText(two)) + ")"
  {
    hide LikeText;
    assert [one, two][..1] == [one];
    assert OrText([one, two]) == LikeText(one) + " OR " + LikeText(two);
  }

  lemma OrTextMore(cols: seq<Column>, c: Column)
    requires cols != []
    ensures OrText(cols + [c]) == OrText(cols) + " OR " + LikeText(c)
  {
    hide LikeText;
    assert (cols + [c])[..|cols|] == cols;
  }

  lemma KeywordText()
    ensures ClauseText(LikeAny(KEYWORD_COLUMNS))
            == "(" + (LikeText(PREFECTURE) + " OR " + LikeText(PREFECTURE_KANA)
                      + " OR " + LikeText(CITY) + " OR " + LikeText(CITY_KANA)
                      + " OR " + LikeText(TOWN) + " OR " + LikeText(TOWN_KANA) + " OR " + LikeText(ZIPCODE)) + ")"
  {
    hide LikeText;
    var one := [PREFECTURE];
    assert OrText(one) == LikeText(PREFECTURE);
    hide OrText;
    OrTextMore(one, PREFECTURE_KANA);
    OrTextMore(one + [PREFECTURE_KANA], CITY);
    OrTextMore(one + [PREFECTURE_KANA] + [CITY], CITY_KANA);
    OrTextMore(one + [PREFECTURE_KANA] + [CITY] + [CITY_KANA], TOWN);
    OrTextMore(one + [PREFECTURE_KANA] + [CITY] + [CITY_KANA] + [TOWN], TOWN_KANA);
    OrTextMore(one + [PREFECTURE_KANA] + [CITY] + [CITY_KANA] + [TOWN] + [TOWN_KANA], ZIPCODE);
    assert KEYWORD_COLUMNS == one + [PREFECTURE_KANA] + [CITY] + [CITY_KANA] + [TOWN] + [TOWN_KANA] + [ZIPCODE];
  }

  // ----- As many placeholders as arguments -----

  function Marks(text: string): nat {
    multiset(text)['?']
  }

  lemma MarksAppend(a: string, b: string)
    ensures Marks(a + b) == Marks(a) + Marks(b)
  {
  }

  lemma NoMarks(text: string)
    requires '?' !in text
    ensures Marks(text) == 0
  {
  }

  lemma NameMarks(c: Column)
    ensures Marks(ColumnName(c)) == 0
  {
    hide Marks;
    NoMarks(ColumnName(c));
  }

  lemma ComparisonMarks()
    ensures Marks(" LIKE ? ESCAPE '\\'") == Marks(" = ?") == 1
  {
    hide Marks;
    NoMarks(" LIKE ");
    NoMarks(" ESCAPE '\\'");
    MarksAppend(" LIKE ", "?");
    MarksAppend(" LIKE " + "?", " ESCAPE '\\'");
    assert " LIKE ? ESCAPE '\\'" == " LIKE " + "?" + " ESCAPE '\\'";
    NoMarks(" = ");
    MarksAppend(" = ", "?");
    assert " = ?" == " = " + "?";
    OneQuestionMark();
  }

  lemma OneQuestionMark()
    ensures Marks("?") == 1
  {
  }

  lemma ColumnMarks(c: Column)
    ensures Marks(LikeText(c)) == 1 && Marks(ColumnName(c) + " = ?") == 1
  {
    hide Marks, ColumnName;
    NameMarks(c);
    ComparisonMarks();
    MarksAppend(ColumnName(c), " LIKE ? ESCAPE '\\'");
    MarksAppend(ColumnName(c), " = ?");
  }

  lemma {:induction false} OrMarks(cols: seq<Column>)
    requires cols != []
    ensures Marks(OrText(cols)) == |cols|
  {
    hide LikeText, Marks;
    var n := |cols| - 1;
    ColumnMarks(cols[n]);
    if n > 0 {
      OrMarks(cols[..n]);
      MarksAppend(OrText(cols[..n]), " OR ");
      MarksAppend(OrText(cols[..n]) + " OR ", LikeText(cols[n]));
      assert Marks(" OR ") == 0 by { Literals(); }
    }
  }

  lemma Literals()
    ensures Marks(" OR ") == Marks(" AND ") == Marks(" WHERE ") == 0
    ensures Marks("(") == Marks(")") == Marks("()") == Marks("") == 0
  {
    hide Marks;
    NoMarks(" OR ");
    NoMarks(" AND ");
    NoMarks(" WHERE ");
    NoMarks("(");
    NoMarks(")");
    NoMarks("()");
    NoMarks("");
  }

  lemma ClauseMarks(c: Clause)
    ensures Marks(ClauseText(c)) == Slots(c)
  {
    hide LikeText, Marks, OrText;
    Literals();
    match c
    case Equal(col) => ColumnMarks(col);
    case LikeOne(col) => ColumnMarks(col);
    case LikeAny(cols) =>
      if cols != [] {
        OrMarks(cols);
        MarksAppend("(", OrText(cols));
        MarksAppend("(" + OrText(cols), ")");
      }
  }

  lemma {:induction false} JoinMarks(clauses: seq<Clause>)
    ensures Marks(Join(Texts(clauses), " AND ")) == AllSlots(clauses)
  {
    hide ClauseText, Slots, Marks;
    Literals();
    if clauses != [] {
      var n := |clauses| - 1;
      var parts := Texts(clauses);
      assert parts[..n] == Texts(clauses[..n]);
      JoinMarks(clauses[..n]);
      ClauseMarks(clauses[n]);
      if n > 0 {
        var before := Join(parts[..n], " AND ");
        MarksAppend(before, " AND ");
        MarksAppend(before + " AND ", parts[n]);
      }
    }
  }

  // The text has one placeholder for each argument.
  lemma {:induction false} PlaceholdersMatchArguments(q: AddressQuery)
    ensures Marks(WhereText(Texts(PlanOf(q).clauses))) == |PlanOf(q).args|
  {
    hide PlanOf, ClauseText, Marks, Join, Accepts, Holds;
    var clauses := PlanOf(q).clauses;
    Literals();
    JoinMarks(clauses);
    CompiledMeaning(q, Address("", "", "", "", "", "", "", "", 0, 0, 0, 0, ""));
    if clauses == [] {
      NoSlots();
    } else {
      MarksAppend(" WHERE ", Join(Texts(clauses), " AND "));
    }
  }

  lemma NoSlots()
    ensures AllSlots([]) == 0
  {
  }

  // ----- Rebinding for postgres -----

  function Piece(c: char, n: nat): string {
    if c == '?' then "$" + Decimal(n) else [c]
  }

  // Placeholders replaced by $n, $n+1, ... from the left.
  function Numbered(text: string, n: nat): string {
    if text == "" then "" else Piece(text[0], n) + Numbered(text[1..], if text[0] == '?' then n + 1 else n)
  }

  method RebindPlaceholders(query: string, driver: string) returns (out: string)
    ensures out == if driver == "postgres" then Numbered(query, 1) else query
  {
    if driver != "postgres" {
      return query;
    }
    hide Numbered, Decimal, Piece;
    out := "";
    var n: nat := 1;
    assert query[0..] == query;
    for i := 0 to |query|
      invariant out + Numbered(query[i..], n) == Numbered(query, 1)
    {
      NumberedTail(query, i, n);
      ghost var rest := Numbered(query[i + 1..], if query[i] == '?' then n + 1 else n);
      PieceIs(query[i], n);
      Regroup(out, Piece(query[i], n), rest);
      if query[i] == '?' {
        out := out + ("$" + Decimal(n));
        n := n + 1;
      } else {
        out := out + [query[i]];
      }
    }
    assert query[|query|..] == "";
    assert Numbered("", n) == "" by { NoText(n); }
  }

  lemma PieceIs(c: char, n: nat)
    ensures Piece(c, n) == if c == '?' then "$" + Decimal(n) else [c]
  {
  }

  lemma Regroup(a: string, b: string, c: string)
    ensures (a + b) + c == a + (b + c)
  {
  }

  lemma NumberedTail(query: string, i: nat, n: nat)
    requires i < |query|
    ensures Numbered(query[i..], n)
            == Piece(query[i], n) + Numbered(query[i + 1..], if query[i] == '?' then n + 1 else n)
  {
    assert query[i..][1..] == query[i + 1..];
  }

  lemma NoText(n: nat)
    ensures Numbered("", n) == ""
  {
  }

  // How the server reads a numbered text: each $ with its digits is a reference to an argument.
  function LeadingDigits(text: string): (k: nat)
    ensures k <= |text|
  {
    if text == "" || !IsDigit(text[0]) then 0 else 1 + LeadingDigits(text[1..])
  }

  datatype Read = Read(text: string, refs: seq<int>)

  function ReadNumbered(text: string): Read
    decreases |text|
  {
    if text == "" then Read("", []) else
      if text[0] == '$' then
        var k := LeadingDigits(text[1..]);
        var rest := ReadNumbered(text[1 + k..]);
        Read("?" + rest.text, [ValueOf(text[1..1 + k])] + rest.refs)
      else
        var rest := ReadNumbered(text[1..]);
        Read([text[0]] + rest.text, rest.refs)
  }

  // No dollar sign, and no digit right behind a placeholder.
  ghost predicate Bindable(text: string) {
    && '$' !in text
    && forall i :: 0 <= i < |text| - 1 && text[i] == '?' ==> !IsDigit(text[i + 1])
  }

  lemma {:induction false} DigitsThenOther(digits: string, rest: string)
    requires AllDigits(digits)
    requires rest == "" || !IsDigit(rest[0])
    ensures LeadingDigits(digits + rest) == |digits|
  {
    if digits == "" {
      assert digits + rest == rest;
    } else {
      assert (digits + rest)[1..] == digits[1..] + rest;
      DigitsThenOther(digits[1..], rest);
    }
  }

  function Consecutive(n: nat, count: nat): seq<int> {
    seq(count, i => n + i)
  }

  lemma NumberedStart(text: string, n: nat)
    requires text != "" && !IsDigit(text[0])
    ensures Numbered(text, n) != "" && !IsDigit(Numbered(text, n)[0])
  {
  }

  lemma MarksHead(text: string)
    requires text != ""
    ensures Marks(text) == (if text[0] == '?' then 1 else 0) + Marks(text[1..])
  {
    assert text == [text[0]] + text[1..];
    MarksAppend([text[0]], text[1..]);
  }

  // Rebinding numbers the placeholders n, n+1, ... in order and changes nothing else.
  lemma {:induction false} RebindReads(text: string, n: nat)
    requires Bindable(text)
    ensures ReadNumbered(Numbered(text, n)) == Read(text, Consecutive(n, Marks(text)))
    decreases |text|
  {
    hide Numbered, ReadNumbered, Marks;
    if text == "" {
      NothingRead(n);
      assert Marks("") == 0 by { Literals(); }
    } else {
      var rest := text[1..];
      BindableTail(text);
      MarksHead(text);
      if text[0] == '?' {
        RebindReads(rest, n + 1);
        OneMark(rest, n, Numbered(rest, n + 1), text);
        assert text == "?" + rest;
        assert [n as int] + Consecutive(n + 1, Marks(rest)) == Consecutive(n, Marks(text));
      } else {
        RebindReads(rest, n);
        OtherCharacter(text, n);
        assert text == [text[0]] + rest;
      }
    }
  }

  lemma NothingRead(n: nat)
    ensures ReadNumbered(Numbered("", n)) == Read("", [])
  {
  }

  lemma OtherCharacter(text: string, n: nat)
    requires text != "" && text[0] != '?' && '$' !in text
    ensures var tail := ReadNumbered(Numbered(text[1..], n));
            ReadNumbered(Numbered(text, n)) == Read([text[0]] + tail.text, tail.refs)
  {
    hide Decimal, ValueOf, LeadingDigits;
    var out := Numbered(text, n);
    assert out == [text[0]] + Numbered(text[1..], n);
    assert text[0] in text && out[0] != '$' && out[1..] == Numbered(text[1..], n);
  }

  lemma BindableTail(text: string)
    requires Bindable(text) && text != ""
    ensures Bindable(text[1..])
  {
  }

  lemma OneMark(rest: string, n: nat, tail: string, text: string)
    requires text != "" && text[0] == '?' && rest == text[1..] && tail == Numbered(rest, n + 1)
    requires Bindable(text)
    ensures ReadNumbered(Numbered(text, n)) == Read("?" + ReadNumbered(tail).text, [n as int] + ReadNumbered(tail).refs)
  {
    hide Decimal, ValueOf, LeadingDigits;
    var d := Decimal(n);
    var out := Numbered(text, n);
    assert out == ("$" + d) + tail;
    assert out[1..] == d + tail;
    DecimalReads(n);
    if rest != "" {
      assert rest[0] == text[1];
      NumberedStart(rest, n + 1);
    }
    DigitsThenOther(d, tail);
    assert out[1..1 + |d|] == d && out[1 + |d|..] == tail;
  }

  // ----- The statements that Search sends -----

  // Letters and punctuation that rebinding leaves alone.
  ghost predicate Plain(text: string) {
    forall c :: c in text ==> c != '$' && !IsDigit(c)
  }

  lemma NamePlain(c: Column)
    ensures Plain(ColumnName(c))
  {
  }

  lemma LiteralsPlain()
    ensures Plain(" LIKE ? ESCAPE '\\'") && Plain(" = ?") && Plain(" OR ") && Plain(" AND ") && Plain(" WHERE ")
    ensures Plain("(") && Plain(")") && Plain("()") && Plain("")
  {
  }

  lemma PlainAppend(a: string, b: string)
    requires Plain(a) && Plain(b)
    ensures Plain(a + b)
  {
  }

  lemma {:induction false} OrPlain(cols: seq<Column>)
    requires cols != []
    ensures Plain(OrText(cols))
  {
    hide Plain, ColumnName;
    var n := |cols| - 1;
    LiteralsPlain();
    NamePlain(cols[n]);
    PlainAppend(ColumnName(cols[n]), " LIKE ? ESCAPE '\\'");
    if n > 0 {
      OrPlain(cols[..n]);
      PlainAppend(OrText(cols[..n]), " OR ");
      PlainAppend(OrText(cols[..n]) + " OR ", LikeText(cols[n]));
    }
  }

  lemma ClausePlain(c: Clause)
    ensures Plain(ClauseText(c))
  {
    hide Plain, ColumnName, OrText;
    LiteralsPlain();
    match c
    case Equal(col) =>
      NamePlain(col);
      PlainAppend(ColumnName(col), " = ?");
    case LikeOne(col) =>
      NamePlain(col);
      PlainAppend(ColumnName(col), " LIKE ? ESCAPE '\\'");
    case LikeAny(cols) =>
      if cols != [] {
        OrPlain(cols);
        PlainAppend("(", OrText(cols));
        PlainAppend("(" + OrText(cols), ")");
      }
  }

  lemma {:induction false} JoinPlain(clauses: seq<Clause>)
    ensures Plain(Join(Texts(clauses), " AND "))
  {
    hide ClauseText, Plain;
    LiteralsPlain();
    if clauses != [] {
      var n := |clauses| - 1;
      var parts := Texts(clauses);
      assert parts[..n] == Texts(clauses[..n]);
      JoinPlain(clauses[..n]);
      ClausePlain(clauses[n]);
      if n > 0 {
        PlainAppend(Join(parts[..n], " AND "), " AND ");
        PlainAppend(Join(parts[..n], " AND ") + " AND ", parts[n]);
      }
    }
  }

  lemma WherePlain(clauses: seq<Clause>)
    ensures Plain(WhereText(Texts(clauses)))
  {
    hide ClauseText, Plain, Join;
    LiteralsPlain();
    JoinPlain(clauses);
    if clauses != [] {
      PlainAppend(" WHERE ", Join(Texts(clauses), " AND "));
    }
  }

  const COUNT_HEAD := "SELECT COUNT(*) FROM addresses"
  const COLUMNS := ["id", "zipcode", "jis_code", "prefecture", "prefecture_kana", "city", "city_kana", "town",
                    "town_kana"]
  const SELECT_HEAD := "SELECT " + Join(COLUMNS, ", ") + " FROM addresses"
  const PAGE_TAIL := " ORDER BY zipcode, id LIMIT ? OFFSET ?"

  function CountText(q: AddressQuery): string {
    COUNT_HEAD + WhereText(Texts(PlanOf(q).clauses))
  }

  function SelectText(q: AddressQuery): string {
    SELECT_HEAD + WhereText(Texts(PlanOf(q).clauses)) + PAGE_TAIL
  }

  // Plain, and without placeholders.
  ghost predicate Bare(text: string) {
    Plain(text) && '?' !in text
  }

  lemma BareAppend(a: string, b: string)
    requires Bare(a) && Bare(b)
    ensures Bare(a + b)
  {
  }

  lemma {:induction false} BareJoin(parts: seq<string>, sep: string)
    requires Bare(sep) && Bare("") && forall i :: 0 <= i < |parts| ==> Bare(parts[i])
    ensures Bare(Join(parts, sep))
  {
    hide Bare;
    if |parts| > 1 {
      var n := |parts| - 1;
      BareJoin(parts[..n], sep);
      BareAppend(Join(parts[..n], sep), sep);
      BareAppend(Join(parts[..n], sep) + sep, parts[n]);
    }
  }

  lemma CountHead()
    ensures Bare(COUNT_HEAD)
  {
  }

  lemma ColumnsBare()
    ensures forall i :: 0 <= i < |COLUMNS| ==> Bare(COLUMNS[i])
  {
    forall i | 0 <= i < |COLUMNS| ensures Bare(COLUMNS[i]) {
      OneColumnBare(i);
    }
  }

  lemma OneColumnBare(i: nat)
    requires i < 9
    ensures Bare(COLUMNS[i])
  {
    if i == 0 { assert Bare("id"); }
    else if i == 1 { assert Bare("zipcode"); }
    else if i == 2 { assert Bare("jis_code"); }
    else if i == 3 { assert Bare("prefecture"); }
    else if i == 4 { assert Bare("prefecture_kana"); }
    else if i == 5 { assert Bare("city"); }
    else if i == 6 { assert Bare("city_kana"); }
    else if i == 7 { assert Bare("town"); }
    else { assert Bare("town_kana"); }
  }

  lemma SelectParts()
    ensures Bare("SELECT ") && Bare(", ") && Bare(" FROM addresses") && Bare("")
  {
  }

  lemma SelectHead()
    ensures Bare(SELECT_HEAD)
  {
    hide Bare, Join;
    SelectParts();
    ColumnsBare();
    BareJoin(COLUMNS, ", ");
    BareAppend("SELECT ", Join(COLUMNS, ", "));
    BareAppend("SELECT " + Join(COLUMNS, ", "), " FROM addresses");
  }

  lemma PageTail()
    ensures Plain(PAGE_TAIL)
  {
  }

  lemma HeadMarks()
    ensures Marks(COUNT_HEAD) == Marks(SELECT_HEAD) == 0 && Plain(COUNT_HEAD) && Plain(SELECT_HEAD)
  {
    CountHead();
    SelectHead();
    hide Plain, Marks, Join;
    NoMarks(COUNT_HEAD);
    NoMarks(SELECT_HEAD);
  }

  lemma TailMarks()
    ensures Marks(PAGE_TAIL) == 2
  {
    hide Marks;
    var a, b := " ORDER BY zipcode, id LIMIT ", " OFFSET ";
    NoMarks(a);
    NoMarks(b);
    OneQuestionMark();
    MarksAppend(a, "?");
    MarksAppend(a + "?", b);
    MarksAppend(a + "?" + b, "?");
    assert PAGE_TAIL == a + "?" + b + "?";
  }

  // For postgres, both statements refer to their arguments 1, 2, ... in order: the count to those of the clause, the
  // page to these and then to limit and offset; otherwise they read as before.
  lemma StatementsBound(q: AddressQuery)
    ensures ReadNumbered(Numbered(CountText(q), 1)) == Read(CountText(q), Consecutive(1, |PlanOf(q).args|))
    ensures ReadNumbered(Numbered(SelectText(q), 1)) == Read(SelectText(q), Consecutive(1, |PlanOf(q).args| + 2))
  {
    hide *;
    var where := WhereText(Texts(PlanOf(q).clauses));
    PlaceholdersMatchArguments(q);
    WherePlain(PlanOf(q).clauses);
    HeadMarks();
    TailMarks();
    PageTail();
    PlainAppend(COUNT_HEAD, where);
    MarksAppend(COUNT_HEAD, where);
    PlainAppend(SELECT_HEAD, where);
    MarksAppend(SELECT_HEAD, where);
    PlainAppend(SELECT_HEAD + where, PAGE_TAIL);
    MarksAppend(SELECT_HEAD + where, PAGE_TAIL);
    PlainReads(COUNT_HEAD + where);
    PlainReads(SELECT_HEAD + where + PAGE_TAIL);
    StatementTexts(q);
  }

  lemma StatementTexts(q: AddressQuery)
    ensures CountText(q) == COUNT_HEAD + WhereText(Texts(PlanOf(q).clauses))
    ensures SelectText(q) == SELECT_HEAD + WhereText(Texts(PlanOf(q).clauses)) + PAGE_TAIL
  {
  }

  lemma PlainReads(text: string)
    requires Plain(text)
    ensures ReadNumbered(Numbered(text, 1)) == Read(text, Consecutive(1, Marks(text)))
  {
    hide Numbered, ReadNumbered, Marks;
    RebindReads(text, 1);
  }
}

// What the text of a WHERE clause means to the database: words, conditions with AND binding tighter than OR, and
// placeholders that take their arguments from left to right.

module Statements {
  import opened Seqs
  import opened Addresses
  import opened Like
  import opened Queries

  // ----- Words -----

  // Spaces and parentheses separate words, and a parenthesis is a word of its own.
  predicate Apart(c: char) {
    c == ' ' || c == '(' || c == ')'
  }

  function Ended(word: string): seq<string> {
    if word == "" then [] else [word]
  }

  // The words of a text that continues the beginning of a word.
  function Words(text: string, word: string): seq<string>
    decreases |text|
  {
    if text == "" then Ended(word)
    else if text[0] == ' ' then Ended(word) + Words(text[1..], "")
    else if Apart(text[0]) then Ended(word) + ([[text[0]]] + Words(text[1..], ""))
    else Words(text[1..], word + [text[0]])
  }

  // A text may be cut before a separator.
  lemma {:induction false} CutBefore(s: string, word: string, t: string)
    requires t == "" || Apart(t[0])
    ensures Words(s + t, word) == Words(s, word) + Words(t, "")
    decreases |s|
  {
    if s == "" {
      assert s + t == t;
      FirstWord(t, word);
    } else {
      assert (s + t)[1..] == s[1..] + t;
      if Apart(s[0]) {
        CutBefore(s[1..], "", t);
      } else {
        CutBefore(s[1..], word + [s[0]], t);
      }
    }
  }

  lemma FirstWord(t: string, word: string)
    requires t == "" || Apart(t[0])
    ensures Words(t, word) == Ended(word) + Words(t, "")
  {
  }

  // Or behind one.
  lemma {:induction false} CutAfter(s: string, word: string, t: string)
    requires s != "" && Apart(s[|s| - 1])
    ensures Words(s + t, word) == Words(s, word) + Words(t, "")
    decreases |s|
  {
    assert (s + t)[1..] == s[1..] + t;
    if |s| == 1 {
      assert s[1..] == "" && s[1..] + t == t;
      assert Words(s[1..], "") == [];
    } else if Apart(s[0]) {
      CutAfter(s[1..], "", t);
    } else {
      CutAfter(s[1..], word + [s[0]], t);
    }
  }

  ghost predicate IsWord(w: string) {
    w != "" && forall i :: 0 <= i < |w| ==> !Apart(w[i])
  }

  lemma {:induction false} OneWord(w: string, word: string)
    requires forall i :: 0 <= i < |w| ==> !Apart(w[i])
    ensures Words(w, word) == Ended(word + w)
    decreases |w|
  {
    if w == "" {
      assert word + w == word;
    } else {
      OneWord(w[1..], word + [w[0]]);
      assert word + w == (word + [w[0]]) + w[1..];
    }
  }

  lemma SpacedWord(w: string)
    requires IsWord(w)
    ensures Words(w, "") == [w] && Words(" " + w, "") == [w]
  {
    OneWord(w, "");
    assert "" + w == w;
    assert (" " + w)[1..] == w;
  }

  lemma Punctuation()
    ensures Words("", "") == [] && Words(" ", "") == [] && Words("(", "") == ["("] && Words(")", "") == [")"]
  {
    assert " "[1..] == "" && "("[1..] == "" && ")"[1..] == "";
  }

  // A word between spaces.
  lemma WordBetween(w: string)
    requires IsWord(w)
    ensures Words(" " + w + " ", "") == [w]
  {
    SpacedWord(w);
    Punctuation();
    CutBefore(" " + w, "", " ");
  }

  // ----- The words of the compiled clauses -----

  function LikeWords(c: Column): seq<string> {
    [ColumnName(c), "LIKE", "?", "ESCAPE", "'\\'"]
  }

  function OrWords(cols: seq<Column>): seq<string>
    requires cols != []
  {
    if |cols| == 1 then LikeWords(cols[0]) else OrWords(cols[..|cols| - 1]) + ["OR"] + LikeWords(cols[|cols| - 1])
  }

  // Every disjunction has a member.
  predicate Proper(c: Clause) {
    c.LikeAny? ==> c.cols != []
  }

  function ClauseWords(c: Clause): seq<string>
    requires Proper(c)
  {
    match c
    case Equal(col) => [ColumnName(col), "=", "?"]
    case LikeOne(col) => LikeWords(col)
    case LikeAny(cols) => ["("] + OrWords(cols) + [")"]
  }

  predicate AllProper(clauses: seq<Clause>) {
    forall i :: 0 <= i < |clauses| ==> Proper(clauses[i])
  }

  function AndWords(clauses: seq<Clause>): seq<string>
    requires clauses != [] && AllProper(clauses)
  {
    var n := |clauses| - 1;
    if n == 0 then ClauseWords(clauses[0]) else AndWords(clauses[..n]) + ["AND"] + ClauseWords(clauses[n])
  }

  lemma NameIsWord(c: Column)
    ensures IsWord(ColumnName(c))
  {
  }

  lemma KeywordsAreWords()
    ensures IsWord("LIKE") && IsWord("?") && IsWord("ESCAPE") && IsWord("'\\'") && IsWord("=")
    ensures IsWord("OR") && IsWord("AND") && IsWord("WHERE")
  {
  }

  lemma EqualWords()
    ensures Words(" = ?", "") == ["=", "?"]
  {
    hide Words, IsWord;
    KeywordsAreWords();
    SpacedWord("=");
    SpacedWord("?");
    CutBefore(" " + "=", "", " " + "?");
    assert " = ?" == (" " + "=") + (" " + "?");
  }

  lemma EscapeWords()
    ensures Words(" LIKE ? ESCAPE '\\'", "") == ["LIKE", "?", "ESCAPE", "'\\'"]
  {
    hide Words, IsWord;
    KeywordsAreWords();
    SpacedWord("LIKE");
    SpacedWord("?");
    SpacedWord("ESCAPE");
    SpacedWord("'\\'");
    CutBefore(" " + "LIKE", "", " " + "?");
    CutBefore((" " + "LIKE") + (" " + "?"), "", " " + "ESCAPE");
    CutBefore((" " + "LIKE") + (" " + "?") + (" " + "ESCAPE"), "", " " + "'\\'");
    EscapeText();
  }

  lemma EscapeText()
    ensures " LIKE ? ESCAPE '\\'" == (" " + "LIKE") + (" " + "?") + (" " + "ESCAPE") + (" " + "'\\'")
  {
  }

  lemma LikeTextWords(c: Column)
    ensures Words(LikeText(c), "") == LikeWords(c)
  {
    hide Words, IsWord, ColumnName;
    NameIsWord(c);
    SpacedWord(ColumnName(c));
    EscapeWords();
    CutBefore(ColumnName(c), "", " LIKE ? ESCAPE '\\'");
  }

  lemma JoinsAreWords()
    ensures Words(" OR ", "") == ["OR"] && Words(" AND ", "") == ["AND"] && Words(" WHERE ", "") == ["WHERE"]
  {
    hide Words, IsWord;
    KeywordsAreWords();
    WordBetween("OR");
    WordBetween("AND");
    WordBetween("WHERE");
    assert " OR " == " " + "OR" + " " && " AND " == " " + "AND" + " " && " WHERE " == " " + "WHERE" + " ";
  }

  // Two texts with a spaced word between them.
  lemma Joined(s: string, sep: string, t: string)
    requires |sep| >= 2 && sep[0] == ' ' && sep[|sep| - 1] == ' '
    ensures Words(s + sep + t, "") == Words(s, "") + Words(sep, "") + Words(t, "")
  {
    hide Words;
    CutBefore(s, "", sep);
    CutAfter(s + sep, "", t);
  }

  lemma {:induction false} OrTextWords(cols: seq<Column>)
    requires cols != []
    ensures Words(OrText(cols), "") == OrWords(cols)
  {
    hide Words, LikeText, LikeWords;
    var n := |cols| - 1;
    LikeTextWords(cols[n]);
    if n > 0 {
      OrTextWords(cols[..n]);
      JoinsAreWords();
      Joined(OrText(cols[..n]), " OR ", LikeText(cols[n]));
    }
  }

  lemma ClauseTextWords(c: Clause)
    requires Proper(c)
    ensures Words(ClauseText(c), "") == ClauseWords(c)
  {
    hide Words, IsWord, LikeText, LikeWords, OrText, OrWords, ColumnName;
    match c
    case Equal(col) =>
      NameIsWord(col);
      SpacedWord(ColumnName(col));
      EqualWords();
      CutBefore(ColumnName(col), "", " = ?");
    case LikeOne(col) =>
      LikeTextWords(col);
    case LikeAny(cols) =>
      Punctuation();
      OrTextWords(cols);
      CutAfter("(", "", OrText(cols));
      CutBefore("(" + OrText(cols), "", ")");
  }

  lemma {:induction false} JoinTextWords(clauses: seq<Clause>)
    requires clauses != [] && AllProper(clauses)
    ensures Words(Join(Texts(clauses), " AND "), "") == AndWords(clauses)
  {
    hide Words, ClauseText, ClauseWords;
    var n := |clauses| - 1;
    var parts := Texts(clauses);
    ClauseTextWords(clauses[n]);
    if n > 0 {
      assert parts[..n] == Texts(clauses[..n]);
      JoinTextWords(clauses[..n]);
      JoinsAreWords();
      Joined(Join(parts[..n], " AND "), " AND ", parts[n]);
    }
  }

  function WhereWords(clauses: seq<Clause>): seq<string>
    requires AllProper(clauses)
  {
    if clauses == [] then [] else ["WHERE"] + AndWords(clauses)
  }

  lemma WhereTextWords(clauses: seq<Clause>)
    requires AllProper(clauses)
    ensures Words(WhereText(Texts(clauses)), "") == WhereWords(clauses)
  {
    hide Words, Join, AndWords, ClauseText;
    if clauses == [] {
      Punctuation();
    } else {
      JoinTextWords(clauses);
      JoinsAreWords();
      CutAfter(" WHERE ", "", Join(Texts(clauses), " AND "));
    }
  }

  // ----- Conditions -----

  datatype Cond =
    | EqualTo(col: Column)
    | LikeTo(col: Column)
    | Both(left: Cond, right: Cond)
    | Either(left: Cond, right: Cond)

  datatype Reading = Bad | Got(cond: Cond, rest: seq<string>)

  function ColumnNamed(w: string): Option<Column> {
    if w == "prefecture" then Some(PREFECTURE)
    else if w == "prefecture_kana" then Some(PREFECTURE_KANA)
    else if w == "city" then Some(CITY)
    else if w == "city_kana" then Some(CITY_KANA)
    else if w == "town" then Some(TOWN)
    else if w == "town_kana" then Some(TOWN_KANA)
    else if w == "zipcode" then Some(ZIPCODE)
    else None
  }

  // column = ?, or column LIKE ? ESCAPE '\'
  function ReadComparison(ws: seq<string>): (r: Reading)
    ensures r.Got? ==> |r.rest| < |ws|
  {
    if |ws| < 3 || ColumnNamed(ws[0]).None? then Bad
    else if ws[1] == "=" && ws[2] == "?" then Got(EqualTo(ColumnNamed(ws[0]).value), ws[3..])
    else if |ws| >= 5 && ws[1] == "LIKE" && ws[2] == "?" && ws[3] == "ESCAPE" && ws[4] == "'\\'" then
      Got(LikeTo(ColumnNamed(ws[0]).value), ws[5..])
    else Bad
  }

  function ReadAtom(ws: seq<string>): (r: Reading)
    ensures r.Got? ==> |r.rest| < |ws|
    decreases |ws|, 0
  {
    if ws == [] then Bad
    else if ws[0] == "(" then
      match ReadOr(ws[1..])
      case Bad => Bad
      case Got(c, rest) => if rest != [] && rest[0] == ")" then Got(c, rest[1..]) else Bad
    else ReadComparison(ws)
  }

  function ReadAnd(ws: seq<string>): (r: Reading)
    ensures r.Got? ==> |r.rest| < |ws|
    decreases |ws|, 1
  {
    match ReadAtom(ws)
    case Bad => Bad
    case Got(c, rest) => MoreAnd(c, rest)
  }

  function MoreAnd(c: Cond, ws: seq<string>): (r: Reading)
    ensures r.Got? ==> |r.rest| <= |ws|
    decreases |ws|, 0
  {
    if ws == [] || ws[0] != "AND" then Got(c, ws) else
      match ReadAtom(ws[1..])
      case Bad => Bad
      case Got(d, rest) => MoreAnd(Both(c, d), rest)
  }

  function ReadOr(ws: seq<string>): (r: Reading)
    ensures r.Got? ==> |r.rest| < |ws|
    decreases |ws|, 2
  {
    match ReadAnd(ws)
    case Bad => Bad
    case Got(c, rest) => MoreOr(c, rest)
  }

  function MoreOr(c: Cond, ws: seq<string>): (r: Reading)
    ensures r.Got? ==> |r.rest| <= |ws|
    decreases |ws|, 0
  {
    if ws == [] || ws[0] != "OR" then Got(c, ws) else
      match ReadAnd(ws[1..])
      case Bad => Bad
      case Got(d, rest) => MoreOr(Either(c, d), rest)
  }

  function CondSlots(c: Cond): nat {
    match c
    case EqualTo(_) => 1
    case LikeTo(_) => 1
    case Both(l, r) => CondSlots(l) + CondSlots(r)
    case Either(l, r) => CondSlots(l) + CondSlots(r)
  }

  predicate CondHolds(c: Cond, args: seq<string>, a: Address)
    requires |args| == CondSlots(c)
  {
    match c
    case EqualTo(col) => Field(col, a) == args[0]
    case LikeTo(col) => Matches(args[0], Field(col, a))
    case Both(l, r) => CondHolds(l, args[..CondSlots(l)], a) && CondHolds(r, args[CondSlots(l)..], a)
    case Either(l, r) => CondHolds(l, args[..CondSlots(l)], a) || CondHolds(r, args[CondSlots(l)..], a)
  }

  // No WHERE, or a condition.
  datatype Restriction = Everything | Only(cond: Cond)

  // The words behind the table name, up to the given rest of the statement.
  function ReadWhere(ws: seq<string>, tail: seq<string>): Option<Restriction> {
    if ws == tail then Some(Everything)
    else if ws != [] && ws[0] == "WHERE" then
      match ReadOr(ws[1..])
      case Bad => None
      case Got(c, rest) => if rest == tail then Some(Only(c)) else None
    else None
  }

  function RestrictionSlots(f: Restriction): nat {
    match f
    case Everything => 0
    case Only(c) => CondSlots(c)
  }

  predicate Satisfies(f: Restriction, args: seq<string>, a: Address)
    requires |args| == RestrictionSlots(f)
  {
    match f
    case Everything => true
    case Only(c) => CondHolds(c, args, a)
  }

  // The verdict of a WHERE text with its arguments on one row; none if it cannot be read or the arguments do not fit.
  function EvalWhere(text: string, args: seq<string>, a: Address): Option<bool> {
    match ReadWhere(Words(text, ""), [])
    case None => None
    case Some(f) => if |args| == RestrictionSlots(f) then Some(Satisfies(f, args, a)) else None
  }

  // ----- Reading the compiled clauses back -----

  function OrCond(cols: seq<Column>): Cond
    requires cols != []
  {
    if |cols| == 1 then LikeTo(cols[0]) else Either(OrCond(cols[..|cols| - 1]), LikeTo(cols[|cols| - 1]))
  }

  function ClauseCond(c: Clause): Cond
    requires Proper(c)
  {
    match c
    case Equal(col) => EqualTo(col)
    case LikeOne(col) => LikeTo(col)
    case LikeAny(cols) => OrCond(cols)
  }

  function AndCond(clauses: seq<Clause>): Cond
    requires clauses != [] && AllProper(clauses)
  {
    var n := |clauses| - 1;
    if n == 0 then ClauseCond(clauses[0]) else Both(AndCond(clauses[..n]), ClauseCond(clauses[n]))
  }

  lemma NameRead(c: Column)
    ensures ColumnNamed(ColumnName(c)) == Some(c) && ColumnName(c) != "("
  {
  }

  lemma LikeRead(c: Column, rest: seq<string>)
    ensures ReadAtom(LikeWords(c) + rest) == Got(LikeTo(c), rest)
  {
    hide ColumnName, ColumnNamed;
    NameRead(c);
    assert (LikeWords(c) + rest)[5..] == rest;
  }

  lemma EqualRead(c: Column, rest: seq<string>)
    ensures ReadAtom([ColumnName(c), "=", "?"] + rest) == Got(EqualTo(c), rest)
  {
    hide ColumnName, ColumnNamed;
    NameRead(c);
    assert ([ColumnName(c), "=", "?"] + rest)[3..] == rest;
  }

  lemma {:induction false} OrRead(cols: seq<Column>, rest: seq<string>)
    requires cols != [] && (rest == [] || rest[0] != "AND")
    ensures ReadOr(OrWords(cols) + rest) == MoreOr(OrCond(cols), rest)
    decreases |cols|
  {
    hide LikeWords, ReadAtom;
    var n := |cols| - 1;
    if n == 0 {
      LikeRead(cols[0], rest);
      assert OrWords(cols) + rest == LikeWords(cols[0]) + rest;
      assert ReadAnd(LikeWords(cols[0]) + rest) == Got(LikeTo(cols[0]), rest);
    } else {
      var next := ["OR"] + (LikeWords(cols[n]) + rest);
      assert OrWords(cols) + rest == OrWords(cols[..n]) + next;
      OrRead(cols[..n], next);
      LikeRead(cols[n], rest);
      var last := LikeWords(cols[n]) + rest;
      assert next[1..] == last;
      assert ReadAnd(last) == Got(LikeTo(cols[n]), rest);
      assert MoreOr(OrCond(cols[..n]), next) == MoreOr(Either(OrCond(cols[..n]), LikeTo(cols[n])), rest);
    }
  }

  lemma ClauseRead(c: Clause, rest: seq<string>)
    requires Proper(c)
    ensures ReadAtom(ClauseWords(c) + rest) == Got(ClauseCond(c), rest)
  {
    hide LikeWords, OrWords, OrCond, ReadOr, ColumnName, ReadComparison;
    match c
    case Equal(col) => EqualRead(col, rest);
    case LikeOne(col) => LikeRead(col, rest);
    case LikeAny(cols) =>
      var next := [")"] + rest;
      assert (ClauseWords(c) + rest)[1..] == OrWords(cols) + next;
      OrRead(cols, next);
      assert next[1..] == rest;
  }

  lemma {:induction false} AndRead(clauses: seq<Clause>, rest: seq<string>)
    requires clauses != [] && AllProper(clauses)
    ensures ReadAnd(AndWords(clauses) + rest) == MoreAnd(AndCond(clauses), rest)
    decreases |clauses|
  {
    hide ClauseWords, ClauseCond, ReadAtom;
    var n := |clauses| - 1;
    if n == 0 {
      ClauseRead(clauses[0], rest);
    } else {
      var next := ["AND"] + (ClauseWords(clauses[n]) + rest);
      assert AndWords(clauses) + rest == AndWords(clauses[..n]) + next;
      AndRead(clauses[..n], next);
      ClauseRead(clauses[n], rest);
      assert next[1..] == ClauseWords(clauses[n]) + rest;
    }
  }

  function Meant(clauses: seq<Clause>): Restriction
    requires AllProper(clauses)
  {
    if clauses == [] then Everything else Only(AndCond(clauses))
  }

  // The clauses are read as their conjunction, whatever statement goes on behind them.
  lemma WhereRead(clauses: seq<Clause>, tail: seq<string>)
    requires AllProper(clauses) && (tail == [] || tail[0] !in {"AND", "OR", "WHERE"})
    ensures ReadWhere(WhereWords(clauses) + tail, tail) == Some(Meant(clauses))
  {
    hide AndWords, AndCond, ReadAnd;
    if clauses == [] {
      assert WhereWords(clauses) + tail == tail;
    } else {
      var ws := WhereWords(clauses) + tail;
      assert ws[0] == "WHERE" && ws[1..] == AndWords(clauses) + tail;
      AndRead(clauses, tail);
      assert |ws| > |tail|;
      assert MoreAnd(AndCond(clauses), tail) == Got(AndCond(clauses), tail);
      assert MoreOr(AndCond(clauses), tail) == Got(AndCond(clauses), tail);
      assert ReadOr(ws[1..]) == Got(AndCond(clauses), tail);
    }
  }

  // ----- The conditions mean what the clauses mean -----

  lemma {:induction false} OrMeans(cols: seq<Column>, args: seq<string>, a: Address)
    requires cols != [] && |args| == |cols|
    ensures CondSlots(OrCond(cols)) == |cols|
    ensures CondHolds(OrCond(cols), args, a) <==> exists i :: 0 <= i < |cols| && Matches(args[i], Field(cols[i], a))
    decreases |cols|
  {
    hide Matches, Field;
    var n := |cols| - 1;
    if n > 0 {
      OrMeans(cols[..n], args[..n], a);
      assert args[n..][0] == args[n];
      SomeUpTo(cols, args, a);
    }
  }

  lemma SomeUpTo(cols: seq<Column>, args: seq<string>, a: Address)
    requires 1 <= |cols| == |args|
    ensures var n := |cols| - 1;
            (exists i :: 0 <= i < |cols| && Matches(args[i], Field(cols[i], a)))
            <==> ((exists i :: 0 <= i < n && Matches(args[..n][i], Field(cols[..n][i], a)))
                  || Matches(args[n], Field(cols[n], a)))
  {
    hide Matches, Field;
    var n := |cols| - 1;
    if i :| 0 <= i < |cols| && Matches(args[i], Field(cols[i], a)) {
      if i < n {
        assert args[..n][i] == args[i] && cols[..n][i] == cols[i];
      }
    }
    if i :| 0 <= i < n && Matches(args[..n][i], Field(cols[..n][i], a)) {
      assert args[..n][i] == args[i] && cols[..n][i] == cols[i];
    }
  }

  lemma ClauseMeans(c: Clause, args: seq<string>, a: Address)
    requires Proper(c) && |args| == Slots(c)
    ensures CondSlots(ClauseCond(c)) == Slots(c)
    ensures CondHolds(ClauseCond(c), args, a) <==> ClauseHolds(c, args, a)
  {
    hide Matches, Field;
    if c.LikeAny? {
      OrMeans(c.cols, args, a);
    }
  }

  lemma {:induction false} AndMeans(clauses: seq<Clause>, args: seq<string>, a: Address)
    requires clauses != [] && AllProper(clauses) && |args| == AllSlots(clauses)
    ensures CondSlots(AndCond(clauses)) == AllSlots(clauses)
    ensures CondHolds(AndCond(clauses), args, a) <==> Holds(clauses, args, a)
    decreases |clauses|
  {
    hide ClauseCond, ClauseHolds, Slots;
    var n := |clauses| - 1;
    var k := |args| - Slots(clauses[n]);
    if n == 0 {
      assert clauses[..0] == [];
      assert args[k..] == args;
      ClauseMeans(clauses[0], args, a);
    } else {
      AndMeans(clauses[..n], args[..k], a);
      ClauseMeans(clauses[n], args[k..], a);
    }
  }

  lemma MeantHolds(clauses: seq<Clause>, args: seq<string>, a: Address)
    requires AllProper(clauses) && |args| == AllSlots(clauses)
    ensures RestrictionSlots(Meant(clauses)) == AllSlots(clauses)
    ensures Satisfies(Meant(clauses), args, a) <==> Holds(clauses, args, a)
  {
    if clauses != [] {
      AndMeans(clauses, args, a);
    }
  }

  lemma PlanProper(q: AddressQuery)
    ensures AllProper(PlanOf(q).clauses)
  {
  }

  // The text that BuildWhere emits, read by the database with its arguments from left to right, accepts a row exactly
  // when the query does.
  lemma {:induction false} TextMeaning(q: AddressQuery, a: Address)
    ensures EvalWhere(WhereText(Texts(PlanOf(q).clauses)), PlanOf(q).args, a) == Some(Accepts(q, a))
  {
    hide Words, WhereText, Texts, WhereWords, ReadWhere, Meant, PlanOf, Accepts, Holds, AllSlots, AllProper;
    var p := PlanOf(q);
    PlanProper(q);
    WhereTextWords(p.clauses);
    WhereRead(p.clauses, []);
    assert WhereWords(p.clauses) + [] == WhereWords(p.clauses);
    CompiledMeaning(q, a);
    MeantHolds(p.clauses, p.args, a);
  }

  // ----- Whole statements -----

  datatype Arg = Text(s: string) | Number(n: int)

  function Texted(args: seq<string>): seq<Arg> {
    seq(|args|, i requires 0 <= i < |args| => Text(args[i]))
  }

  function Untexted(args: seq<Arg>): seq<string>
    requires forall i :: 0 <= i < |args| ==> args[i].Text?
  {
    seq(|args|, i requires 0 <= i < |args| => args[i].s)
  }

  // A statement with ? for its placeholders, and the arguments in their order.
  datatype Call = Call(text: string, args: seq<Arg>)

  // postgres looks its arguments up by number; the others take them as they come.
  function CallOf(driver: string, statement: string, args: seq<Arg>): Option<Call> {
    if driver != "postgres" then Some(Call(statement, args)) else
      var r := ReadNumbered(statement);
      if forall i :: 0 <= i < |r.refs| ==> 1 <= r.refs[i] <= |args| then
        Some(Call(r.text, Picked(args, r.refs)))
      else None
  }

  function Picked(args: seq<Arg>, refs: seq<int>): seq<Arg>
    requires forall i :: 0 <= i < |refs| ==> 1 <= refs[i] <= |args|
  {
    seq(|refs|, i requires 0 <= i < |refs| => args[refs[i] - 1])
  }

  function Rebound(text: string, driver: string): string {
    if driver == "postgres" then Numbered(text, 1) else text
  }

  // Rebinding gives every driver the same call.
  lemma ReboundCall(driver: string, text: string, args: seq<Arg>)
    requires ReadNumbered(Numbered(text, 1)) == Read(text, Consecutive(1, |args|))
    ensures CallOf(driver, Rebound(text, driver), args) == Some(Call(text, args))
  {
    hide ReadNumbered, Numbered;
    if driver == "postgres" {
      assert Picked(args, Consecutive(1, |args|)) == args;
    }
  }

  // A restriction with the arguments of its placeholders.
  datatype Filtering = Filtering(f: Restriction, args: seq<string>)

  function FilteringOf(f: Restriction, args: seq<Arg>): Option<Filtering> {
    if |args| == RestrictionSlots(f) && (forall i :: 0 <= i < |args| ==> args[i].Text?) then
      Some(Filtering(f, Untexted(args)))
    else None
  }

  predicate Passes(g: Filtering, a: Address) {
    |g.args| == RestrictionSlots(g.f) && Satisfies(g.f, g.args, a)
  }

  const COUNT_WORDS := ["SELECT", "COUNT", "(", "*", ")", "FROM", "addresses"]

  // SELECT COUNT(*) over the rows that pass.
  function ReadCount(call: Call): Option<Filtering> {
    var ws := Words(call.text, "");
    if COUNT_WORDS <= ws then
      match ReadWhere(ws[|COUNT_WORDS|..], [])
      case None => None
      case Some(f) => FilteringOf(f, call.args)
    else None
  }

  // A column that a statement may list.
  datatype Listed = Id | JisCode | Of(col: Column)

  function ListedNamed(w: string): Option<Listed> {
    if w == "id" then Some(Id)
    else if w == "jis_code" then Some(JisCode)
    else match ColumnNamed(w)
         case None => None
         case Some(c) => Some(Of(c))
  }

  datatype ListReading = BadList | GotList(cols: seq<Listed>, rest: seq<string>)

  // The columns between SELECT and FROM addresses: every name but the last ends in a comma.
  function ReadList(ws: seq<string>): ListReading
    decreases |ws|
  {
    if ws == [] || ws[0] == "" then BadList
    else
      var w, n := ws[0], |ws[0]| - 1;
      if w[n] == ',' then
        if ListedNamed(w[..n]).None? then BadList else
          match ReadList(ws[1..])
          case BadList => BadList
          case GotList(cols, rest) => GotList([ListedNamed(w[..n]).value] + cols, rest)
      else if ListedNamed(w).Some? && ["FROM", "addresses"] <= ws[1..] then
        GotList([ListedNamed(w).value], ws[3..])
      else BadList
  }

  const PAGE_WORDS := ["ORDER", "BY", "zipcode,", "id", "LIMIT", "?", "OFFSET", "?"]

  datatype PageCall = PageCall(cols: seq<Listed>, g: Filtering, limit: nat, offset: nat)

  // SELECT of columns from the rows that pass, ordered by zipcode and id, with limit and offset.
  function ReadPage(call: Call): Option<PageCall> {
    var k, ws := |call.args| - 2, Words(call.text, "");
    if ws != [] && ws[0] == "SELECT" && 0 <= k && call.args[k].Number? && call.args[k + 1].Number?
       && 0 <= call.args[k].n && 0 <= call.args[k + 1].n then
      match ReadList(ws[1..])
      case BadList => None
      case GotList(cols, rest) =>
        match ReadWhere(rest, PAGE_WORDS)
        case None => None
        case Some(f) =>
          match FilteringOf(f, call.args[..k])
          case None => None
          case Some(g) => Some(PageCall(cols, g, call.args[k].n, call.args[k + 1].n))
    else None
  }

  // ----- The words in front of the clause -----

  lemma HeadKeywords()
    ensures IsWord("SELECT") && IsWord("COUNT") && IsWord("*") && IsWord("FROM") && IsWord("addresses")
  {
  }

  lemma FromWords()
    ensures Words(" FROM addresses", "") == ["FROM", "addresses"] && Apart(" FROM addresses"[0])
  {
    hide Words, IsWord;
    HeadKeywords();
    SpacedWord("FROM");
    SpacedWord("addresses");
    CutBefore(" " + "FROM", "", " " + "addresses");
    assert " FROM addresses" == (" " + "FROM") + (" " + "addresses");
  }

  lemma CountParts()
    ensures COUNT_HEAD == "SELECT" + (" " + "COUNT") + ("(" + ("*" + (")" + " FROM addresses")))
    ensures Apart("("[0]) && Apart(")"[0]) && Apart(" "[0])
  {
  }

  lemma CountHeadWords()
    ensures Words(COUNT_HEAD, "") == COUNT_WORDS
  {
    hide Words, IsWord, Apart;
    CountParts();
    HeadKeywords();
    Punctuation();
    SpacedWord("SELECT");
    SpacedWord("COUNT");
    SpacedWord("*");
    FromWords();
    CutBefore("SELECT", "", " " + "COUNT");
    CutBefore("SELECT" + (" " + "COUNT"), "", "(" + ("*" + (")" + " FROM addresses")));
    CutAfter("(", "", "*" + (")" + " FROM addresses"));
    CutBefore("*", "", ")" + " FROM addresses");
    CutAfter(")", "", " FROM addresses");
  }

  // The names of a list, each with the comma behind it but the last.
  function CommaWords(names: seq<string>): seq<string> {
    if |names| <= 1 then names else [names[0] + ","] + CommaWords(names[1..])
  }

  function WithCommas(names: seq<string>): seq<string> {
    seq(|names|, i requires 0 <= i < |names| => names[i] + ",")
  }

  lemma CommasCons(name: string, names: seq<string>)
    ensures WithCommas([name] + names) == [name + ","] + WithCommas(names)
  {
  }

  lemma {:induction false} CommasBut(names: seq<string>)
    requires names != []
    ensures CommaWords(names) == WithCommas(names[..|names| - 1]) + [names[|names| - 1]]
  {
    var n := |names| - 1;
    if n > 0 {
      CommasBut(names[1..]);
      assert names[1..][..n - 1] == names[1..n] && names[1..][n - 1] == names[n];
      assert [names[0]] + names[1..n] == names[..n];
      CommasCons(names[0], names[1..n]);
    }
  }

  lemma CommaWord(w: string)
    requires IsWord(w)
    ensures IsWord(w + ",")
  {
  }

  lemma JoinSnoc(names: seq<string>)
    requires |names| > 1
    ensures var n := |names| - 1; Join(names, ", ") == (Join(names[..n], ", ") + ",") + (" " + names[n])
  {
    hide Join;
    var n := |names| - 1;
    JoinLast(names, ", ");
    CommaAndSpace();
    Regrouped(Join(names[..n], ", "), ",", " ", names[n]);
  }

  lemma CommaAndSpace()
    ensures ", " == "," + " "
  {
  }

  lemma Regrouped(a: string, b: string, c: string, d: string)
    ensures a + (b + c) + d == (a + b) + (c + d)
  {
  }

  lemma JoinLast(names: seq<string>, sep: string)
    requires |names| > 1
    ensures Join(names, sep) == Join(names[..|names| - 1], sep) + sep + names[|names| - 1]
  {
  }

  // The words of a list that goes on.
  lemma {:induction false} OpenList(names: seq<string>)
    requires names != [] && forall i :: 0 <= i < |names| ==> IsWord(names[i])
    ensures Words(Join(names, ", ") + ",", "") == WithCommas(names)
  {
    hide Words, IsWord;
    var n := |names| - 1;
    CommaWord(names[n]);
    SpacedWord(names[n] + ",");
    if n == 0 {
      assert Join(names, ", ") == names[0];
    } else {
      OpenList(names[..n]);
      JoinSnoc(names);
      hide Join;
      var head := Join(names[..n], ", ") + ",";
      assert Join(names, ", ") + "," == head + (" " + (names[n] + ","));
      CutBefore(head, "", " " + (names[n] + ","));
    }
  }

  lemma {:induction false} ListWords(names: seq<string>)
    requires names != [] && forall i :: 0 <= i < |names| ==> IsWord(names[i])
    ensures Words(Join(names, ", "), "") == CommaWords(names)
  {
    hide Words, IsWord;
    var n := |names| - 1;
    SpacedWord(names[n]);
    CommasBut(names);
    if n == 0 {
      assert Join(names, ", ") == names[0];
    } else {
      OpenList(names[..n]);
      JoinSnoc(names);
      hide Join;
      CutBefore(Join(names[..n], ", ") + ",", "", " " + names[n]);
    }
  }

  // The columns of the page, as the statement lists them.
  const LISTED := [Id, Of(ZIPCODE), JisCode, Of(PREFECTURE), Of(PREFECTURE_KANA), Of(CITY), Of(CITY_KANA), Of(TOWN),
                   Of(TOWN_KANA)]

  ghost predicate Names(w: string, c: Listed) {
    IsWord(w) && w[|w| - 1] != ',' && ListedNamed(w) == Some(c)
  }

  lemma ColumnListed(i: nat)
    requires i < 9
    ensures Names(COLUMNS[i], LISTED[i])
  {
    if i == 0 { assert Names("id", Id); }
    else if i == 1 { assert Names("zipcode", Of(ZIPCODE)); }
    else if i == 2 { assert Names("jis_code", JisCode); }
    else if i == 3 { assert Names("prefecture", Of(PREFECTURE)); }
    else if i == 4 { assert Names("prefecture_kana", Of(PREFECTURE_KANA)); }
    else if i == 5 { assert Names("city", Of(CITY)); }
    else if i == 6 { assert Names("city_kana", Of(CITY_KANA)); }
    else if i == 7 { assert Names("town", Of(TOWN)); }
    else { assert Names("town_kana", Of(TOWN_KANA)); }
  }

  lemma {:induction false} ListRead(names: seq<string>, cols: seq<Listed>, rest: seq<string>)
    requires |names| == |cols| > 0 && forall i :: 0 <= i < |names| ==> Names(names[i], cols[i])
    ensures ReadList(CommaWords(names) + (["FROM", "addresses"] + rest)) == GotList(cols, rest)
    decreases |names|
  {
    hide ListedNamed;
    var tail := ["FROM", "addresses"] + rest;
    var ws := CommaWords(names) + tail;
    if |names| == 1 {
      assert ws[0] == names[0] && ws[1..] == tail && ws[3..] == rest;
      assert cols == [cols[0]];
    } else {
      ListRead(names[1..], cols[1..], rest);
      assert ws[0] == names[0] + "," && ws[1..] == CommaWords(names[1..]) + tail;
      assert ws[0][..|names[0]|] == names[0];
      assert cols == [cols[0]] + cols[1..];
    }
  }

  lemma SelectHeadWords()
    ensures Words(SELECT_HEAD, "") == ["SELECT"] + (CommaWords(COLUMNS) + ["FROM", "addresses"])
  {
    hide Words, IsWord, Join, CommaWords;
    HeadKeywords();
    SpacedWord("SELECT");
    Punctuation();
    CutBefore("SELECT", "", " ");
    assert "SELECT " == "SELECT" + " ";
    forall i | 0 <= i < |COLUMNS| ensures IsWord(COLUMNS[i]) {
      ColumnListed(i);
    }
    ListWords(COLUMNS);
    FromWords();
    CutBefore(Join(COLUMNS, ", "), "", " FROM addresses");
    assert SELECT_HEAD == "SELECT " + (Join(COLUMNS, ", ") + " FROM addresses");
    CutAfter("SELECT ", "", Join(COLUMNS, ", ") + " FROM addresses");
  }

  lemma PageKeywords()
    ensures IsWord("ORDER") && IsWord("BY") && IsWord("zipcode,") && IsWord("id") && IsWord("LIMIT") && IsWord("?")
            && IsWord("OFFSET")
  {
  }

  function Spaced(ws: seq<string>): string {
    if ws == [] then "" else Spaced(ws[..|ws| - 1]) + (" " + ws[|ws| - 1])
  }

  lemma {:induction false} SpacedWords(ws: seq<string>)
    requires forall i :: 0 <= i < |ws| ==> IsWord(ws[i])
    ensures Words(Spaced(ws), "") == ws
  {
    hide Words, IsWord;
    if ws == [] {
      Punctuation();
    } else {
      var n := |ws| - 1;
      SpacedWords(ws[..n]);
      SpacedWord(ws[n]);
      CutBefore(Spaced(ws[..n]), "", " " + ws[n]);
      assert ws == ws[..n] + [ws[n]];
    }
  }

  lemma FourSpaced(a: string, b: string, c: string, d: string)
    ensures Spaced([a, b, c, d]) == (" " + a) + (" " + b) + (" " + c) + (" " + d)
  {
    assert [a, b, c, d][..3] == [a, b, c] && [a, b, c][..2] == [a, b] && [a, b][..1] == [a] && [a][..0] == [];
    assert Spaced([]) == "" && "" + (" " + a) == " " + a;
    assert Spaced([a]) == " " + a;
    assert Spaced([a, b]) == Spaced([a]) + (" " + b);
    assert Spaced([a, b, c]) == Spaced([a, b]) + (" " + c);
  }

  lemma TailHalves()
    ensures PAGE_TAIL == " ORDER BY zipcode, id" + " LIMIT ? OFFSET ?"
  {
  }

  lemma OrderText()
    ensures " ORDER BY zipcode, id" == (" " + "ORDER") + (" " + "BY") + (" " + "zipcode,") + (" " + "id")
  {
  }

  lemma LimitText()
    ensures " LIMIT ? OFFSET ?" == (" " + "LIMIT") + (" " + "?") + (" " + "OFFSET") + (" " + "?")
    ensures Apart(" LIMIT ? OFFSET ?"[0])
  {
  }

  lemma PageTailWords()
    ensures Words(PAGE_TAIL, "") == PAGE_WORDS
  {
    hide Words, IsWord, Spaced, Apart;
    PageKeywords();
    OrderText();
    FourSpaced("ORDER", "BY", "zipcode,", "id");
    SpacedWords(["ORDER", "BY", "zipcode,", "id"]);
    LimitText();
    FourSpaced("LIMIT", "?", "OFFSET", "?");
    SpacedWords(["LIMIT", "?", "OFFSET", "?"]);
    TailHalves();
    CutBefore(" ORDER BY zipcode, id", "", " LIMIT ? OFFSET ?");
    assert ["ORDER", "BY", "zipcode,", "id"] + ["LIMIT", "?", "OFFSET", "?"] == PAGE_WORDS;
  }

  function FilteringFor(q: AddressQuery): Filtering
    requires AllProper(PlanOf(q).clauses)
  {
    Filtering(Meant(PlanOf(q).clauses), PlanOf(q).args)
  }

  lemma PlanFilters(q: AddressQuery)
    ensures AllProper(PlanOf(q).clauses)
    ensures FilteringOf(Meant(PlanOf(q).clauses), Texted(PlanOf(q).args)) == Some(FilteringFor(q))
    ensures forall a :: Passes(FilteringFor(q), a) <==> Accepts(q, a)
  {
    hide PlanOf, Meant, Accepts, Holds, AllSlots, Satisfies, RestrictionSlots, AllProper;
    PlanProper(q);
    var p := PlanOf(q);
    assert Untexted(Texted(p.args)) == p.args;
    forall a
      ensures |p.args| == RestrictionSlots(Meant(p.clauses))
      ensures Satisfies(Meant(p.clauses), p.args, a) <==> Accepts(q, a)
    {
      CompiledMeaning(q, a);
      MeantHolds(p.clauses, p.args, a);
    }
    var some := Address("", "", "", "", "", "", "", "", 0, 0, 0, 0, "");
    CompiledMeaning(q, some);
    MeantHolds(p.clauses, p.args, some);
  }

  lemma CountReads(q: AddressQuery)
    requires AllProper(PlanOf(q).clauses)
    ensures ReadCount(Call(CountText(q), Texted(PlanOf(q).args))) == Some(FilteringFor(q))
  {
    hide Words, WhereText, Texts, WhereWords, ReadWhere, Meant, PlanOf, FilteringOf, Accepts, Passes, CountText, Texted;
    var where := WhereText(Texts(PlanOf(q).clauses));
    StatementTexts(q);
    PlanFilters(q);
    CountHeadWords();
    WhereApart(PlanOf(q).clauses);
    CutBefore(COUNT_HEAD, "", where);
    WhereTextWords(PlanOf(q).clauses);
    WhereRead(PlanOf(q).clauses, []);
    assert WhereWords(PlanOf(q).clauses) + [] == WhereWords(PlanOf(q).clauses);
  }

  lemma WhereApart(clauses: seq<Clause>)
    ensures WhereText(Texts(clauses)) == "" || Apart(WhereText(Texts(clauses))[0])
  {
  }

  lemma ColumnsRead(rest: seq<string>)
    ensures ReadList(CommaWords(COLUMNS) + (["FROM", "addresses"] + rest)) == GotList(LISTED, rest)
  {
    hide Names, CommaWords, ReadList;
    forall i | 0 <= i < |COLUMNS| ensures Names(COLUMNS[i], LISTED[i]) {
      ColumnListed(i);
    }
    ListRead(COLUMNS, LISTED, rest);
  }

  lemma SelectTextWords(q: AddressQuery)
    requires AllProper(PlanOf(q).clauses)
    ensures Words(SelectText(q), "")
            == ["SELECT"] + (CommaWords(COLUMNS)
                             + (["FROM", "addresses"] + (WhereWords(PlanOf(q).clauses) + PAGE_WORDS)))
  {
    hide Words, WhereText, Texts, WhereWords, PlanOf, SelectText, Apart, Join, CommaWords;
    var where := WhereText(Texts(PlanOf(q).clauses));
    StatementTexts(q);
    WhereTextWords(PlanOf(q).clauses);
    WhereApart(PlanOf(q).clauses);
    TailApart();
    SelectHeadWords();
    assert SELECT_HEAD + where + PAGE_TAIL == SELECT_HEAD + (where + PAGE_TAIL);
    CutBefore(SELECT_HEAD, "", where + PAGE_TAIL);
    CutBefore(where, "", PAGE_TAIL);
    PageTailWords();
  }

  lemma PageReads(q: AddressQuery, limit: nat, offset: nat)
    requires AllProper(PlanOf(q).clauses)
    ensures ReadPage(Call(SelectText(q), Texted(PlanOf(q).args) + [Number(limit), Number(offset)]))
            == Some(PageCall(LISTED, FilteringFor(q), limit, offset))
  {
    hide Words, WhereWords, ReadWhere, Meant, PlanOf, FilteringOf, Accepts, Passes, SelectText, Texted, CommaWords;
    hide ReadList;
    PlanFilters(q);
    SelectTextWords(q);
    TailApart();
    WhereRead(PlanOf(q).clauses, PAGE_WORDS);
    var rest := WhereWords(PlanOf(q).clauses) + PAGE_WORDS;
    ColumnsRead(rest);
    assert (["SELECT"] + (CommaWords(COLUMNS) + (["FROM", "addresses"] + rest)))[1..]
        == CommaWords(COLUMNS) + (["FROM", "addresses"] + rest);
    var args := Texted(PlanOf(q).args);
    assert (args + [Number(limit), Number(offset)])[..|args|] == args;
  }

  lemma TailApart()
    ensures PAGE_TAIL != "" && Apart(PAGE_TAIL[0])
    ensures PAGE_WORDS[0] !in {"AND", "OR", "WHERE"}
  {
  }

  // Whatever the driver, both statements of Search are read as they are meant: the same restriction, which passes the
  // rows that the query accepts, and for the page the limit and the offset.
  lemma {:induction false} StatementsMean(driver: string, q: AddressQuery, limit: nat, offset: nat)
    ensures AllProper(PlanOf(q).clauses)
    ensures var args := Texted(PlanOf(q).args);
            var count := CallOf(driver, Rebound(CountText(q), driver), args);
            var page := CallOf(driver, Rebound(SelectText(q), driver), args + [Number(limit), Number(offset)]);
            && count.Some? && ReadCount(count.value) == Some(FilteringFor(q))
            && page.Some? && ReadPage(page.value) == Some(PageCall(LISTED, FilteringFor(q), limit, offset))
    ensures forall a :: Passes(FilteringFor(q), a) <==> Accepts(q, a)
  {
    hide *;
    PlanFilters(q);
    CountReads(q);
    PageReads(q, limit, offset);
    StatementsBound(q);
    TextedSize(PlanOf(q).args);
    var args := Texted(PlanOf(q).args);
    ReboundCall(driver, CountText(q), args);
    ReboundCall(driver, SelectText(q), args + [Number(limit), Number(offset)]);
  }

  lemma TextedSize(args: seq<string>)
    ensures |Texted(args)| == |args|
  {
  }
}

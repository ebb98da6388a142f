// internal/sync/parser.go: from CSV records to addresses. Tokenising is left to the CSV reader, so a file
// is a sequence of records, and a record the reader rejects is Unreadable.

module Parsing {
  import opened Decimals
  import opened Addresses

  datatype Record = Columns(cols: seq<string>) | Unreadable

  datatype ParsedRow = ParsedRow(addr: Address, record: seq<string>, line: nat)

  // What the loop does with one record.
  datatype Verdict = Blank | Bad | Good(addr: Address, cols: seq<string>)

  const KEN_ALL_COLUMNS: nat := 15

  // ----- strings.TrimSpace on UTF-8 bytes -----

  // The width of the white space that begins at position i of a text; 0 if there is none.
  function SpaceAt(s: string, i: nat): (w: nat)
    ensures i + w <= |s| || w == 0
  {
    if |s| <= i then 0
    else if s[i] == ' ' || 9 <= s[i] as int <= 13 then 1
    else if |s| <= i + 1 then 0
    else if s[i] as int == 0xc2 && s[i + 1] as int in {0x85, 0xa0} then 2
    else if |s| <= i + 2 then 0
    else if s[i] as int == 0xe1 && s[i + 1] as int == 0x9a && s[i + 2] as int == 0x80 then 3
    else if s[i] as int == 0xe2 && s[i + 1] as int == 0x80
            && (0x80 <= s[i + 2] as int <= 0x8a || s[i + 2] as int in {0xa8, 0xa9, 0xaf}) then 3
    else if s[i] as int == 0xe2 && s[i + 1] as int == 0x81 && s[i + 2] as int == 0x9f then 3
    else if s[i] as int == 0xe3 && s[i + 1] as int == 0x80 && s[i + 2] as int == 0x80 then 3
    else 0
  }

  function FirstText(s: string, i: nat): (j: nat)
    requires i <= |s|
    ensures i <= j <= |s|
    decreases |s| - i
  {
    if SpaceAt(s, i) == 0 then i else FirstText(s, i + SpaceAt(s, i))
  }

  // The width of the white space between i and j that ends at j; 0 if there is none.
  function SpaceBefore(s: string, i: nat, j: nat): (w: nat)
    requires i <= j <= |s|
    ensures w <= j - i
  {
    if i + 1 <= j && SpaceAt(s, j - 1) == 1 then 1
    else if i + 2 <= j && SpaceAt(s, j - 2) == 2 then 2
    else if i + 3 <= j && SpaceAt(s, j - 3) == 3 then 3
    else 0
  }

  function LastText(s: string, i: nat, j: nat): (k: nat)
    requires i <= j <= |s|
    ensures i <= k <= j
    decreases j
  {
    if SpaceBefore(s, i, j) == 0 then j else LastText(s, i, j - SpaceBefore(s, i, j))
  }

  function TrimSpace(s: string): string {
    var i := FirstText(s, 0);
    s[i..LastText(s, i, |s|)]
  }

  // White space by code point, encoded in UTF-8.

  type CodePoint = cp: int | 0 <= cp < 0x10000

  predicate White(cp: CodePoint) {
    || 9 <= cp <= 13 || cp in {0x20, 0x85, 0xa0, 0x1680, 0x2028, 0x2029, 0x202f, 0x205f, 0x3000}
    || 0x2000 <= cp <= 0x200a
  }

  type WhiteSpace = cp: CodePoint | White(cp) witness 32

  function Utf8(cp: CodePoint): string {
    if cp < 0x80 then [cp as char]
    else if cp < 0x800 then [(0xc0 + cp / 64) as char, (0x80 + cp % 64) as char]
    else [(0xe0 + cp / 4096) as char, (0x80 + cp / 64 % 64) as char, (0x80 + cp % 64) as char]
  }

  function Encoded(cps: seq<WhiteSpace>): string {
    if cps == [] then "" else Encoded(cps[..|cps| - 1]) + Utf8(cps[|cps| - 1])
  }

  // Any run of white space.
  ghost predicate Spaces(s: string) {
    exists cps: seq<WhiteSpace> :: s == Encoded(cps)
  }

  // The text u stands at position i.
  ghost predicate At(s: string, i: int, u: string) {
    0 <= i && i + |u| <= |s| && s[i..i + |u|] == u
  }

  // No white space begins the text, and none ends it.
  ghost predicate NoOuterSpace(text: string) {
    forall cp: WhiteSpace :: !At(text, 0, Utf8(cp)) && !At(text, |text| - |Utf8(cp)|, Utf8(cp))
  }

  // The text with nothing but white space around it.
  ghost predicate Surrounds(column: string, p: string, text: string, q: string) {
    column == p + text + q && Spaces(p) && Spaces(q)
  }

  // The bytes of white space behind its first are in another range than any first byte.
  predicate FirstByte(c: char) {
    c as int < 0x80 || c as int >= 0xc0
  }

  lemma WhiteBytes(cp: WhiteSpace)
    ensures 1 <= |Utf8(cp)| <= 3 && FirstByte(Utf8(cp)[0])
    ensures forall i :: 1 <= i < |Utf8(cp)| ==> !FirstByte(Utf8(cp)[i])
    ensures SpaceAt(Utf8(cp), 0) == |Utf8(cp)|
  {
    assert White(cp);
  }

  lemma SameSpace(s: string, i: nat, u: string)
    requires At(s, i, u) && u != "" && SpaceAt(u, 0) == |u|
    ensures SpaceAt(s, i) == |u|
  {
    assert u[0] == s[i..i + |u|][0] == s[i];
    if |u| == 2 {
      assert u[1] == s[i..i + |u|][1] == s[i + 1];
    } else if |u| == 3 {
      assert u[1] == s[i..i + |u|][1] == s[i + 1];
      assert u[2] == s[i..i + |u|][2] == s[i + 2];
    }
  }

  // White space is seen wherever it stands.
  lemma SpaceSeen(s: string, i: nat, cp: WhiteSpace)
    requires At(s, i, Utf8(cp))
    ensures SpaceAt(s, i) == |Utf8(cp)|
  {
    WhiteBytes(cp);
    hide Utf8, SpaceAt;
    SameSpace(s, i, Utf8(cp));
  }

  // And nothing else is.
  lemma SpaceIsWhite(s: string, i: nat) returns (cp: WhiteSpace)
    requires SpaceAt(s, i) != 0
    ensures At(s, i, Utf8(cp)) && |Utf8(cp)| == SpaceAt(s, i)
  {
    var w := SpaceAt(s, i);
    if w == 1 {
      cp := s[i] as int;
      assert s[i..i + w] == [s[i]] == Utf8(cp);
    } else if w == 2 {
      cp := s[i + 1] as int;
      assert s[i..i + w] == [s[i], s[i + 1]] == Utf8(cp);
    } else {
      cp := ThreeBytes(s[i], s[i + 1], s[i + 2]);
      assert s[i..i + w] == [s[i], s[i + 1], s[i + 2]];
    }
  }

  lemma ThreeBytes(a: char, b: char, c: char) returns (cp: WhiteSpace)
    requires SpaceAt([a, b, c], 0) == 3
    ensures Utf8(cp) == [a, b, c]
  {
    cp := if a as int == 0xe1 then 0x1680 else if a as int == 0xe3 then 0x3000
          else if b as int == 0x81 then 0x205f else 0x2000 + c as int - 0x80;
  }

  lemma SpaceMeans(s: string, i: nat, w: nat)
    requires 0 < w
    ensures SpaceAt(s, i) == w <==> exists cp: WhiteSpace :: At(s, i, Utf8(cp)) && |Utf8(cp)| == w
  {
    hide Utf8, SpaceAt, At;
    if SpaceAt(s, i) == w {
      var cp := SpaceIsWhite(s, i);
    }
    forall cp: WhiteSpace | At(s, i, Utf8(cp)) ensures SpaceAt(s, i) == |Utf8(cp)| {
      SpaceSeen(s, i, cp);
    }
  }

  lemma NoneInside(s: string, k: nat)
    requires k < |s| && !FirstByte(s[k])
    ensures SpaceAt(s, k) == 0
  {
  }

  lemma SpaceEnds(s: string, i: nat, j: nat, cp: WhiteSpace)
    requires i + |Utf8(cp)| <= j <= |s| && At(s, j - |Utf8(cp)|, Utf8(cp))
    ensures SpaceBefore(s, i, j) == |Utf8(cp)|
  {
    var u := Utf8(cp);
    WhiteBytes(cp);
    SpaceSeen(s, j - |u|, cp);
    hide Utf8, SpaceAt, FirstByte;
    forall k: nat | j - |u| < k < j ensures SpaceAt(s, k) == 0 {
      assert s[k] == s[j - |u|..j][k - (j - |u|)];
      NoneInside(s, k);
    }
  }

  lemma {:induction false} EncodedApart(a: seq<WhiteSpace>, b: seq<WhiteSpace>)
    ensures Encoded(a + b) == Encoded(a) + Encoded(b)
  {
    hide Utf8;
    if b == [] {
      assert a + b == a;
    } else {
      var init, last := b[..|b| - 1], b[|b| - 1];
      EncodedApart(a, init);
      assert (a + b)[..|a + b| - 1] == a + init && (a + b)[|a + b| - 1] == last;
      assert Encoded(a + b) == Encoded(a + init) + Utf8(last);
      assert Encoded(b) == Encoded(init) + Utf8(last);
      hide Encoded;
      assert (Encoded(a) + Encoded(init)) + Utf8(last) == Encoded(a) + (Encoded(init) + Utf8(last));
    }
  }

  lemma OneEncoded(cp: WhiteSpace)
    ensures Encoded([cp]) == Utf8(cp)
  {
    hide Utf8;
    assert [cp][..0] == [];
    assert "" + Utf8(cp) == Utf8(cp);
  }

  lemma FirstEncoded(cps: seq<WhiteSpace>)
    requires cps != []
    ensures Encoded(cps) == Utf8(cps[0]) + Encoded(cps[1..])
  {
    hide Utf8, Encoded;
    OneEncoded(cps[0]);
    EncodedApart([cps[0]], cps[1..]);
    assert [cps[0]] + cps[1..] == cps;
  }

  lemma AtSplit(s: string, i: int, u: string, v: string)
    requires At(s, i, u + v)
    ensures At(s, i, u) && At(s, i + |u|, v)
  {
    var uv := u + v;
    assert s[i..i + |u|] == s[i..i + |uv|][..|u|];
    assert s[i + |u|..i + |u| + |v|] == s[i..i + |uv|][|u|..];
  }

  lemma AtFits(s: string, i: int, u: string)
    requires At(s, i, u)
    ensures 0 <= i && i + |u| <= |s|
  {
  }

  lemma {:induction false} LeftTrimmed(s: string, i: nat, cps: seq<WhiteSpace>)
    requires At(s, i, Encoded(cps)) && SpaceAt(s, i + |Encoded(cps)|) == 0
    ensures i <= |s| && FirstText(s, i) == i + |Encoded(cps)|
    decreases |cps|
  {
    hide Utf8, SpaceAt, At;
    AtFits(s, i, Encoded(cps));
    if cps != [] {
      FirstEncoded(cps);
      hide Encoded;
      AtSplit(s, i, Utf8(cps[0]), Encoded(cps[1..]));
      SpaceSeen(s, i, cps[0]);
      WhiteBytes(cps[0]);
      LeftTrimmed(s, i + |Utf8(cps[0])|, cps[1..]);
    }
  }

  lemma {:induction false} RightTrimmed(s: string, i: nat, j: nat, cps: seq<WhiteSpace>)
    requires i <= j <= |s| && At(s, j, Encoded(cps)) && SpaceBefore(s, i, j) == 0
    ensures j + |Encoded(cps)| <= |s| && LastText(s, i, j + |Encoded(cps)|) == j
    decreases |cps|
  {
    hide Utf8, SpaceBefore, At;
    AtFits(s, j, Encoded(cps));
    if cps != [] {
      var init, cp := cps[..|cps| - 1], cps[|cps| - 1];
      assert Encoded(cps) == Encoded(init) + Utf8(cp);
      hide Encoded;
      AtSplit(s, j, Encoded(init), Utf8(cp));
      SpaceEnds(s, i, j + |Encoded(cps)|, cp);
      WhiteBytes(cp);
      RightTrimmed(s, i, j, init);
    }
  }

  lemma RunStarts(cps: seq<WhiteSpace>)
    requires Encoded(cps) != ""
    ensures FirstByte(Encoded(cps)[0])
  {
    hide Utf8, FirstByte;
    FirstEncoded(cps);
    WhiteBytes(cps[0]);
  }

  lemma InPart(s: string, i: int, text: string, j: nat, u: string)
    requires At(s, i, text) && At(s, i + j, u) && 0 <= j && j + |u| <= |text|
    ensures At(text, j, u)
  {
    forall k | 0 <= k < |u| ensures text[j + k] == u[k] {
      assert text[j + k] == s[i..i + |text|][j + k] == s[i + j + k];
      assert u[k] == s[i + j..i + j + |u|][k] == s[i + j + k];
    }
    assert text[j..j + |u|] == u;
  }

  // White space behind a text never completes white space that the text only begins.
  lemma NeverCompleted(s: string, i: int, text: string, cps: seq<WhiteSpace>, cp: WhiteSpace)
    requires text != "" && At(s, i, text) && At(s, i + |text|, Encoded(cps)) && |s| == i + |text| + |Encoded(cps)|
    requires At(s, i, Utf8(cp))
    ensures At(text, 0, Utf8(cp))
  {
    var u, n := Utf8(cp), |text|;
    hide Utf8, Encoded;
    WhiteBytes(cp);
    if |u| > n {
      assert u[n] == s[i..i + |u|][n] == s[i + n];
      assert Encoded(cps)[0] == s[i + n..i + n + |Encoded(cps)|][0] == s[i + n];
      RunStarts(cps);
      assert false;
    }
    InPart(s, i, text, 0, u);
  }

  lemma StartStays(s: string, i: nat, text: string, cps: seq<WhiteSpace>)
    requires text != "" && At(s, i, text) && At(s, i + |text|, Encoded(cps)) && |s| == i + |text| + |Encoded(cps)|
    requires NoOuterSpace(text)
    ensures SpaceAt(s, i) == 0
  {
    hide Utf8, Encoded, SpaceAt, At;
    if SpaceAt(s, i) != 0 {
      var cp := SpaceIsWhite(s, i);
      NeverCompleted(s, i, text, cps, cp);
    }
  }

  lemma EndStays(s: string, i: nat, text: string)
    requires NoOuterSpace(text) && At(s, i, text) && i + |text| <= |s|
    ensures SpaceBefore(s, i, i + |text|) == 0
  {
    hide Utf8, SpaceAt, At;
    var j := i + |text|;
    var w := SpaceBefore(s, i, j);
    if w != 0 {
      var cp := SpaceIsWhite(s, j - w);
      InPart(s, i, text, |text| - w, Utf8(cp));
    }
  }

  lemma {:induction false} TrimmedRuns(s: string, a: seq<WhiteSpace>, text: string, b: seq<WhiteSpace>)
    requires s == Encoded(a) + text + Encoded(b) && NoOuterSpace(text)
    ensures TrimSpace(s) == text
  {
    hide SpaceAt, SpaceBefore, NoOuterSpace, Encoded, FirstText, LastText, Utf8, At;
    var p, q := Encoded(a), Encoded(b);
    Positions(s, p, text, q);
    if text == "" {
      EncodedApart(a, b);
      assert p + text + q == p + q;
      NoneAtEnd(s);
      LeftTrimmed(s, 0, a + b);
      NothingLast(s, |s|);
    } else {
      StartStays(s, |p|, text, b);
      LeftTrimmed(s, 0, a);
      EndStays(s, |p|, text);
      RightTrimmed(s, |p|, |p| + |text|, b);
      assert s[|p|..|p| + |text|] == text;
    }
  }

  // TrimSpace takes away the white space around a text and nothing else.
  lemma {:induction false} Trimmed(column: string, p: string, text: string, q: string)
    requires Surrounds(column, p, text, q) && NoOuterSpace(text)
    ensures TrimSpace(column) == text
  {
    var a: seq<WhiteSpace> :| p == Encoded(a);
    var b: seq<WhiteSpace> :| q == Encoded(b);
    hide *;
    TrimmedRuns(column, a, text, b);
  }

  lemma Positions(s: string, p: string, text: string, q: string)
    requires s == p + text + q
    ensures At(s, 0, p) && At(s, |p|, text) && At(s, |p| + |text|, q)
  {
  }

  lemma NoneAtEnd(s: string)
    ensures SpaceAt(s, |s|) == 0 && At(s, 0, s)
  {
    assert s[0..|s|] == s;
  }

  lemma NothingLast(s: string, i: nat)
    requires i <= |s|
    ensures LastText(s, i, i) == i
  {
  }

  // ----- strconv.Atoi, with 0 for anything it rejects -----

  function AtoiFlag(column: string): int {
    var s := TrimSpace(column);
    var digits := if s != [] && s[0] in {'+', '-'} then s[1..] else s;
    if digits == [] || !AllDigits(digits) then 0 else
      var n: int := if s[0] == '-' then 0 - ValueOf(digits) else ValueOf(digits);
      if -0x8000_0000_0000_0000 <= n < 0x8000_0000_0000_0000 then n else 0
  }

  // No white space, and no byte of any.
  predicate Printable(s: string) {
    forall i :: 0 <= i < |s| ==> 0x21 <= s[i] as int < 0x7f
  }

  lemma WhiteInside(s: string, i: int, cp: WhiteSpace)
    requires At(s, i, Utf8(cp))
    ensures !Printable(s)
  {
    WhiteNotPrintable(cp);
    hide Utf8;
    assert s[i] == s[i..i + |Utf8(cp)|][0];
  }

  lemma PrintableApart(s: string)
    requires Printable(s)
    ensures NoOuterSpace(s)
  {
    hide Utf8, At, Printable;
    forall cp: WhiteSpace, i: int ensures !At(s, i, Utf8(cp)) {
      if At(s, i, Utf8(cp)) {
        WhiteInside(s, i, cp);
      }
    }
  }

  lemma WhiteNotPrintable(cp: WhiteSpace)
    ensures Utf8(cp) != "" && !(0x21 <= Utf8(cp)[0] as int < 0x7f)
  {
    assert White(cp);
  }

  lemma Untouched(s: string)
    requires Printable(s)
    ensures TrimSpace(s) == s
  {
    PrintableApart(s);
    hide NoOuterSpace, TrimSpace;
    assert Encoded([]) == "";
    assert s == "" + s + "" && Spaces("");
    Trimmed(s, "", s, "");
  }

  lemma DigitsUntouched(s: string)
    requires AllDigits(s)
    ensures TrimSpace(s) == s
  {
    hide TrimSpace;
    Untouched(s);
  }

  // A sign is understood, and what does not fit 64 bits is 0.
  lemma FlagSigned(digits: string)
    requires digits != "" && AllDigits(digits)
    ensures AtoiFlag("+" + digits) == if ValueOf(digits) < 0x8000_0000_0000_0000 then ValueOf(digits) else 0
    ensures AtoiFlag("-" + digits) == if ValueOf(digits) <= 0x8000_0000_0000_0000 then 0 - ValueOf(digits) else 0
  {
    hide TrimSpace, ValueOf;
    Untouched("+" + digits);
    Untouched("-" + digits);
    assert ("+" + digits)[1..] == digits && ("-" + digits)[1..] == digits;
  }

  // Anything else than digits with or without a sign is 0.
  lemma FlagOtherwise(column: string, text: string)
    requires Holds(column, text)
    requires text == "" || (!AllDigits(text) && (text[0] in {'+', '-'} ==> text[1..] == "" || !AllDigits(text[1..])))
    ensures AtoiFlag(column) == 0
  {
    hide Holds, TrimSpace, AllDigits;
    HeldText(column, text);
  }

  // A flag column may hold any number, not only 0 and 1.
  lemma FlagIsAnyNumber(column: string)
    requires column != "" && AllDigits(column) && ValueOf(column) < 0x8000_0000_0000_0000
    ensures AtoiFlag(column) == ValueOf(column)
  {
    hide TrimSpace, ValueOf;
    DigitsUntouched(column);
  }

  // A flag column of digits reads as 0 or 1, as the comment promises, exactly if it holds 0, 1 or a number too large.
  lemma FlagIsABit(column: string)
    requires column != "" && AllDigits(column)
    ensures AtoiFlag(column) in {0, 1} <==> ValueOf(column) <= 1 || ValueOf(column) >= 0x8000_0000_0000_0000
  {
    hide TrimSpace, ValueOf;
    DigitsUntouched(column);
  }

  lemma FlagBeyondABit()
    ensures AtoiFlag("2") == 2
  {
    FlagIsAnyNumber("2");
    hide AtoiFlag, TrimSpace;
    assert ValueOf("") == 0;
    assert "2"[..0] == "";
  }

  // ----- Records -----

  // The columns of rowToAddress; 1, 13 and 14 are not read.
  function Normalised(cols: seq<string>): Address
    requires KEN_ALL_COLUMNS <= |cols|
  {
    Address(
      TrimSpace(cols[2]), TrimSpace(cols[0]),
      TrimSpace(cols[6]), TrimSpace(cols[3]),
      TrimSpace(cols[7]), TrimSpace(cols[4]),
      TrimSpace(cols[8]), TrimSpace(cols[5]),
      AtoiFlag(cols[9]), AtoiFlag(cols[10]), AtoiFlag(cols[11]), AtoiFlag(cols[12]),
      "")
  }

  function Judge(rec: Record): Verdict {
    match rec
    case Unreadable => Bad
    case Columns(cols) =>
      if |cols| == 0 || (|cols| == 1 && TrimSpace(cols[0]) == "") then Blank
      else if |cols| < KEN_ALL_COLUMNS || |TrimSpace(cols[2])| != 7 then Bad
      else
        var a := Normalised(cols);
        Good(a.(sourceHash := Serialised(a)), cols)
  }

  // The column holds the text, with white space around it or not.
  ghost predicate Holds(column: string, text: string) {
    NoOuterSpace(text) && exists p, q :: Surrounds(column, p, text, q)
  }

  // The record is a line of the file format for the address: jis code, (old zipcode), zipcode, the readings of
  // prefecture, city and town, their names, four flags in decimal, and two columns that do not matter.
  ghost predicate Writes(cols: seq<string>, a: Address) {
    && 15 <= |cols|
    && Holds(cols[0], a.jisCode) && Holds(cols[2], a.zipcode)
    && Holds(cols[3], a.prefectureKana) && Holds(cols[4], a.cityKana) && Holds(cols[5], a.townKana)
    && Holds(cols[6], a.prefecture) && Holds(cols[7], a.city) && Holds(cols[8], a.town)
    && WritesFlag(cols[9], a.flagMultiZip) && WritesFlag(cols[10], a.flagKoaza)
    && WritesFlag(cols[11], a.flagChome) && WritesFlag(cols[12], a.flagMultiTown)
  }

  ghost predicate WritesFlag(column: string, flag: int) {
    0 <= flag < 0x8000_0000_0000_0000 && Holds(column, Decimal(flag))
  }

  lemma HeldText(column: string, text: string)
    requires Holds(column, text)
    ensures TrimSpace(column) == text
  {
    hide NoOuterSpace, Surrounds;
    var p, q :| Surrounds(column, p, text, q);
    Trimmed(column, p, text, q);
  }

  lemma HeldFlag(column: string, flag: int)
    requires WritesFlag(column, flag)
    ensures AtoiFlag(column) == flag
  {
    hide Holds, TrimSpace, Decimal, ValueOf;
    HeldText(column, Decimal(flag));
    DecimalReads(flag);
  }

  // An address written into the columns of the file format comes back, with its hash.
  lemma {:induction false} RoundTrip(cols: seq<string>, a: Address)
    requires Writes(cols, a) && |a.zipcode| == 7
    ensures Judge(Columns(cols)) == Good(a.(sourceHash := Serialised(a)), cols)
  {
    hide Holds, WritesFlag, TrimSpace, AtoiFlag, Separated;
    HeldText(cols[0], a.jisCode);
    HeldText(cols[2], a.zipcode);
    HeldText(cols[3], a.prefectureKana);
    HeldText(cols[4], a.cityKana);
    HeldText(cols[5], a.townKana);
    HeldText(cols[6], a.prefecture);
    HeldText(cols[7], a.city);
    HeldText(cols[8], a.town);
    HeldFlag(cols[9], a.flagMultiZip);
    HeldFlag(cols[10], a.flagKoaza);
    HeldFlag(cols[11], a.flagChome);
    HeldFlag(cols[12], a.flagMultiTown);
    assert Normalised(cols) == a.(sourceHash := "");
    SerialisedIgnoresHash(a, "");
  }

  lemma Rejected(cols: seq<string>, zipcode: string)
    requires 2 <= |cols|
    ensures |cols| < 15 ==> Judge(Columns(cols)) == Bad
    ensures |cols| >= 15 && Holds(cols[2], zipcode) && |zipcode| != 7 ==> Judge(Columns(cols)) == Bad
  {
    hide Holds, TrimSpace;
    if |cols| >= 15 && Holds(cols[2], zipcode) {
      HeldText(cols[2], zipcode);
    }
  }

  lemma Ignored(column: string)
    requires Spaces(column)
    ensures Judge(Columns([])) == Judge(Columns([column])) == Blank
  {
    hide TrimSpace, White, Utf8;
    assert Encoded([]) == "" && Spaces("");
    PrintableApart("");
    assert Surrounds(column, column, "", "") by {
      assert column + "" + "" == column;
    }
    Trimmed(column, column, "", "");
  }

  // A record is read as the line it is: an address with its hash, a blank line, or an error.
  ghost predicate ReadAs(rec: Record, v: Verdict) {
    && (forall a :: rec.Columns? && Writes(rec.cols, a) && |a.zipcode| == 7 ==>
          v == Good(a.(sourceHash := Serialised(a)), rec.cols))
    && (rec.Unreadable? || 2 <= |rec.cols| < 15 ==> v == Bad)
    && (forall zipcode :: rec.Columns? && 15 <= |rec.cols| && Holds(rec.cols[2], zipcode) && |zipcode| != 7 ==>
          v == Bad)
    && (rec == Columns([]) || (rec.Columns? && |rec.cols| == 1 && Spaces(rec.cols[0])) ==> v == Blank)
  }

  method JudgeRecord(rec: Record) returns (v: Verdict)
    ensures v == Judge(rec)
    ensures ReadAs(rec, v)
  {
    hide Writes, Holds, TrimSpace, Normalised;
    if rec.Unreadable? {
      return Bad;
    }
    var cols := rec.cols;
    forall a | Writes(cols, a) && |a.zipcode| == 7 ensures Judge(rec) == Good(a.(sourceHash := Serialised(a)), cols) {
      RoundTrip(cols, a);
    }
    forall zipcode | 15 <= |cols| && Holds(cols[2], zipcode) && |zipcode| != 7 ensures Judge(rec) == Bad {
      Rejected(cols, zipcode);
    }
    if |cols| == 1 && Spaces(cols[0]) {
      Ignored(cols[0]);
      assert cols == [cols[0]];
    }
    if |cols| == 0 || (|cols| == 1 && TrimSpace(cols[0]) == "") {
      return Blank;
    }
    if |cols| < KEN_ALL_COLUMNS || |TrimSpace(cols[2])| != 7 {
      return Bad;
    }
    var a := ComputeHash(Normalised(cols));
    return Good(a, cols);
  }

  // The rows of a file, with their record numbers.
  function RowsOf(file: seq<Record>): seq<ParsedRow> {
    if file == [] then [] else
      var n := |file| - 1;
      RowsOf(file[..n]) + RowOf(file[n], n + 1)
  }

  function RowOf(rec: Record, line: nat): seq<ParsedRow> {
    match Judge(rec)
    case Good(a, cols) => [ParsedRow(a, cols, line)]
    case _ => []
  }

  // The number of records before the first one that stops the loop.
  function FirstBad(file: seq<Record>): (i: nat)
    ensures i <= |file|
  {
    if file == [] || Judge(file[0]).Bad? then 0 else 1 + FirstBad(file[1..])
  }

  // The rows handed out before the first record that stops the loop.
  function Parsed(file: seq<Record>): seq<ParsedRow> {
    RowsOf(file[..FirstBad(file)])
  }

  predicate Readable(file: seq<Record>) {
    FirstBad(file) == |file|
  }

  lemma {:induction false} FirstBadIs(file: seq<Record>, i: nat)
    requires i <= |file| && (i < |file| ==> Judge(file[i]).Bad?)
    requires forall j :: 0 <= j < i ==> !Judge(file[j]).Bad?
    ensures FirstBad(file) == i
  {
    hide Judge;
    if 0 < i {
      assert forall j :: 0 <= j < i - 1 ==> file[1..][j] == file[j + 1];
      FirstBadIs(file[1..], i - 1);
    }
  }

  lemma {:induction false} FirstBadBounds(file: seq<Record>)
    ensures FirstBad(file) < |file| ==> Judge(file[FirstBad(file)]).Bad?
    ensures forall j :: 0 <= j < FirstBad(file) ==> !Judge(file[j]).Bad?
  {
    hide Judge;
    if file != [] && !Judge(file[0]).Bad? {
      FirstBadBounds(file[1..]);
      forall j | 0 <= j < FirstBad(file) ensures !Judge(file[j]).Bad? {
        assert j > 0 ==> file[j] == file[1..][j - 1];
      }
    }
  }

  lemma RowsOfStep(file: seq<Record>, i: nat)
    requires i < |file|
    ensures RowsOf(file[..i + 1]) == RowsOf(file[..i]) + RowOf(file[i], i + 1)
  {
    hide Judge;
    assert file[..i + 1][..i] == file[..i];
  }

  lemma {:induction false} RowsOfPrefix(file: seq<Record>, i: nat, j: nat)
    requires i <= j <= |file|
    ensures RowsOf(file[..i]) <= RowsOf(file[..j])
    decreases j
  {
    hide RowsOf, Judge;
    if i < j {
      RowsOfPrefix(file, i, j - 1);
      RowsOfStep(file, j - 1);
    }
  }

  ghost predicate RowOfFile(file: seq<Record>, r: ParsedRow) {
    && Hashed(r.addr) && |r.addr.zipcode| == 7
    && 1 <= r.line <= |file| && Judge(file[r.line - 1]) == Good(r.addr, r.record)
        && file[r.line - 1] == Columns(r.record)
  }

  ghost predicate LinesAscend(rows: seq<ParsedRow>) {
    forall i, j :: 0 <= i < j < |rows| ==> rows[i].line < rows[j].line
  }

  lemma LinesSnoc(rows: seq<ParsedRow>, r: ParsedRow)
    requires LinesAscend(rows) && forall q :: q in rows ==> q.line < r.line
    ensures LinesAscend(rows + [r])
  {
  }

  lemma RowsSnoc(file: seq<Record>, rec: Record)
    ensures RowsOf(file + [rec]) == RowsOf(file) + RowOf(rec, |file| + 1)
  {
    hide Judge;
    assert (file + [rec])[..|file|] == file;
  }

  // Every row handed out comes from its own record and carries its hash; line numbers strictly increase.
  lemma {:induction false} RowsWellFormed(file: seq<Record>)
    ensures forall r :: r in RowsOf(file) ==> RowOfFile(file, r)
    ensures LinesAscend(RowsOf(file))
  {
    hide Judge, Hashed, LinesAscend, RowsOf;
    if file == [] {
      assert file[..0] == [];
      NoRows();
    } else {
      var n := |file| - 1;
      var before := RowsOf(file[..n]);
      RowsWellFormed(file[..n]);
      assert file == file[..n] + [file[n]];
      RowsSnoc(file[..n], file[n]);
      forall r | r in before ensures RowOfFile(file, r) {
        assert file[..n][r.line - 1] == file[r.line - 1];
      }
      if Judge(file[n]).Good? {
        JudgedGood(file[n]);
        LinesSnoc(before, ParsedRow(Judge(file[n]).addr, Judge(file[n]).cols, n + 1));
      } else {
        assert before + [] == before;
      }
    }
  }

  lemma NoRows()
    ensures RowsOf([]) == [] && LinesAscend(RowsOf([]))
  {
  }

  // No good record is lost.
  lemma {:induction false} EveryRecordHandedOut(file: seq<Record>, i: nat)
    requires i < |file| && Judge(file[i]).Good?
    ensures ParsedRow(Judge(file[i]).addr, Judge(file[i]).cols, i + 1) in RowsOf(file)
  {
    hide Judge, RowsOf;
    var n := |file| - 1;
    assert file == file[..n] + [file[n]];
    RowsSnoc(file[..n], file[n]);
    if i < n {
      EveryRecordHandedOut(file[..n], i);
    }
  }

  lemma JudgedGood(rec: Record)
    requires Judge(rec).Good?
    ensures Hashed(Judge(rec).addr) && |Judge(rec).addr.zipcode| == 7 && rec == Columns(Judge(rec).cols)
  {
    hide TrimSpace, AtoiFlag, Separated;
    var a := Normalised(rec.cols);
    SerialisedIgnoresHash(a, Serialised(a));
  }

  lemma SerialisedIgnoresHash(a: Address, h: string)
    ensures Serialised(a.(sourceHash := h)) == Serialised(a)
  {
    assert Fields(a.(sourceHash := h)) == Fields(a);
  }

  // The old zipcode and the two columns of diff metadata leave no trace, so a full and a diff file
  // give the same address and the same hash.
  lemma DiffMetadataIgnored(cols: seq<string>, other: seq<string>)
    requires KEN_ALL_COLUMNS <= |cols| && |cols| == |other|
    requires forall i :: 0 <= i <= 12 && i != 1 ==> cols[i] == other[i]
    ensures Judge(Columns(cols)).Good? <==> Judge(Columns(other)).Good?
    ensures Judge(Columns(cols)).Good? ==> Judge(Columns(cols)).addr == Judge(Columns(other)).addr
  {
    hide TrimSpace, AtoiFlag, Serialised;
  }
}

// internal/store/address_read_repo.go:138-142: escapeLike, against the LIKE predicate of section 8.5 of
// ISO/IEC 9075 with ESCAPE '\'. Matching is on bytes; on UTF-8 text '%' matches the same strings.

module Like {

  const ESCAPE: char := '\\'

  predicate Special(c: char) {
    c == ESCAPE || c == '%' || c == '_'
  }

  // t LIKE pattern ESCAPE '\'. An escape character that escapes nothing is an error; it matches nothing here.
  predicate Matches(pattern: string, t: string)
    decreases |pattern|, |t|
  {
    if pattern == "" then t == ""
    else if pattern[0] == ESCAPE then
      |pattern| >= 2 && Special(pattern[1]) && t != "" && t[0] == pattern[1] && Matches(pattern[2..], t[1..])
    else if pattern[0] == '%' then
      Matches(pattern[1..], t) || (t != "" && Matches(pattern, t[1..]))
    else
      t != "" && (pattern[0] == '_' || pattern[0] == t[0]) && Matches(pattern[1..], t[1..])
  }

  // strings.NewReplacer with three one-byte rules.
  function EscapeLike(s: string): string {
    if s == "" then "" else EscapedChar(s[0]) + EscapeLike(s[1..])
  }

  predicate Prefix(s: string, t: string) {
    s <= t
  }

  ghost predicate Substring(s: string, t: string) {
    exists k :: 0 <= k <= |t| && s <= t[k..]
  }

  function EscapedChar(c: char): string {
    if Special(c) then [ESCAPE, c] else [c]
  }

  lemma EscapedHead(s: string, rest: string)
    requires s != ""
    ensures EscapeLike(s) + rest == EscapedChar(s[0]) + (EscapeLike(s[1..]) + rest)
  {
  }

  // One escaped character matches exactly that character.
  lemma EscapedCharMatches(c: char, rest: string, t: string)
    ensures Matches(EscapedChar(c) + rest, t) <==> t != "" && t[0] == c && Matches(rest, t[1..])
  {
    var p := EscapedChar(c) + rest;
    if Special(c) {
      assert p[0] == ESCAPE && p[1] == c && p[2..] == rest;
    } else {
      assert p[0] == c && p[1..] == rest;
    }
  }

  // An escaped string matches itself and nothing else; the rest of the pattern matches the rest.
  lemma {:induction false} EscapedLiteral(s: string, rest: string, t: string)
    ensures Matches(EscapeLike(s) + rest, t) <==> s <= t && Matches(rest, t[|s|..])
    decreases |s|
  {
    hide Matches;
    if s == "" {
      assert EscapeLike(s) + rest == rest && t[0..] == t;
    } else {
      EscapedHead(s, rest);
      EscapedCharMatches(s[0], EscapeLike(s[1..]) + rest, t);
      if t != "" {
        EscapedLiteral(s[1..], rest, t[1..]);
        assert s <= t <==> s[0] == t[0] && s[1..] <= t[1..];
        if s <= t {
          assert t[1..][|s| - 1..] == t[|s|..];
        }
      }
    }
  }

  lemma {:induction false} AnySuffix(rest: string, t: string)
    ensures Matches("%" + rest, t) <==> exists k :: 0 <= k <= |t| && Matches(rest, t[k..])
    decreases |t|
  {
    var p := "%" + rest;
    assert p[1..] == rest;
    assert t[0..] == t;
    if t != "" {
      AnySuffix(rest, t[1..]);
      if exists k :: 0 <= k <= |t| && Matches(rest, t[k..]) {
        var k :| 0 <= k <= |t| && Matches(rest, t[k..]);
        if k > 0 {
          assert t[1..][k - 1..] == t[k..];
        }
      }
      if Matches(p, t[1..]) {
        var k :| 0 <= k <= |t[1..]| && Matches(rest, t[1..][k..]);
        assert t[1..][k..] == t[k + 1..];
      }
    }
  }

  lemma PercentMatchesAll(t: string)
    ensures Matches("%", t)
  {
    assert "%" + "" == "%";
    AnySuffix("", t);
    assert t[|t|..] == "";
  }

  // t LIKE escapeLike(s)+'%' exactly when s is a prefix of t.
  lemma PrefixPattern(s: string, t: string)
    ensures Matches(EscapeLike(s) + "%", t) <==> Prefix(s, t)
  {
    EscapedLiteral(s, "%", t);
    if s <= t {
      PercentMatchesAll(t[|s|..]);
    }
  }

  // t LIKE '%'+escapeLike(s)+'%' exactly when s occurs in t.
  lemma ContainsPattern(s: string, t: string)
    ensures Matches("%" + EscapeLike(s) + "%", t) <==> Substring(s, t)
  {
    assert "%" + EscapeLike(s) + "%" == "%" + (EscapeLike(s) + "%");
    AnySuffix(EscapeLike(s) + "%", t);
    forall k | 0 <= k <= |t| ensures Matches(EscapeLike(s) + "%", t[k..]) <==> s <= t[k..] {
      PrefixPattern(s, t[k..]);
    }
  }

  // Without escaping the pattern means something else as soon as the text has a metacharacter.
  lemma UnescapedDiffers()
    ensures Matches("%" + "_" + "%", "x") && !Substring("_", "x")
    ensures !Matches("%" + EscapeLike("_") + "%", "x")
  {
    assert "%" + "_" + "%" == "%" + ("_" + "%");
    AnySuffix("_" + "%", "x");
    PercentMatchesAll("");
    assert ("_" + "%")[1..] == "%" && "x"[1..] == "" && "x"[0..] == "x";
    assert Matches("_" + "%", "x"[0..]);
    ContainsPattern("_", "x");
    assert forall k :: 0 <= k <= 1 ==> !("_" <= "x"[k..]);
  }
}

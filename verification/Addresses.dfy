// internal/domain/address.go: the address record, its logical key and the string its hash digests.
// A Go string is a sequence of bytes; a Dafny string here holds one char per byte.

module Addresses {

  datatype AddressKey = AddressKey(zipcode: string, jisCode: string, town: string, townKana: string)

  datatype Address = Address(
    zipcode: string, jisCode: string,
    prefecture: string, prefectureKana: string,
    city: string, cityKana: string,
    town: string, townKana: string,
    flagMultiZip: int, flagKoaza: int, flagChome: int, flagMultiTown: int,
    sourceHash: string)
  {
    function Key(): AddressKey {
      AddressKey(zipcode, jisCode, town, townKana)
    }
  }

  // Two addresses are the same logical row exactly if zipcode, jis code, town and its reading agree.
  lemma SameKeyExactly(a: Address, b: Address)
    ensures a.Key() == b.Key()
            <==> a.zipcode == b.zipcode && a.jisCode == b.jisCode && a.town == b.town && a.townKana == b.townKana
  {
  }

  const SEPARATOR: char := 0x1f as char

  // byte('0' + flag): Go truncates to eight bits.
  function FlagByte(flag: int): char {
    ((48 + flag) % 256) as char
  }

  function Fields(a: Address): seq<string> {
    [a.zipcode, a.jisCode, a.prefecture, a.prefectureKana, a.city, a.cityKana, a.town, a.townKana]
  }

  function Flags(a: Address): string {
    [FlagByte(a.flagMultiZip), FlagByte(a.flagKoaza), FlagByte(a.flagChome), FlagByte(a.flagMultiTown)]
  }

  // Each field followed by the separator, then the tail.
  function Separated(fields: seq<string>, tail: string): string {
    if fields == [] then tail else fields[0] + [SEPARATOR] + Separated(fields[1..], tail)
  }

  // The string that is hashed.
  function Serialised(a: Address): string {
    Separated(Fields(a), Flags(a))
  }

  // A field and the separator behind it, followed by the rest.
  lemma FieldAt(fields: seq<string>, i: nat, tail: string)
    requires i < |fields|
    ensures Separated(fields[i..], tail) == fields[i] + [0x1f as char] + Separated(fields[i + 1..], tail)
  {
    assert fields[i..][1..] == fields[i + 1..];
  }

  lemma FieldsWritten(f: seq<string>, t: string)
    requires |f| == 8
    ensures Separated(f, t)
            == f[0] + [0x1f as char] + (f[1] + [0x1f as char] + (f[2] + [0x1f as char] + (f[3] + [0x1f as char]
               + (f[4] + [0x1f as char] + (f[5] + [0x1f as char] + (f[6] + [0x1f as char] + (f[7] + [0x1f as char]
                  + t)))))))
  {
    assert Separated(f[8..], t) == t;
    hide Separated;
    forall i: nat | i < 8 ensures Separated(f[i..], t) == f[i] + [0x1f as char] + Separated(f[i + 1..], t) {
      FieldAt(f, i, t);
    }
    assert f[0..] == f;
  }

  // Written out: eight texts, each closed by byte 0x1f, and four bytes counted from '0'.
  lemma {:induction false} SerialisedText(a: Address)
    ensures Serialised(a)
            == a.zipcode + [0x1f as char] + (a.jisCode + [0x1f as char]
               + (a.prefecture + [0x1f as char] + (a.prefectureKana + [0x1f as char]
                  + (a.city + [0x1f as char] + (a.cityKana + [0x1f as char]
                     + (a.town + [0x1f as char] + (a.townKana + [0x1f as char]
                        + [((48 + a.flagMultiZip) % 256) as char, ((48 + a.flagKoaza) % 256) as char,
                           ((48 + a.flagChome) % 256) as char, ((48 + a.flagMultiTown) % 256) as char])))))))
  {
    hide Separated;
    FieldsWritten(Fields(a), Flags(a));
  }

  // SHA-256 is taken to be injective: the stored hash is the digested string itself.
  // The builder is filled in the order of the source.
  method ComputeHash(a: Address) returns (r: Address)
    ensures r == a.(sourceHash := Serialised(a))
  {
    hide Fields;
    var b := "";
    var fields := Fields(a);
    for i := 0 to |fields|
      invariant Separated(fields, Flags(a)) == b + Separated(fields[i..], Flags(a))
    {
      assert fields[i..][1..] == fields[i + 1..];
      b := b + fields[i];
      b := b + [SEPARATOR];
    }
    b := b + [FlagByte(a.flagMultiZip)];
    b := b + [FlagByte(a.flagKoaza)];
    b := b + [FlagByte(a.flagChome)];
    b := b + [FlagByte(a.flagMultiTown)];
    r := a.(sourceHash := b);
  }

  ghost predicate Hashed(a: Address) {
    a.sourceHash == Serialised(a)
  }

  ghost predicate Clean(s: string) {
    SEPARATOR !in s
  }

  // What the hash can tell apart: clean text, and flags that fit a byte.
  ghost predicate Canonical(a: Address) {
    && Hashed(a)
    && (forall f :: f in Fields(a) ==> Clean(f))
    && 0 <= a.flagMultiZip < 256 && 0 <= a.flagKoaza < 256
    && 0 <= a.flagChome < 256 && 0 <= a.flagMultiTown < 256
  }

  ghost predicate SameText(a: Address, b: Address) {
    Fields(a) == Fields(b)
  }

  ghost predicate SameFlagsMod256(a: Address, b: Address) {
    && a.flagMultiZip % 256 == b.flagMultiZip % 256
    && a.flagKoaza % 256 == b.flagKoaza % 256
    && a.flagChome % 256 == b.flagChome % 256
    && a.flagMultiTown % 256 == b.flagMultiTown % 256
  }

  lemma FirstFieldUnique(x: string, restX: string, y: string, restY: string)
    requires Clean(x) && Clean(y)
    requires x + [SEPARATOR] + restX == y + [SEPARATOR] + restY
    ensures x == y && restX == restY
  {
    var s := x + [SEPARATOR] + restX;
    assert s[|x|] == SEPARATOR && s[|y|] == SEPARATOR;
    assert forall i :: 0 <= i < |y| ==> s[i] == y[i];
    assert forall i :: 0 <= i < |x| ==> s[i] == x[i];
    assert x == s[..|x|] && y == s[..|y|];
    assert restX == s[|x| + 1..] && restY == s[|y| + 1..];
  }

  lemma {:induction false} SeparatedInjective(xs: seq<string>, s: string, ys: seq<string>, t: string)
    requires |xs| == |ys|
    requires forall f :: f in xs || f in ys ==> Clean(f)
    requires Separated(xs, s) == Separated(ys, t)
    ensures xs == ys && s == t
  {
    if xs != [] {
      FirstFieldUnique(xs[0], Separated(xs[1..], s), ys[0], Separated(ys[1..], t));
      SeparatedInjective(xs[1..], s, ys[1..], t);
      assert xs == [xs[0]] + xs[1..] && ys == [ys[0]] + ys[1..];
    }
  }

  lemma FlagByteOf(f: int)
    ensures FlagByte(f) == (if f % 256 < 208 then f % 256 + 48 else f % 256 - 208) as char
  {
    assert 48 + f == 256 * (f / 256) + (48 + f % 256);
  }

  lemma FlagByteInjective(f: int, g: int)
    ensures FlagByte(f) == FlagByte(g) <==> f % 256 == g % 256
  {
    FlagByteOf(f);
    FlagByteOf(g);
  }

  // Two clean addresses serialise alike exactly when their texts agree and their flags agree modulo 256.
  lemma SerialisedInjective(a: Address, b: Address)
    requires forall f :: f in Fields(a) || f in Fields(b) ==> Clean(f)
    ensures Serialised(a) == Serialised(b) <==> SameText(a, b) && SameFlagsMod256(a, b)
  {
    FlagByteInjective(a.flagMultiZip, b.flagMultiZip);
    FlagByteInjective(a.flagKoaza, b.flagKoaza);
    FlagByteInjective(a.flagChome, b.flagChome);
    FlagByteInjective(a.flagMultiTown, b.flagMultiTown);
    if Serialised(a) == Serialised(b) {
      SeparatedInjective(Fields(a), Flags(a), Fields(b), Flags(b));
      assert Flags(a)[0] == Flags(b)[0] && Flags(a)[1] == Flags(b)[1] && Flags(a)[2] == Flags(b)[2]
          && Flags(a)[3] == Flags(b)[3];
    }
  }

  lemma FieldsDetermineText(a: Address, b: Address)
    requires Fields(a) == Fields(b)
    ensures a.zipcode == b.zipcode && a.jisCode == b.jisCode
    ensures a.prefecture == b.prefecture && a.prefectureKana == b.prefectureKana
    ensures a.city == b.city && a.cityKana == b.cityKana
    ensures a.town == b.town && a.townKana == b.townKana
  {
    var s := Fields(a);
    assert s[0] == b.zipcode && s[1] == b.jisCode && s[2] == b.prefecture && s[3] == b.prefectureKana;
    assert s[4] == b.city && s[5] == b.cityKana && s[6] == b.town && s[7] == b.townKana;
  }

  // Canonical addresses are told apart by their hashes.
  lemma CanonicalHashInjective(a: Address, b: Address)
    requires Canonical(a) && Canonical(b) && a.sourceHash == b.sourceHash
    ensures a == b
  {
    hide Serialised, Fields, Clean, SameFlagsMod256;
    SerialisedInjective(a, b);
    FieldsDetermineText(a, b);
    SameFlags(a, b);
  }

  lemma SameFlags(a: Address, b: Address)
    requires SameFlagsMod256(a, b)
    requires 0 <= a.flagMultiZip < 256 && 0 <= a.flagKoaza < 256 && 0 <= a.flagChome < 256 && 0 <= a.flagMultiTown < 256
    requires 0 <= b.flagMultiZip < 256 && 0 <= b.flagKoaza < 256 && 0 <= b.flagChome < 256 && 0 <= b.flagMultiTown < 256
    ensures a.flagMultiZip == b.flagMultiZip && a.flagKoaza == b.flagKoaza
    ensures a.flagChome == b.flagChome && a.flagMultiTown == b.flagMultiTown
  {
  }

  // A flag outside a byte is not seen by the hash: 0 and 256 collide.
  lemma FlagsCollideOutsideAByte(a: Address)
    ensures Serialised(a.(flagChome := a.flagChome + 256)) == Serialised(a)
    ensures a.(flagChome := a.flagChome + 256) != a
  {
    FlagByteInjective(a.flagChome, a.flagChome + 256);
  }
}

// internal/store/address_repo.go: the addresses table and the chunked primitives the sync uses.
// Every SQL statement is atomic and may fail; a failed statement changes nothing.

module Tables {
  import opened Seqs
  import opened Addresses

  type AddressMap = map<AddressKey, Address>

  datatype Row = Row(id: nat, addr: Address)

  const ADDRESS_KEY_DELETE_CHUNK: nat := 200
  const ADDRESS_PRUNE_SCAN_CHUNK: nat := 500
  const SELECT_CHUNK: nat := 500
  const INSERT_CHUNK: nat := 500

  // Rows in primary-key order; the unique index uq_addr keeps the logical keys apart.
  ghost predicate ValidRows(rows: seq<Row>) {
    && (forall i :: 0 <= i < |rows| ==> 1 <= rows[i].id)
    && (forall i, j :: 0 <= i < j < |rows| ==> rows[i].id < rows[j].id)
    && (forall i, j :: 0 <= i < j < |rows| ==> rows[i].addr.Key() != rows[j].addr.Key())
  }

  // The table as a map from logical key to address.
  function Contents(rows: seq<Row>): AddressMap {
    if rows == [] then map[] else
      var last := rows[|rows| - 1].addr;
      Contents(rows[..|rows| - 1])[last.Key() := last]
  }

  // Rows written one after the other, the later one winning.
  function PutAll(m: AddressMap, addrs: seq<Address>): AddressMap {
    if addrs == [] then m else
      var last := addrs[|addrs| - 1];
      PutAll(m, addrs[..|addrs| - 1])[last.Key() := last]
  }

  function HashesAt(m: AddressMap, zipcodes: set<string>): map<AddressKey, string> {
    map k | k in m && k.zipcode in zipcodes :: m[k].sourceHash
  }

  function KeyNotIn(keys: set<AddressKey>): Row -> bool {
    (r: Row) => r.addr.Key() !in keys
  }

  function KeyIn(keys: set<AddressKey>): Row -> bool {
    (r: Row) => r.addr.Key() in keys
  }

  function IdNotIn(ids: set<nat>): Row -> bool {
    (r: Row) => r.id !in ids
  }

  function IdAfter(lastId: nat): Row -> bool {
    (r: Row) => lastId < r.id
  }

  function ZipcodeIn(zipcodes: set<string>): Row -> bool {
    (r: Row) => r.addr.zipcode in zipcodes
  }

  // What a scan that has reached lastId leaves: kept keys, and rows not visited yet.
  function SurvivesScan(keep: set<AddressKey>, lastId: nat): Row -> bool {
    (r: Row) => lastId < r.id || r.addr.Key() in keep
  }

  function IndexOf(rows: seq<Row>, k: AddressKey): (i: nat)
    ensures i <= |rows|
    ensures i < |rows| ==> rows[i].addr.Key() == k
    ensures forall j :: 0 <= j < i ==> rows[j].addr.Key() != k
  {
    if rows == [] || rows[0].addr.Key() == k then 0 else 1 + IndexOf(rows[1..], k)
  }

  // The column list of the ON CONFLICT clause.
  function Assigned(existing: Address, incoming: Address): Address {
    existing.(
      prefecture := incoming.prefecture, prefectureKana := incoming.prefectureKana,
      city := incoming.city, cityKana := incoming.cityKana,
      flagMultiZip := incoming.flagMultiZip, flagKoaza := incoming.flagKoaza,
      flagChome := incoming.flagChome, flagMultiTown := incoming.flagMultiTown,
      sourceHash := incoming.sourceHash)
  }

  // ----- Lemmas about Contents -----

  lemma ContentsKeys(rows: seq<Row>)
    ensures forall k :: k in Contents(rows) <==> exists r :: r in rows && r.addr.Key() == k
  {
    if rows != [] {
      var n := |rows| - 1;
      ContentsKeys(rows[..n]);
      assert rows == rows[..n] + [rows[n]];
    }
  }

  lemma ValidInit(rows: seq<Row>)
    requires ValidRows(rows) && rows != []
    ensures ValidRows(rows[..|rows| - 1])
    ensures rows[|rows| - 1].addr.Key() !in Contents(rows[..|rows| - 1])
  {
    ContentsKeys(rows[..|rows| - 1]);
  }

  lemma ContentsAt(rows: seq<Row>, i: nat)
    requires ValidRows(rows) && i < |rows|
    ensures rows[i].addr.Key() in Contents(rows) && Contents(rows)[rows[i].addr.Key()] == rows[i].addr
  {
    ValidInit(rows);
    if i < |rows| - 1 {
      ContentsAt(rows[..|rows| - 1], i);
    }
  }

  lemma ContentsOf(rows: seq<Row>, r: Row)
    requires ValidRows(rows) && r in rows
    ensures r.addr.Key() in Contents(rows) && Contents(rows)[r.addr.Key()] == r.addr
  {
    var i :| 0 <= i < |rows| && rows[i] == r;
    ContentsAt(rows, i);
  }

  lemma ContentsSize(rows: seq<Row>)
    requires ValidRows(rows)
    ensures |Contents(rows)| == |rows|
  {
    if rows != [] {
      ValidInit(rows);
      ContentsSize(rows[..|rows| - 1]);
    }
  }

  lemma ContentsSnoc(rows: seq<Row>, r: Row)
    ensures Contents(rows + [r]) == Contents(rows)[r.addr.Key() := r.addr]
  {
    assert (rows + [r])[..|rows|] == rows;
  }

  lemma UpdateMinus(m: AddressMap, k: AddressKey, a: Address, keys: set<AddressKey>)
    ensures m[k := a] - keys == if k in keys then m - keys else (m - keys)[k := a]
  {
  }

  lemma {:induction false} ContentsFilterKeys(rows: seq<Row>, keys: set<AddressKey>)
    ensures Contents(Filter(rows, KeyNotIn(keys))) == Contents(rows) - keys
  {
    if rows == [] {
    } else {
      var n := |rows| - 1;
      var last := rows[n].addr;
      ContentsFilterKeys(rows[..n], keys);
      var kept := Filter(rows[..n], KeyNotIn(keys));
      UpdateMinus(Contents(rows[..n]), last.Key(), last, keys);
      if last.Key() !in keys {
        ContentsSnoc(kept, rows[n]);
      } else {
        assert kept + [] == kept;
      }
    }
  }

  lemma ContentsFilterKeep(rows: seq<Row>, keys: set<AddressKey>)
    ensures Contents(Filter(rows, KeyIn(keys))) == Contents(rows) - (Contents(rows).Keys - keys)
  {
    var others := Contents(rows).Keys - keys;
    ContentsKeys(rows);
    FilterSame(rows, KeyIn(keys), KeyNotIn(others));
    ContentsFilterKeys(rows, others);
  }

  lemma ValidSnoc(rows: seq<Row>, r: Row)
    requires ValidRows(rows) && 1 <= r.id
    requires forall q :: q in rows ==> q.id < r.id && q.addr.Key() != r.addr.Key()
    ensures ValidRows(rows + [r])
  {
  }

  lemma LastIsFresh(rows: seq<Row>)
    requires ValidRows(rows) && rows != []
    ensures var n := |rows| - 1;
            && ValidRows(rows[..n]) && 1 <= rows[n].id
            && forall q :: q in rows[..n] ==> q.id < rows[n].id && q.addr.Key() != rows[n].addr.Key()
  {
  }

  lemma {:induction false} FilterValid(rows: seq<Row>, p: Row -> bool)
    requires ValidRows(rows)
    ensures ValidRows(Filter(rows, p))
  {
    hide ValidRows;
    if rows == [] {
      assert Filter(rows, p) == rows;
    } else {
      var n := |rows| - 1;
      LastIsFresh(rows);
      FilterValid(rows[..n], p);
      FilterMembers(rows[..n], p);
      if p(rows[n]) {
        ValidSnoc(Filter(rows[..n], p), rows[n]);
      } else {
        assert Filter(rows, p) == Filter(rows[..n], p);
      }
    }
  }

  // Narrowing by zipcode loses no key that has one of the zipcodes.
  lemma ZipcodesCover(rows: seq<Row>, zipcodes: set<string>, k: AddressKey)
    requires k in Contents(rows) && k.zipcode in zipcodes
    ensures exists r :: r in Filter(rows, ZipcodeIn(zipcodes)) && r.addr.Key() == k
  {
    ContentsKeys(rows);
    FilterMembers(rows, ZipcodeIn(zipcodes));
    var r :| r in rows && r.addr.Key() == k;
    assert r in Filter(rows, ZipcodeIn(zipcodes));
  }

  lemma PutAllAppend(m: AddressMap, xs: seq<Address>, ys: seq<Address>)
    ensures PutAll(m, xs + ys) == PutAll(PutAll(m, xs), ys)
  {
    if ys == [] {
      assert xs + ys == xs;
    } else {
      assert (xs + ys)[..|xs + ys| - 1] == xs + ys[..|ys| - 1];
      PutAllAppend(m, xs, ys[..|ys| - 1]);
    }
  }

  lemma PutAllStep(m: AddressMap, xs: seq<Address>, i: nat)
    requires i < |xs|
    ensures PutAll(m, xs[..i + 1]) == PutAll(m, xs[..i])[xs[i].Key() := xs[i]]
  {
    assert xs[..i + 1][..i] == xs[..i];
  }

  // ----- Paging -----

  // The page is a prefix of the rows after lastId; the rest is what comes after its last id.
  lemma AfterPage(rows: seq<Row>, lastId: nat, n: nat)
    requires ValidRows(rows)
    requires 1 <= n <= |Filter(rows, IdAfter(lastId))|
    ensures var rest := Filter(rows, IdAfter(lastId));
            rest[n - 1].id > lastId && Filter(rows, IdAfter(rest[n - 1].id)) == rest[n..]
  {
    var rest := Filter(rows, IdAfter(lastId));
    FilterValid(rows, IdAfter(lastId));
    FilterMembers(rows, IdAfter(lastId));
    assert rest[n - 1] in rest;
    var newLast := rest[n - 1].id;
    FilterTwice(rows, IdAfter(lastId), IdAfter(newLast), IdAfter(newLast));
    FilterSuffix(rest, n, newLast);
  }

  lemma FilterSuffix(rest: seq<Row>, n: nat, newLast: nat)
    requires ValidRows(rest) && 1 <= n <= |rest| && newLast == rest[n - 1].id
    ensures Filter(rest, IdAfter(newLast)) == rest[n..]
  {
    hide ValidRows, Filter;
    PageBounds(rest, n);
    assert rest == rest[..n] + rest[n..];
    FilterAppend(rest[..n], rest[n..], IdAfter(newLast));
    FilterNone(rest[..n], IdAfter(newLast));
    FilterAll(rest[n..], IdAfter(newLast));
  }

  lemma PageBounds(rest: seq<Row>, n: nat)
    requires ValidRows(rest) && 1 <= n <= |rest|
    ensures forall r :: r in rest[..n] ==> r.id <= rest[n - 1].id
    ensures forall r :: r in rest[n..] ==> rest[n - 1].id < r.id
  {
  }

  lemma FilterNone(rows: seq<Row>, p: Row -> bool)
    requires forall r :: r in rows ==> !p(r)
    ensures Filter(rows, p) == []
  {
    FilterMembers(rows, p);
    if Filter(rows, p) != [] {
      assert Filter(rows, p)[0] in Filter(rows, p);
    }
  }
}

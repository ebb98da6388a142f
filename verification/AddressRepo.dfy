// internal/store/address_repo.go: the table object, its SQL statements and the chunk loops above them.

module AddressRepo {
  import opened Seqs
  import opened Addresses
  import opened Tables

  // One row of INSERT ... ON CONFLICT (uq_addr) DO UPDATE.
  function Upserted(rows: seq<Row>, freshId: nat, a: Address): seq<Row> {
    var i := IndexOf(rows, a.Key());
    if i < |rows| then rows[i := Row(rows[i].id, Assigned(rows[i].addr, a))] else rows + [Row(freshId, a)]
  }

  // The column list covers everything outside the key, so an update leaves exactly the incoming row.
  lemma AssignedIsIncoming(existing: Address, incoming: Address)
    requires existing.Key() == incoming.Key()
    ensures Assigned(existing, incoming) == incoming
  {
  }

  lemma {:induction false} UpdateInPlace(rows: seq<Row>, i: nat, r: Row)
    requires ValidRows(rows) && i < |rows| && rows[i].addr.Key() == r.addr.Key()
    ensures Contents(rows[i := r]) == Contents(rows)[r.addr.Key() := r.addr]
  {
    var n := |rows| - 1;
    if i == n {
      assert rows[i := r][..n] == rows[..n];
    } else {
      assert rows[i := r][..n] == rows[..n][i := r];
      UpdateInPlace(rows[..n], i, r);
      assert rows[n].addr.Key() != rows[i].addr.Key();
    }
  }

  lemma UpdateValid(rows: seq<Row>, i: nat, r: Row)
    requires ValidRows(rows) && i < |rows| && rows[i].addr.Key() == r.addr.Key() && rows[i].id == r.id
    ensures ValidRows(rows[i := r])
  {
  }

  lemma AppendFresh(rows: seq<Row>, r: Row)
    requires ValidRows(rows) && 1 <= r.id && (forall q :: q in rows ==> q.id < r.id)
    requires forall q :: q in rows ==> q.addr.Key() != r.addr.Key()
    ensures ValidRows(rows + [r])
    ensures Contents(rows + [r]) == Contents(rows)[r.addr.Key() := r.addr]
  {
    ContentsSnoc(rows, r);
  }

  lemma UpsertedContents(rows: seq<Row>, freshId: nat, a: Address)
    requires ValidRows(rows) && 1 <= freshId && forall r :: r in rows ==> r.id < freshId
    ensures ValidRows(Upserted(rows, freshId, a))
    ensures forall r :: r in Upserted(rows, freshId, a) ==> r.id <= freshId
    ensures Contents(Upserted(rows, freshId, a)) == Contents(rows)[a.Key() := a]
  {
    var i := IndexOf(rows, a.Key());
    if i < |rows| {
      var r := Row(rows[i].id, a);
      AssignedIsIncoming(rows[i].addr, a);
      assert Upserted(rows, freshId, a) == rows[i := r];
      UpdateInPlace(rows, i, r);
      UpdateValid(rows, i, r);
    } else {
      assert Upserted(rows, freshId, a) == rows + [Row(freshId, a)];
      AppendFresh(rows, Row(freshId, a));
    }
  }

  // ----- One chunk of ExistingHashes -----

  function WithHashes(out: map<AddressKey, string>, found: seq<Row>): map<AddressKey, string> {
    if found == [] then out else
      var last := found[|found| - 1].addr;
      WithHashes(out, found[..|found| - 1])[last.Key() := last.sourceHash]
  }

  lemma {:induction false} WithHashesEntries(out: map<AddressKey, string>, found: seq<Row>,
                                             all: map<AddressKey, string>)
    requires forall k :: k in out ==> k in all && out[k] == all[k]
    requires forall r :: r in found ==> r.addr.Key() in all && all[r.addr.Key()] == r.addr.sourceHash
    ensures forall k :: k in WithHashes(out, found) ==> k in all && WithHashes(out, found)[k] == all[k]
    ensures forall k :: k in WithHashes(out, found) <==> k in out || exists r :: r in found && r.addr.Key() == k
  {
    if found == [] {
    } else {
      var n := |found| - 1;
      assert found == found[..n] + [found[n]];
      WithHashesEntries(out, found[..n], all);
    }
  }

  // Reading one more chunk of zipcodes extends the map of hashes by exactly those zipcodes.
  lemma ChunkRead(rows: seq<Row>, uniq: seq<string>, i: nat, end: nat)
    requires ValidRows(rows) && i <= end <= |uniq|
    ensures WithHashes(HashesAt(Contents(rows), Elems(uniq[..i])), Filter(rows, ZipcodeIn(Elems(uniq[i..end]))))
            == HashesAt(Contents(rows), Elems(uniq[..end]))
  {
    assert uniq[..end] == uniq[..i] + uniq[i..end];
    ElemsAppend(uniq[..i], uniq[i..end]);
    ZipcodesRead(rows, Elems(uniq[..i]), Elems(uniq[i..end]));
  }

  lemma ZipcodesRead(rows: seq<Row>, done: set<string>, zipcodes: set<string>)
    requires ValidRows(rows)
    ensures WithHashes(HashesAt(Contents(rows), done), Filter(rows, ZipcodeIn(zipcodes)))
            == HashesAt(Contents(rows), done + zipcodes)
  {
    var m := Contents(rows);
    var found := Filter(rows, ZipcodeIn(zipcodes));
    var all := HashesAt(m, done + zipcodes);
    FilterMembers(rows, ZipcodeIn(zipcodes));
    forall r | r in found ensures r.addr.Key() in all && all[r.addr.Key()] == r.addr.sourceHash {
      ContentsOf(rows, r);
    }
    WithHashesEntries(HashesAt(m, done), found, all);
    forall k | k in all ensures k in WithHashes(HashesAt(m, done), found) {
      if k !in HashesAt(m, done) {
        ZipcodesCover(rows, zipcodes, k);
      }
    }
  }

  // ----- One chunk of a deletion -----

  lemma NothingDropped(rows: seq<Row>, keys: seq<AddressKey>, ids: seq<nat>)
    ensures Filter(rows, KeyNotIn(Elems(keys[..0]))) == rows
    ensures Filter(rows, IdNotIn(Elems(ids[..0]))) == rows
  {
    FilterAll(rows, KeyNotIn(Elems(keys[..0])));
    FilterAll(rows, IdNotIn(Elems(ids[..0])));
  }

  lemma DropKeys(rows: seq<Row>, keys: seq<AddressKey>, i: nat, end: nat)
    requires i <= end <= |keys|
    ensures Filter(Filter(rows, KeyNotIn(Elems(keys[..i]))), KeyNotIn(Elems(keys[i..end])))
            == Filter(rows, KeyNotIn(Elems(keys[..end])))
  {
    assert keys[..end] == keys[..i] + keys[i..end];
    ElemsAppend(keys[..i], keys[i..end]);
    FilterTwice(rows, KeyNotIn(Elems(keys[..i])), KeyNotIn(Elems(keys[i..end])), KeyNotIn(Elems(keys[..end])));
  }

  lemma DropIds(rows: seq<Row>, ids: seq<nat>, i: nat, end: nat)
    requires i <= end <= |ids|
    ensures Filter(Filter(rows, IdNotIn(Elems(ids[..i]))), IdNotIn(Elems(ids[i..end])))
            == Filter(rows, IdNotIn(Elems(ids[..end])))
  {
    assert ids[..end] == ids[..i] + ids[i..end];
    ElemsAppend(ids[..i], ids[i..end]);
    FilterTwice(rows, IdNotIn(Elems(ids[..i])), IdNotIn(Elems(ids[i..end])), IdNotIn(Elems(ids[..end])));
  }

  // ----- One page of the pruning scan -----

  function StaleIds(page: seq<Row>, keep: set<AddressKey>): (ids: seq<nat>)
    ensures forall id :: id in ids <==> exists r :: r in page && r.id == id && r.addr.Key() !in keep
  {
    if page == [] then [] else
      var last := page[|page| - 1];
      assert page == page[..|page| - 1] + [last];
      StaleIds(page[..|page| - 1], keep) + if last.addr.Key() in keep then [] else [last.id]
  }

  lemma SameId(rows: seq<Row>, r: Row, s: Row)
    requires ValidRows(rows) && r in rows && s in rows && r.id == s.id
    ensures r == s
  {
    var i :| 0 <= i < |rows| && rows[i] == r;
    var j :| 0 <= j < |rows| && rows[j] == s;
  }

  // Deleting the stale ids of a page moves the scan from the previous last id to the page's last id.
  lemma PageScanned(rows0: seq<Row>, rows: seq<Row>, keep: set<AddressKey>, lastId: nat, page: seq<Row>, newLast: nat)
    requires ValidRows(rows0) && rows == Filter(rows0, SurvivesScan(keep, lastId))
    requires page != [] && page <= Filter(rows0, IdAfter(lastId)) && newLast == page[|page| - 1].id
    ensures lastId < newLast
    ensures Filter(rows0, IdAfter(newLast)) == Filter(rows0, IdAfter(lastId))[|page|..]
    ensures Filter(rows, IdNotIn(Elems(StaleIds(page, keep)))) == Filter(rows0, SurvivesScan(keep, newLast))
  {
    var rest := Filter(rows0, IdAfter(lastId));
    AfterPage(rows0, lastId, |page|);
    FilterValid(rows0, IdAfter(lastId));
    FilterValid(rows0, SurvivesScan(keep, lastId));
    var gone := IdNotIn(Elems(StaleIds(page, keep)));
    FilterMembers(rows0, SurvivesScan(keep, lastId));
    forall r | r in rows ensures gone(r) == SurvivesScan(keep, newLast)(r) {
      OneRowScanned(rows0, rest, keep, lastId, page, newLast, r);
    }
    FilterSame(rows, gone, SurvivesScan(keep, newLast));
    FilterTwice(rows0, SurvivesScan(keep, lastId), SurvivesScan(keep, newLast), SurvivesScan(keep, newLast));
  }

  lemma OneRowScanned(rows0: seq<Row>, rest: seq<Row>, keep: set<AddressKey>, lastId: nat, page: seq<Row>, newLast: nat,
                      r: Row)
    requires ValidRows(rows0) && ValidRows(rest) && rest == Filter(rows0, IdAfter(lastId))
    requires page != [] && page <= rest && newLast == page[|page| - 1].id
    requires r in rows0 && SurvivesScan(keep, lastId)(r)
    ensures r.id !in StaleIds(page, keep) <==> SurvivesScan(keep, newLast)(r)
  {
    FilterMembers(rows0, IdAfter(lastId));
    hide Filter;
    if r.id in StaleIds(page, keep) {
      var s :| s in page && s.id == r.id && s.addr.Key() !in keep;
      var i :| 0 <= i < |page| && page[i] == s;
      assert rest[i] == s && s in rest;
      SameId(rows0, r, s);
    } else if r.id <= newLast && lastId < r.id {
      assert IdAfter(lastId)(r) && r in rest;
      var i :| 0 <= i < |rest| && rest[i] == r;
      assert page[|page| - 1] == rest[|page| - 1];
      assert page[i] in page;
    }
  }

  lemma ScanStarts(rows0: seq<Row>, keep: set<AddressKey>)
    requires ValidRows(rows0)
    ensures Filter(rows0, SurvivesScan(keep, 0)) == rows0
  {
    FilterAll(rows0, SurvivesScan(keep, 0));
  }

  lemma ScanComplete(rows0: seq<Row>, keep: set<AddressKey>, lastId: nat)
    requires Filter(rows0, IdAfter(lastId)) == []
    ensures Filter(rows0, SurvivesScan(keep, lastId)) == Filter(rows0, KeyIn(keep))
  {
    FilterMembers(rows0, IdAfter(lastId));
    forall r | r in rows0 ensures SurvivesScan(keep, lastId)(r) == KeyIn(keep)(r) {
      assert r !in Filter(rows0, IdAfter(lastId));
    }
    FilterSame(rows0, SurvivesScan(keep, lastId), KeyIn(keep));
  }

  // The part of the table after lastId has not been touched by the scan.
  lemma UnscannedIntact(rows0: seq<Row>, keep: set<AddressKey>, lastId: nat)
    ensures Filter(Filter(rows0, SurvivesScan(keep, lastId)), IdAfter(lastId)) == Filter(rows0, IdAfter(lastId))
  {
    FilterTwice(rows0, SurvivesScan(keep, lastId), IdAfter(lastId), IdAfter(lastId));
  }

  class AddressTable {
    var rows: seq<Row>
    var nextId: nat

    ghost predicate Valid()
      reads this
    {
      ValidRows(rows) && 1 <= nextId && forall r :: r in rows ==> r.id < nextId
    }

    ghost function Map(): AddressMap
      reads this
    {
      Contents(rows)
    }

    constructor ()
      ensures Valid() && Map() == map[]
    {
      rows := [];
      nextId := 1;
    }

    // ----- SQL statements -----

    method SelectCount() returns (ok: bool, n: nat)
      requires Valid()
      ensures ok ==> n == |Map()|
    {
      ok := *;
      n := |rows|;
      ContentsSize(rows);
    }

    method SelectByZipcode(zipcodes: set<string>) returns (ok: bool, found: seq<Row>)
      ensures ok ==> found == Filter(rows, ZipcodeIn(zipcodes))
    {
      ok := *;
      found := if ok then Filter(rows, ZipcodeIn(zipcodes)) else [];
    }

    method SelectPage(lastId: nat, limit: nat) returns (ok: bool, page: seq<Row>)
      ensures ok ==> page == Filter(rows, IdAfter(lastId))[..Min(limit, |Filter(rows, IdAfter(lastId))|)]
    {
      ok := *;
      var rest := Filter(rows, IdAfter(lastId));
      page := if ok then rest[..Min(limit, |rest|)] else [];
    }

    method InsertOrUpdate(addrs: seq<Address>) returns (ok: bool)
      requires Valid()
      modifies this
      ensures Valid()
      ensures Map() == if ok then PutAll(old(Map()), addrs) else old(Map())
      ensures old(nextId) <= nextId
    {
      ok := *;
      if !ok {
        return;
      }
      for i := 0 to |addrs|
        invariant Valid() && old(nextId) <= nextId
        invariant Map() == PutAll(old(Map()), addrs[..i])
      {
        PutAllStep(old(Map()), addrs, i);
        UpsertedContents(rows, nextId, addrs[i]);
        rows := Upserted(rows, nextId, addrs[i]);
        nextId := nextId + 1;
      }
      assert addrs[..|addrs|] == addrs;
    }

    method DeleteKeys(keys: set<AddressKey>) returns (ok: bool, affected: nat)
      requires Valid()
      modifies this`rows
      ensures Valid()
      ensures rows == if ok then Filter(old(rows), KeyNotIn(keys)) else old(rows)
      ensures ok ==> affected == |old(rows)| - |rows|
    {
      ok := *;
      affected := 0;
      if ok {
        FilterValid(rows, KeyNotIn(keys));
        FilterMembers(rows, KeyNotIn(keys));
        var before := |rows|;
        rows := Filter(rows, KeyNotIn(keys));
        affected := before - |rows|;
      }
    }

    method DeleteIds(ids: set<nat>) returns (ok: bool, affected: nat)
      requires Valid()
      modifies this`rows
      ensures Valid()
      ensures rows == if ok then Filter(old(rows), IdNotIn(ids)) else old(rows)
      ensures ok ==> affected == |old(rows)| - |rows|
    {
      ok := *;
      affected := 0;
      if ok {
        FilterValid(rows, IdNotIn(ids));
        FilterMembers(rows, IdNotIn(ids));
        var before := |rows|;
        rows := Filter(rows, IdNotIn(ids));
        affected := before - |rows|;
      }
    }

    // ----- The repository primitives -----

    method ExistingHashes(zipcodes: seq<string>) returns (ok: bool, out: map<AddressKey, string>)
      requires Valid()
      ensures ok ==> out == HashesAt(Map(), Elems(zipcodes))
    {
      out := map[];
      if |zipcodes| == 0 {
        return true, out;
      }
      var seen: set<string> := {};
      var uniq: seq<string> := [];
      for i := 0 to |zipcodes|
        invariant seen == Elems(zipcodes[..i]) == Elems(uniq)
      {
        assert zipcodes[..i + 1] == zipcodes[..i] + [zipcodes[i]];
        if zipcodes[i] !in seen {
          seen := seen + {zipcodes[i]};
          uniq := uniq + [zipcodes[i]];
        }
      }
      assert zipcodes[..|zipcodes|] == zipcodes;
      var i := 0;
      while i < |uniq|
        invariant 0 <= i
        invariant out == HashesAt(Map(), Elems(uniq[..Min(i, |uniq|)]))
      {
        var end := Min(i + SELECT_CHUNK, |uniq|);
        var found;
        ok, found := SelectByZipcode(Elems(uniq[i..end]));
        if !ok {
          return;
        }
        ghost var before := out;
        for j := 0 to |found|
          invariant out == WithHashes(before, found[..j])
        {
          assert found[..j + 1][..j] == found[..j];
          out := out[found[j].addr.Key() := found[j].addr.sourceHash];
        }
        assert found[..|found|] == found;
        ChunkRead(rows, uniq, i, end);
        i := i + SELECT_CHUNK;
      }
      assert uniq[..|uniq|] == uniq;
      ok := true;
    }

    // CreateInBatches: chunks inside one transaction.
    method UpsertBatch(addrs: seq<Address>) returns (ok: bool)
      requires Valid()
      modifies this
      ensures Valid()
      ensures Map() == if ok then PutAll(old(Map()), addrs) else old(Map())
    {
      if |addrs| == 0 {
        return true;
      }
      var saved := rows;
      var i := 0;
      while i < |addrs|
        invariant 0 <= i && Valid() && old(nextId) <= nextId
        invariant Map() == PutAll(old(Map()), addrs[..Min(i, |addrs|)])
      {
        var end := Min(i + INSERT_CHUNK, |addrs|);
        assert addrs[..end] == addrs[..i] + addrs[i..end];
        PutAllAppend(old(Map()), addrs[..i], addrs[i..end]);
        ok := InsertOrUpdate(addrs[i..end]);
        if !ok {
          rows := saved;
          return;
        }
        i := i + INSERT_CHUNK;
      }
      assert addrs[..|addrs|] == addrs;
      ok := *;  // commit
      if !ok {
        rows := saved;
      }
    }

    method DeleteByKeys(keys: seq<AddressKey>, chunk: nat) returns (ok: bool, total: nat, ghost done: nat)
      requires Valid() && 1 <= chunk
      modifies this`rows
      ensures Valid()
      ensures total == |old(rows)| - |rows|
      ensures done <= |keys| && (ok ==> done == |keys|)
      ensures Map() == old(Map()) - Elems(keys[..done])
    {
      hide Filter, ValidRows;
      ghost var rows0 := rows;
      total := 0;
      NothingDropped(rows0, keys, []);
      var i := 0;
      while i < |keys|
        invariant 0 <= i && Valid()
        invariant rows == Filter(rows0, KeyNotIn(Elems(keys[..Min(i, |keys|)])))
        invariant total == |rows0| - |rows|
      {
        var end := Min(i + chunk, |keys|);
        var affected;
        ok, affected := DeleteKeys(Elems(keys[i..end]));
        if !ok {
          done := i;
          ContentsFilterKeys(rows0, Elems(keys[..done]));
          return;
        }
        DropKeys(rows0, keys, i, end);
        total := total + affected;
        i := i + chunk;
      }
      ok, done := true, |keys|;
      ContentsFilterKeys(rows0, Elems(keys[..done]));
    }

    // The inner loop of DeleteNotIn over the stale ids of one page.
    method DeleteStale(stale: seq<nat>, chunk: nat) returns (ok: bool, total: nat, ghost done: nat)
      requires Valid() && 1 <= chunk
      modifies this`rows
      ensures Valid()
      ensures total == |old(rows)| - |rows|
      ensures done <= |stale| && (ok ==> done == |stale|)
      ensures rows == Filter(old(rows), IdNotIn(Elems(stale[..done])))
    {
      hide Filter, ValidRows;
      ghost var rows0 := rows;
      total := 0;
      NothingDropped(rows0, [], stale);
      var i := 0;
      while i < |stale|
        invariant 0 <= i && Valid()
        invariant rows == Filter(rows0, IdNotIn(Elems(stale[..Min(i, |stale|)])))
        invariant total == |rows0| - |rows|
      {
        var end := Min(i + chunk, |stale|);
        var affected;
        ok, affected := DeleteIds(Elems(stale[i..end]));
        if !ok {
          done := i;
          return;
        }
        DropIds(rows0, stale, i, end);
        total := total + affected;
        i := i + chunk;
      }
      ok, done := true, |stale|;
    }

    method DeleteNotIn(keep: set<AddressKey>, chunk: nat) returns (ok: bool, total: nat)
      requires Valid() && 1 <= chunk
      modifies this`rows
      ensures Valid()
      ensures total == |old(rows)| - |rows|
      ensures ok ==> rows == Filter(old(rows), KeyIn(keep))
      ensures OnlyStaleGone(old(rows), rows, keep)
    {
      hide Filter, ValidRows;
      ghost var rows0 := rows;
      total := 0;
      var lastId := 0;
      ScanStarts(rows0, keep);
      while true
        invariant Valid() && rows == Filter(rows0, SurvivesScan(keep, lastId))
        invariant total == |rows0| - |rows|
        decreases |Filter(rows0, IdAfter(lastId))|
      {
        ScannedSoFar(rows0, keep, lastId);
        UnscannedIntact(rows0, keep, lastId);
        var page;
        ok, page := SelectPage(lastId, chunk);
        if !ok {
          return;
        }
        if |page| == 0 {
          break;
        }
        ghost var rows1, lastId1 := rows, lastId;
        var stale;
        stale, lastId := CollectStale(page, keep);
        var affected;
        ghost var done;
        ok, affected, done := DeleteStale(stale, chunk);
        total := total + affected;
        if !ok {
          StaleOnly(rows0, rows1, keep, page, Elems(stale[..done]));
          return;
        }
        assert stale[..|stale|] == stale;
        PageScanned(rows0, rows1, keep, lastId1, page, lastId);
      }
      ScanComplete(rows0, keep, lastId);
      ok := true;
    }
  }

  // The ids of a page to delete, and the id the next page starts after.
  method CollectStale(page: seq<Row>, keep: set<AddressKey>) returns (stale: seq<nat>, lastId: nat)
    requires page != []
    ensures stale == StaleIds(page, keep)
    ensures lastId == page[|page| - 1].id
  {
    stale, lastId := [], 0;
    for j := 0 to |page|
      invariant stale == StaleIds(page[..j], keep)
      invariant j > 0 ==> lastId == page[j - 1].id
    {
      assert page[..j + 1][..j] == page[..j];
      lastId := page[j].id;
      if page[j].addr.Key() !in keep {
        stale := stale + [page[j].id];
      }
    }
    assert page[..|page|] == page;
  }

  // Rows may only go because their key is not kept.
  ghost predicate OnlyStaleGone(before: seq<Row>, after: seq<Row>, keep: set<AddressKey>) {
    && (forall r :: r in after ==> r in before)
    && (forall r :: r in before && r.addr.Key() in keep ==> r in after)
  }

  // At any point of the scan, no kept row is gone.
  lemma ScannedSoFar(rows0: seq<Row>, keep: set<AddressKey>, lastId: nat)
    ensures OnlyStaleGone(rows0, Filter(rows0, SurvivesScan(keep, lastId)), keep)
    ensures forall r :: r in Filter(rows0, IdAfter(lastId)) ==> r in rows0
  {
    FilterMembers(rows0, SurvivesScan(keep, lastId));
    FilterMembers(rows0, IdAfter(lastId));
  }

  // Whatever part of the stale ids has been deleted, no kept row is gone.
  lemma StaleOnly(rows0: seq<Row>, rows: seq<Row>, keep: set<AddressKey>, page: seq<Row>, ids: set<nat>)
    requires ValidRows(rows0) && OnlyStaleGone(rows0, rows, keep)
    requires forall r :: r in page ==> r in rows0
    requires ids <= Elems(StaleIds(page, keep))
    ensures OnlyStaleGone(rows0, Filter(rows, IdNotIn(ids)), keep)
  {
    FilterMembers(rows, IdNotIn(ids));
    hide Filter;
    forall r | r in rows0 && r.addr.Key() in keep ensures r.id !in ids {
      if r.id in ids {
        var s :| s in page && s.id == r.id && s.addr.Key() !in keep;
        SameId(rows0, r, s);
      }
    }
  }
}

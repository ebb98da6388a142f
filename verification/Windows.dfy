// Overlapping look-back windows, on maps from logical keys to values of any kind: what runs of
// "remove, then override" units in calendar order add up to.

module Windows {
  import opened Addresses

  // One published file: an abolished file removes keys, a new-address file overrides rows.
  datatype Unit<V> = Remove(keys: set<AddressKey>) | Override(rows: map<AddressKey, V>)

  function Mentions<V>(u: Unit<V>): set<AddressKey> {
    match u
    case Remove(keys) => keys
    case Override(rows) => rows.Keys
  }

  function Apply<V>(m: map<AddressKey, V>, u: Unit<V>): map<AddressKey, V> {
    match u
    case Remove(keys) => m - keys
    case Override(rows) => m + rows
  }

  // Units at the positions of a calendar, applied in ascending order where they are published.
  function ApplyRange<V>(m: map<AddressKey, V>, units: int -> Unit<V>, published: set<int>, lo: int,
                         hi: int): map<AddressKey, V>
    decreases hi - lo
  {
    if hi <= lo then m else
      var before := ApplyRange(m, units, published, lo, hi - 1);
      if hi - 1 in published then Apply(before, units(hi - 1)) else before
  }

  function Mentioned<V>(units: int -> Unit<V>, published: set<int>, lo: int, hi: int): set<AddressKey>
    decreases hi - lo
  {
    if hi <= lo then {} else
      Mentioned(units, published, lo, hi - 1) + if hi - 1 in published then Mentions(units(hi - 1)) else {}
  }

  ghost predicate AgreeOff<V>(m1: map<AddressKey, V>, m2: map<AddressKey, V>, keys: set<AddressKey>) {
    forall k :: k !in keys ==> (k in m1 <==> k in m2) && (k in m1 ==> m1[k] == m2[k])
  }

  lemma AgreeEverywhere<V>(m1: map<AddressKey, V>, m2: map<AddressKey, V>, keys: set<AddressKey>)
    requires AgreeOff(m1, m2, keys) && keys == {}
    ensures m1 == m2
  {
  }

  lemma ApplyAgrees<V>(m1: map<AddressKey, V>, m2: map<AddressKey, V>, keys: set<AddressKey>, u: Unit<V>)
    requires AgreeOff(m1, m2, keys)
    ensures AgreeOff(Apply(m1, u), Apply(m2, u), keys - Mentions(u))
    ensures AgreeOff(m1, Apply(m1, u), Mentions(u))
  {
  }

  // What the range mentions it decides: disagreement before it survives only on other keys.
  lemma {:induction false} RangeDecides<V>(m1: map<AddressKey, V>, m2: map<AddressKey, V>, keys: set<AddressKey>,
                                           units: int -> Unit<V>, published: set<int>, lo: int, hi: int)
    requires AgreeOff(m1, m2, keys)
    ensures AgreeOff(ApplyRange(m1, units, published, lo, hi), ApplyRange(m2, units, published, lo, hi),
                     keys - Mentioned(units, published, lo, hi))
    decreases hi - lo
  {
    hide AgreeOff, Apply, Mentions;
    if lo < hi {
      RangeDecides(m1, m2, keys, units, published, lo, hi - 1);
      var before := keys - Mentioned(units, published, lo, hi - 1);
      if hi - 1 in published {
        ApplyAgrees(ApplyRange(m1, units, published, lo, hi - 1), ApplyRange(m2, units, published, lo, hi - 1), before,
                    units(hi - 1));
        assert before - Mentions(units(hi - 1)) == keys - Mentioned(units, published, lo, hi);
      } else {
        assert before == keys - Mentioned(units, published, lo, hi);
      }
    } else {
      assert keys - Mentioned(units, published, lo, hi) == keys;
    }
  }

  lemma AgreeTrans<V>(a: map<AddressKey, V>, b: map<AddressKey, V>, c: map<AddressKey, V>, ks: set<AddressKey>,
                      ls: set<AddressKey>)
    requires AgreeOff(a, b, ks) && AgreeOff(b, c, ls)
    ensures AgreeOff(a, c, ks + ls)
  {
  }

  lemma {:induction false} RangeTouches<V>(m: map<AddressKey, V>, units: int -> Unit<V>, published: set<int>, lo: int,
                                           hi: int)
    ensures AgreeOff(m, ApplyRange(m, units, published, lo, hi), Mentioned(units, published, lo, hi))
    decreases hi - lo
  {
    hide Apply, Mentions;
    if lo < hi {
      RangeTouches(m, units, published, lo, hi - 1);
      var before := ApplyRange(m, units, published, lo, hi - 1);
      if hi - 1 in published {
        ApplyAgrees(before, before, {}, units(hi - 1));
        AgreeTrans(m, before, Apply(before, units(hi - 1)), Mentioned(units, published, lo, hi - 1),
                   Mentions(units(hi - 1)));
      }
    }
  }

  lemma {:induction false} RangeSplit<V>(m: map<AddressKey, V>, units: int -> Unit<V>, published: set<int>, lo: int,
                                         mid: int, hi: int)
    requires lo <= mid <= hi
    ensures ApplyRange(m, units, published, lo, hi)
            == ApplyRange(ApplyRange(m, units, published, lo, mid), units, published, mid, hi)
    decreases hi - mid
  {
    hide Apply;
    if mid < hi {
      RangeSplit(m, units, published, lo, mid, hi - 1);
    }
  }

  // Only the positions inside the range matter.
  lemma {:induction false} RangeSame<V>(m: map<AddressKey, V>, units: int -> Unit<V>, p: set<int>, q: set<int>, lo: int,
                                        hi: int)
    requires forall i :: lo <= i < hi ==> (i in p <==> i in q)
    ensures ApplyRange(m, units, p, lo, hi) == ApplyRange(m, units, q, lo, hi)
    ensures Mentioned(units, p, lo, hi) == Mentioned(units, q, lo, hi)
    decreases hi - lo
  {
    hide Apply, Mentions;
    if lo < hi {
      RangeSame(m, units, p, q, lo, hi - 1);
    }
  }

  lemma {:induction false} MentionedMonotone<V>(units: int -> Unit<V>, p: set<int>, q: set<int>, lo: int, hi: int)
    requires forall i :: lo <= i < hi && i in p ==> i in q
    ensures Mentioned(units, p, lo, hi) <= Mentioned(units, q, lo, hi)
    decreases hi - lo
  {
    hide Mentions;
    if lo < hi {
      MentionedMonotone(units, p, q, lo, hi - 1);
    }
  }

  lemma {:induction false} MentionedAt<V>(units: int -> Unit<V>, published: set<int>, lo: int, hi: int, i: int)
    requires lo <= i < hi && i in published
    ensures Mentions(units(i)) <= Mentioned(units, published, lo, hi)
    decreases hi - lo
  {
    hide Mentions;
    if i < hi - 1 {
      MentionedAt(units, published, lo, hi - 1, i);
    }
  }

  // A wider range that sees at least as much mentions at least as much.
  lemma {:induction false} MentionedInside<V>(units: int -> Unit<V>, p: set<int>, q: set<int>, lo: int, hi: int,
                                              from: int, to: int)
    requires from <= lo && hi <= to && forall i :: lo <= i < hi && i in p ==> i in q
    ensures Mentioned(units, p, lo, hi) <= Mentioned(units, q, from, to)
    decreases hi - lo
  {
    hide Mentions;
    if lo < hi {
      MentionedInside(units, p, q, lo, hi - 1, from, to);
      if hi - 1 in p {
        MentionedAt(units, q, from, to, hi - 1);
      }
    }
  }

  // A state that differs only on keys the range mentions is brought back by the range.
  lemma RangeHeals<V>(m1: map<AddressKey, V>, m2: map<AddressKey, V>, keys: set<AddressKey>,
                      units: int -> Unit<V>, published: set<int>, lo: int, hi: int)
    requires AgreeOff(m1, m2, keys) && keys <= Mentioned(units, published, lo, hi)
    ensures ApplyRange(m1, units, published, lo, hi) == ApplyRange(m2, units, published, lo, hi)
  {
    hide AgreeOff, ApplyRange, Mentioned;
    RangeDecides(m1, m2, keys, units, published, lo, hi);
    AgreeEverywhere(ApplyRange(m1, units, published, lo, hi), ApplyRange(m2, units, published, lo, hi),
                    keys - Mentioned(units, published, lo, hi));
  }

  // ----- Sequences of runs -----

  // A run sees the positions of its window that are published by then.
  datatype Run = Run(lo: int, hi: int, published: set<int>)

  // The last published unit that mentions a key decides it.
  lemma {:induction false} LastUnitDecides<V>(m: map<AddressKey, V>, units: int -> Unit<V>, published: set<int>,
                                              lo: int, hi: int, p: int, k: AddressKey)
    requires lo <= p < hi && p in published && k in Mentions(units(p))
    requires forall q :: p < q < hi && q in published ==> k !in Mentions(units(q))
    ensures match units(p)
            case Remove(_) => k !in ApplyRange(m, units, published, lo, hi)
            case Override(rows) =>
              k in rows && k in ApplyRange(m, units, published, lo, hi)
              && ApplyRange(m, units, published, lo, hi)[k] == rows[k]
  {
    var before := ApplyRange(m, units, published, lo, p);
    var done := ApplyRange(m, units, published, lo, p + 1);
    assert done == Apply(before, units(p));
    hide ApplyRange, Mentioned;
    RangeSplit(m, units, published, lo, p + 1, hi);
    NotMentioned(units, published, p + 1, hi, k);
    RangeTouches(done, units, published, p + 1, hi);
  }

  lemma {:induction false} NotMentioned<V>(units: int -> Unit<V>, published: set<int>, lo: int, hi: int, k: AddressKey)
    requires forall q :: lo <= q < hi && q in published ==> k !in Mentions(units(q))
    ensures k !in Mentioned(units, published, lo, hi)
    decreases hi - lo
  {
    hide Mentions;
    if lo < hi {
      NotMentioned(units, published, lo, hi - 1, k);
    }
  }

  predicate Covers(r: Run, i: int) {
    r.lo <= i < r.hi
  }

  predicate Sees(r: Run, i: int) {
    Covers(r, i) && i in r.published
  }

  function RunsEffect<V>(m: map<AddressKey, V>, units: int -> Unit<V>, runs: seq<Run>): map<AddressKey, V> {
    if runs == [] then m else
      var r := runs[|runs| - 1];
      ApplyRange(RunsEffect(m, units, runs[..|runs| - 1]), units, r.published, r.lo, r.hi)
  }

  function Coverage(runs: seq<Run>): set<int> {
    set r, i | r in runs && i in r.published && Sees(r, i) :: i
  }

  // Window ends never move back, and a file once seen is seen by every later run whose window has it.
  ghost predicate Advancing(runs: seq<Run>) {
    && (forall a :: 0 <= a < |runs| ==> runs[a].lo <= runs[a].hi)
    && (forall a, b :: 0 <= a < b < |runs| ==> runs[a].hi <= runs[b].hi)
    && (forall a, b, i :: 0 <= a < b < |runs| && Sees(runs[a], i) && runs[b].lo <= i ==> i in runs[b].published)
  }

  // One more run on top of what the earlier ones add up to.
  lemma OneMoreRun<V>(m: map<AddressKey, V>, units: int -> Unit<V>, seen: set<int>, r: Run, lo: int)
    requires lo <= r.lo <= r.hi
    requires forall i :: i in seen ==> i < r.hi
    requires forall i :: i in seen && r.lo <= i ==> i in r.published
    ensures ApplyRange(ApplyRange(m, units, seen, lo, r.hi), units, r.published, r.lo, r.hi)
            == ApplyRange(m, units, seen + (set i | i in r.published && Sees(r, i)), lo, r.hi)
  {
    hide ApplyRange, Mentioned, AgreeOff;
    var all := seen + (set i | i in r.published && Sees(r, i));
    var older := ApplyRange(m, units, seen, lo, r.lo);
    RangeSplit(m, units, seen, lo, r.lo, r.hi);
    RangeTouches(older, units, seen, r.lo, r.hi);
    MentionedMonotone(units, seen, r.published, r.lo, r.hi);
    RangeHeals(older, ApplyRange(older, units, seen, r.lo, r.hi), Mentioned(units, seen, r.lo, r.hi), units,
               r.published, r.lo, r.hi);
    RangeSplit(m, units, all, lo, r.lo, r.hi);
    RangeSame(m, units, all, seen, lo, r.lo);
    RangeSame(older, units, all, r.published, r.lo, r.hi);
  }

  lemma CoverageSnoc(runs: seq<Run>)
    requires runs != []
    ensures var r := runs[|runs| - 1];
            Coverage(runs) == Coverage(runs[..|runs| - 1]) + (set i | i in r.published && Sees(r, i))
  {
    assert runs == runs[..|runs| - 1] + [runs[|runs| - 1]];
  }

  lemma {:induction false} RangeBeyond<V>(m: map<AddressKey, V>, units: int -> Unit<V>, published: set<int>, lo: int,
                                          mid: int, hi: int)
    requires lo <= mid <= hi && forall i :: i in published ==> i < mid
    ensures ApplyRange(m, units, published, lo, hi) == ApplyRange(m, units, published, lo, mid)
    decreases hi - mid
  {
    hide Apply;
    if mid < hi {
      RangeBeyond(m, units, published, lo, mid, hi - 1);
    }
  }

  lemma AdvancingInit(runs: seq<Run>)
    requires Advancing(runs) && runs != []
    ensures Advancing(runs[..|runs| - 1])
  {
  }

  lemma CoverageBound(runs: seq<Run>)
    requires Advancing(runs) && runs != []
    ensures forall i :: i in Coverage(runs) ==> i < runs[|runs| - 1].hi
  {
    var n := |runs| - 1;
    forall i | i in Coverage(runs) ensures i < runs[n].hi {
      var r :| r in runs && Sees(r, i);
      var a :| 0 <= a <= n && runs[a] == r;
    }
  }

  lemma CoveredIsPublished(runs: seq<Run>)
    requires Advancing(runs) && runs != []
    ensures var n := |runs| - 1;
            forall i :: i in Coverage(runs[..n]) && runs[n].lo <= i ==> i in runs[n].published
  {
    var n := |runs| - 1;
    forall i | i in Coverage(runs[..n]) && runs[n].lo <= i ensures i in runs[n].published {
      var r :| r in runs[..n] && Sees(r, i);
      var a :| 0 <= a < n && runs[..n][a] == r;
    }
  }

  // However the windows overlap, each file seen by some run takes effect once, in calendar order.
  lemma {:induction false} OverlapsLoseNothing<V>(m: map<AddressKey, V>, units: int -> Unit<V>, runs: seq<Run>, lo: int)
    requires Advancing(runs) && runs != []
    requires forall r :: r in runs ==> lo <= r.lo
    ensures RunsEffect(m, units, runs) == ApplyRange(m, units, Coverage(runs), lo, runs[|runs| - 1].hi)
  {
    hide ApplyRange, Coverage, Advancing;
    var n := |runs| - 1;
    var r := runs[n];
    assert lo <= r.lo <= r.hi && (n > 0 ==> lo <= runs[n - 1].lo <= runs[n - 1].hi <= r.hi) by {
      RunBounds(runs, lo);
    }
    CoverageSnoc(runs);
    if n == 0 {
      NothingCovered(runs[..0]);
      assert RunsEffect(m, units, runs) == ApplyRange(m, units, r.published, r.lo, r.hi);
      RangeEmpty(m, units, lo, r.hi);
      OneMoreRun(m, units, {}, r, lo);
      assert Coverage(runs) == {} + (set i | i in r.published && Sees(r, i));
    } else {
      AdvancingInit(runs);
      OverlapsLoseNothing(m, units, runs[..n], lo);
      CoverageBound(runs[..n]);
      RangeBeyond(m, units, Coverage(runs[..n]), lo, runs[n - 1].hi, r.hi);
      CoveredIsPublished(runs);
      OneMoreRun(m, units, Coverage(runs[..n]), r, lo);
    }
  }

  lemma NothingCovered(runs: seq<Run>)
    requires runs == []
    ensures Coverage(runs) == {}
  {
  }

  lemma RangeEmpty<V>(m: map<AddressKey, V>, units: int -> Unit<V>, lo: int, hi: int)
    ensures ApplyRange(m, units, {}, lo, hi) == m
    decreases hi - lo
  {
    if lo < hi {
      RangeEmpty(m, units, lo, hi - 1);
    }
  }

  lemma RunBounds(runs: seq<Run>, lo: int)
    requires Advancing(runs) && runs != [] && forall r :: r in runs ==> lo <= r.lo
    ensures var n := |runs| - 1;
            lo <= runs[n].lo <= runs[n].hi && (n > 0 ==> lo <= runs[n - 1].lo <= runs[n - 1].hi <= runs[n].hi)
  {
    var n := |runs| - 1;
    assert runs[n] in runs;
    if n > 0 {
      assert runs[n - 1] in runs;
    }
  }

  // With no gap between consecutive windows, every position is in some window.
  lemma {:induction false} NoGapCovers(runs: seq<Run>, i: int)
    requires Advancing(runs) && runs != []
    requires forall a :: 0 <= a < |runs| - 1 ==> runs[a + 1].lo <= runs[a].hi
    requires runs[0].lo <= i < runs[|runs| - 1].hi
    ensures exists a :: 0 <= a < |runs| && Covers(runs[a], i)
  {
    var n := |runs| - 1;
    if runs[n].lo <= i {
      assert Covers(runs[n], i);
    } else {
      assert n > 0;
      NoGapCovers(runs[..n], i);
      var a :| 0 <= a < n && Covers(runs[..n][a], i);
      assert Covers(runs[a], i);
    }
  }

  // The same from the earliest start on: a run that starts before the first one reaches at least as far.
  lemma NoGapCoversAll(runs: seq<Run>, lo: int, i: int)
    requires Advancing(runs) && runs != []
    requires forall a :: 0 <= a < |runs| - 1 ==> runs[a + 1].lo <= runs[a].hi
    requires exists a :: 0 <= a < |runs| && runs[a].lo == lo
    requires lo <= i < runs[|runs| - 1].hi
    ensures exists a :: 0 <= a < |runs| && Covers(runs[a], i)
  {
    if runs[0].lo <= i {
      NoGapCovers(runs, i);
    } else {
      var a :| 0 <= a < |runs| && runs[a].lo == lo;
      assert runs[0].lo <= runs[0].hi && (0 < a ==> runs[0].hi <= runs[a].hi);
      assert Covers(runs[a], i);
    }
  }

  // Windows without gaps, each file of the archive visible to some run that covers it: the outcome is every file of the
  // whole period applied exactly once in calendar order. Files that were never published do not matter.
  lemma EveryUnitOnce<V>(m: map<AddressKey, V>, units: int -> Unit<V>, runs: seq<Run>, everything: set<int>, lo: int)
    requires Advancing(runs) && runs != []
    requires forall a :: 0 <= a < |runs| - 1 ==> runs[a + 1].lo <= runs[a].hi
    requires (forall r :: r in runs ==> lo <= r.lo) && exists a :: 0 <= a < |runs| && runs[a].lo == lo
    requires forall a, i :: 0 <= a < |runs| && Covers(runs[a], i) && i in everything ==> i in Coverage(runs)
    requires Coverage(runs) <= everything
    ensures RunsEffect(m, units, runs) == ApplyRange(m, units, everything, lo, runs[|runs| - 1].hi)
  {
    hide ApplyRange;
    var hi := runs[|runs| - 1].hi;
    OverlapsLoseNothing(m, units, runs, lo);
    forall i | lo <= i < hi ensures i in Coverage(runs) <==> i in everything {
      NoGapCoversAll(runs, lo, i);
      var a :| 0 <= a < |runs| && Covers(runs[a], i);
    }
    RangeSame(m, units, Coverage(runs), everything, lo, hi);
  }
}

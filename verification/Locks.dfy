// internal/store/lock.go: the single lock row, and the protocol of processes taking and releasing it.

module Locks {
  import opened Seqs

  // Two hours, in seconds.
  const LOCK_TTL: int := 7200

  datatype LockRow = LockRow(locked: bool, holder: string, acquiredAt: int)

  // The row inserted by the first process: unlocked, at the epoch.
  const FREE_ROW := LockRow(false, "", 0)

  // The condition of the UPDATE: unlocked, or locked longer ago than the TTL.
  predicate Takeable(row: LockRow, now: int) {
    !row.locked || row.acquiredAt < now - LOCK_TTL
  }

  function Released(row: LockRow, holder: string): LockRow {
    if row.holder == holder then row.(locked := false, holder := "") else row
  }

  datatype Reply = Acquired | Busy | Failed

  // Calls that concern holding the lock.
  datatype Call = Took(holder: string) | Gave(holder: string)

  class LockTable {
    var row: Option<LockRow>

    // Successful acquisitions, and calls of the release closure, in order.
    ghost var calls: seq<Call>

    ghost function Current(): LockRow
      reads this
    {
      if row.Some? then row.value else FREE_ROW
    }

    constructor ()
      ensures row == None && calls == [] && !Current().locked
    {
      row := None;
      calls := [];
    }

    // An error may reach the caller although the UPDATE took effect.
    method Acquire(holder: string, now: int) returns (reply: Reply)
      modifies this
      ensures match reply
              case Acquired => Takeable(old(Current()), now) && row == Some(LockRow(true, holder, now))
              case Busy => !Takeable(old(Current()), now) && Current() == old(Current())
              case Failed =>
                || Current() == old(Current())
                || (Takeable(old(Current()), now) && Current() == LockRow(true, holder, now))
      ensures reply == Acquired ==> !old(Current()).locked || old(Current()).acquiredAt + 7200 < now
      ensures reply == Busy ==> old(Current()).locked && now <= old(Current()).acquiredAt + 7200
      ensures calls == if reply == Acquired then old(calls) + [Took(holder)] else old(calls)
    {
      var ok := *;
      if !ok {
        return Failed;
      }
      if row.None? {
        row := Some(FREE_ROW);
      }
      var sent := *;
      if !sent {
        return Failed;
      }
      var affected := Takeable(row.value, now);
      if affected {
        row := Some(LockRow(true, holder, now));
      }
      var answered := *;
      if !answered {
        return Failed;
      }
      reply := if affected then Acquired else Busy;
      if affected {
        calls := calls + [Took(holder)];
      }
    }

    // The closure Acquire returns: for the holder in the row the lock is free again, whenever the next one asks; for
    // any other caller nothing changes.
    method Release(holder: string) returns (ok: bool)
      modifies this
      ensures ok ==> Current() == Released(old(Current()), holder)
      ensures !ok ==> Current() == old(Current()) || Current() == Released(old(Current()), holder)
      ensures ok && old(Current()).holder == holder ==> !Current().locked && forall now :: Takeable(Current(), now)
      ensures old(Current()).holder != holder ==> Current() == old(Current())
      ensures old(row.Some?) ==> row.Some?
      ensures calls == old(calls) + [Gave(holder)]
    {
      calls := calls + [Gave(holder)];
      var sent := *;
      if sent && row.Some? {
        row := Some(Released(row.value, holder));
      }
      var answered := *;
      ok := sent && answered;
    }
  }
}

// Processes around the lock row: any number of attempts, each with its own holder id, interleaved with the
// clock, crashes, lost replies, and releases that come late or not at all.
module LockProtocol {
  import opened Locks

  // asking: attempts that have read the clock and not yet run the UPDATE, with the time read.
  // holding: attempts that believe they hold the lock, with their acquired_at.
  datatype State = State(row: LockRow, clock: int, asking: map<string, int>, holding: map<string, int>,
                         used: set<string>)

  datatype Step =
    | Tick(to: int)
    | Ask(h: string)
    | Grant(h: string)
    | Refuse(h: string)
    | AskFails(h: string, tookEffect: bool)
    | Release(h: string)
    | ReleaseFails(h: string, tookEffect: bool)
    | Crash(h: string)

  const START := State(FREE_ROW, 0, map[], map[], {})

  predicate Enabled(s: State, step: Step) {
    match step
    case Tick(to) => s.clock <= to
    case Ask(h) => h != "" && h !in s.used
    case Grant(h) => h in s.asking && Takeable(s.row, s.asking[h])
    case Refuse(h) => h in s.asking && !Takeable(s.row, s.asking[h])
    case AskFails(h, tookEffect) => h in s.asking && (tookEffect ==> Takeable(s.row, s.asking[h]))
    case Release(h) => h in s.holding
    case ReleaseFails(h, _) => h in s.holding
    case Crash(h) => h in s.holding || h in s.asking
  }

  function Do(s: State, step: Step): State
    requires Enabled(s, step)
  {
    match step
    case Tick(to) => s.(clock := to)
    case Ask(h) => s.(asking := s.asking[h := s.clock], used := s.used + {h})
    case Grant(h) => s.(row := LockRow(true, h, s.asking[h]), asking := s.asking - {h},
                        holding := s.holding[h := s.asking[h]])
    case Refuse(h) => s.(asking := s.asking - {h})
    case AskFails(h, tookEffect) =>
      s.(row := if tookEffect then LockRow(true, h, s.asking[h]) else s.row, asking := s.asking - {h})
    case Release(h) => s.(row := Released(s.row, h), holding := s.holding - {h})
    case ReleaseFails(h, tookEffect) =>
      s.(row := if tookEffect then Released(s.row, h) else s.row, holding := s.holding - {h})
    case Crash(h) => s.(asking := s.asking - {h}, holding := s.holding - {h})
  }

  predicate Legal(s: State, steps: seq<Step>)
    decreases |steps|
  {
    steps == [] || (Enabled(s, steps[0]) && Legal(Do(s, steps[0]), steps[1..]))
  }

  function After(s: State, steps: seq<Step>): State
    requires Legal(s, steps)
    decreases |steps|
  {
    if steps == [] then s else After(Do(s, steps[0]), steps[1..])
  }

  predicate Recorded(s: State, h: string) {
    h in s.holding && s.row == LockRow(true, h, s.holding[h])
  }

  predicate Overdue(s: State, h: string) {
    h in s.holding && s.holding[h] + LOCK_TTL < s.clock
  }

  ghost predicate Inv(s: State) {
    && (forall h :: h in s.asking ==> s.asking[h] <= s.clock && h in s.used && h !in s.holding && s.row.holder != h)
    && (forall h :: h in s.holding ==> s.holding[h] <= s.clock && h in s.used && h != "")
    && (s.row.holder == "" || s.row.holder in s.used)
    && (forall h :: h in s.holding ==> Recorded(s, h) || Overdue(s, h))
    && "" !in s.used
  }

  lemma InvKept(s: State, step: Step)
    requires Inv(s) && Enabled(s, step)
    ensures Inv(Do(s, step))
  {
  }

  lemma {:induction false} InvAlways(s: State, steps: seq<Step>)
    requires Inv(s) && Legal(s, steps)
    ensures Inv(After(s, steps))
    decreases |steps|
  {
    if steps != [] {
      InvKept(s, steps[0]);
      InvAlways(Do(s, steps[0]), steps[1..]);
    }
  }

  // On every run: who believes it holds the lock without being the recorded holder acquired it more than the TTL ago.
  lemma LockSafety(steps: seq<Step>, h: string)
    requires Legal(START, steps) && h in After(START, steps).holding
    ensures Recorded(After(START, steps), h) || Overdue(After(START, steps), h)
  {
    InvAlways(START, steps);
  }

  // Two believers that are both within the TTL never coexist.
  lemma MutualExclusionWithinTTL(steps: seq<Step>, h: string, g: string)
    requires Legal(START, steps)
    requires h in After(START, steps).holding && g in After(START, steps).holding
    requires !Overdue(After(START, steps), h) && !Overdue(After(START, steps), g)
    ensures h == g
  {
    InvAlways(START, steps);
  }

  // If nobody overstays the TTL, at most one process believes it holds the lock.
  lemma MutualExclusion(steps: seq<Step>)
    requires Legal(START, steps)
    requires forall h :: h in After(START, steps).holding ==> !Overdue(After(START, steps), h)
    ensures |After(START, steps).holding| <= 1
  {
    var s := After(START, steps);
    if s.holding.Keys != {} {
      var h :| h in s.holding;
      forall g | g in s.holding ensures g == h {
        MutualExclusionWithinTTL(steps, h, g);
      }
      assert s.holding.Keys == {h};
      assert |s.holding| == |s.holding.Keys|;
    }
  }

  // The recorded holder stays recorded through every step that is not its own, unless its TTL has run out.
  lemma NotTakenWithinTTL(s: State, step: Step, h: string)
    requires Inv(s) && Enabled(s, step) && Recorded(s, h)
    requires h in Do(s, step).holding
    ensures Recorded(Do(s, step), h) || Overdue(Do(s, step), h)
    ensures !Recorded(Do(s, step), h) ==> (step.Grant? || step.AskFails?) && step.h != h
  {
  }

  // A preempted holder's late release, answered or not, leaves its successor's row alone.
  lemma LateReleaseHarmless(steps: seq<Step>, h: string, tookEffect: bool)
    requires Legal(START, steps)
    requires h in After(START, steps).holding && !Recorded(After(START, steps), h)
    ensures Do(After(START, steps), Release(h)).row == After(START, steps).row
    ensures Do(After(START, steps), ReleaseFails(h, tookEffect)).row == After(START, steps).row
  {
    InvAlways(START, steps);
    HolderIsRecorded(START, steps, h);
  }

  // The row names a believer only together with the time that believer acquired it, and locked.
  ghost predicate NamesMatch(s: State) {
    && Inv(s)
    && forall h :: h in s.holding && s.row.holder == h ==> Recorded(s, h)
  }

  lemma {:induction false} HolderIsRecorded(s: State, steps: seq<Step>, h: string)
    requires NamesMatch(s) && Legal(s, steps) && h in After(s, steps).holding
    ensures After(s, steps).row.holder == h ==> Recorded(After(s, steps), h)
    decreases |steps|
  {
    if steps != [] {
      InvKept(s, steps[0]);
      HolderIsRecorded(Do(s, steps[0]), steps[1..], h);
    }
  }

  // Once the recorded holder has released, no attempt is refused, be it under way or still to come.
  lemma ReleaseFrees(steps: seq<Step>, h: string, now: int, g: string)
    requires Legal(START, steps) && Recorded(After(START, steps), h)
    requires After(START, steps).clock <= now
    ensures var s := After(START, steps);
            && Enabled(s, Release(h)) && Enabled(Do(s, Release(h)), Tick(now))
            && var t := Do(Do(s, Release(h)), Tick(now));
               && (g in s.asking ==> Enabled(t, Grant(g)) && !Enabled(t, Refuse(g)))
               && (g != "" && g !in s.used ==>
                     && Enabled(t, Ask(g)) && Enabled(Do(t, Ask(g)), Grant(g)) && !Enabled(Do(t, Ask(g)), Refuse(g)))
  {
    InvAlways(START, steps);
  }

  // A crash never blocks the lock for ever, and never frees it early: an attempt that reads the clock
  // succeeds exactly when the row is unlocked or more than a TTL old.
  lemma CrashedHolderIsReplaced(s: State, crashed: string, h: string, now: int)
    requires Inv(s) && Recorded(s, crashed) && s.clock <= now && h != "" && h !in s.used
    ensures var t := Do(Do(Do(s, Crash(crashed)), Tick(now)), Ask(h));
            && (Enabled(t, Grant(h)) <==> s.holding[crashed] + LOCK_TTL < now)
            && (Enabled(t, Refuse(h)) <==> now <= s.holding[crashed] + LOCK_TTL)
  {
  }
}

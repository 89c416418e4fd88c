/**
  The bus channel of the flash simulator: a table of the time slots in use, in which every transfer is given
  the first slot that is free. Times are exact reals here.
 */
module SsdChannel {

  const BUS_CHANNEL_FREE_FLAG := -1.0

  /** lock_times: the bus is taken from `lockTime` up to, but not including, `unlockTime`. */
  datatype LockTimes = LockTimes(lockTime: real, unlockTime: real)

  predicate Apart(a: LockTimes, b: LockTimes) {
    a.unlockTime <= b.lockTime || b.unlockTime <= a.lockTime
  }

  /** The slots of the table are proper intervals, all different, and no two of them overlap. */
  ghost predicate Disjoint(t: seq<LockTimes>) {
    && (forall a | a in t :: a.lockTime < a.unlockTime)
    && (forall i, j | 0 <= i < j < |t| :: t[i] != t[j])
    && (forall a, b | a in t && b in t :: a == b || Apart(a, b))
  }

  /** The bus is free from `x` on for `duration`. */
  ghost predicate FreeAt(t: seq<LockTimes>, x: real, duration: real) {
    forall a | a in t :: Apart(a, LockTimes(x, x + duration))
  }

  /** A transfer could run from `x` on: not too early, and clear of every slot that has not expired. */
  ghost predicate Possible(t: seq<LockTimes>, startTime: real, x: real, duration: real) {
    x >= startTime && forall a | a in t && a.unlockTime > startTime :: Apart(a, LockTimes(x, x + duration))
  }

  /** `x` is the first time from which it could. */
  ghost predicate FirstPossible(t: seq<LockTimes>, startTime: real, x: real, duration: real) {
    Possible(t, startTime, x, duration) && forall y | Possible(t, startTime, y, duration) :: y >= x
  }

  predicate Sorted(t: seq<LockTimes>) {
    forall i, j | 0 <= i < j < |t| :: t[i].lockTime <= t[j].lockTime
  }

  ghost predicate AllBeyond(t: seq<LockTimes>, startTime: real) {
    forall a | a in t :: a.unlockTime > startTime
  }

  // ---------- the specification ----------

  /** The slots that have not expired at `startTime`. */
  function Alive(t: seq<LockTimes>, startTime: real): (alive: seq<LockTimes>)
    ensures forall a :: a in alive <==> a in t && a.unlockTime > startTime
  {
    if |t| == 0 then []
    else
      var rest := Alive(t[..|t| - 1], startTime);
      assert t == t[..|t| - 1] + [t[|t| - 1]];
      if t[|t| - 1].unlockTime <= startTime then rest else rest + [t[|t| - 1]]
  }

  /** First gap of at least `duration` after slot `i`, or the end of the last slot. */
  function GapFrom(t: seq<LockTimes>, i: nat, startTime: real, duration: real): real
    requires i < |t|
    decreases |t| - i
  {
    if i + 1 == |t| then t[i].unlockTime
    else if t[i].unlockTime >= startTime && t[i + 1].lockTime - t[i].unlockTime >= duration then t[i].unlockTime
    else GapFrom(t, i + 1, startTime, duration)
  }

  /** The time at which a transfer is scheduled, given the sorted table. */
  function Grant(t: seq<LockTimes>, startTime: real, duration: real): real {
    if |t| == 0 then startTime
    else if t[0].lockTime > startTime && t[0].lockTime - startTime >= duration then startTime
    else GapFrom(t, 0, startTime, duration)
  }

  /** Any sort of the slots that have not expired; the order of equal lock times is not known. */
  ghost predicate SortOf(s: seq<LockTimes>, t: seq<LockTimes>, startTime: real) {
    Sorted(s) && multiset(s) == multiset(Alive(t, startTime))
  }

  /** What one call of lock does to the table. */
  ghost predicate Locks(t: seq<LockTimes>, startTime: real, duration: real, t': seq<LockTimes>, grant: real) {
    |t'| > 0 && t'[|t'| - 1] == LockTimes(grant, grant + duration)
    && SortOf(t'[..|t'| - 1], t, startTime) && grant == Grant(t'[..|t'| - 1], startTime, duration)
  }

  // ---------- one call ----------

  lemma {:induction false} AliveDistinct(t: seq<LockTimes>, startTime: real)
    requires forall i, j | 0 <= i < j < |t| :: t[i] != t[j]
    ensures forall i, j | 0 <= i < j < |Alive(t, startTime)| :: Alive(t, startTime)[i] != Alive(t, startTime)[j]
  {
    if |t| > 0 { AliveDistinct(t[..|t| - 1], startTime); }
  }

  lemma {:induction false} CountOnce(t: seq<LockTimes>, a: LockTimes)
    requires forall i, j | 0 <= i < j < |t| :: t[i] != t[j]
    ensures multiset(t)[a] <= 1
  {
    if |t| > 0 {
      assert t == t[..|t| - 1] + [t[|t| - 1]];
      CountOnce(t[..|t| - 1], a);
      if a == t[|t| - 1] { assert a !in t[..|t| - 1]; }
    }
  }

  lemma {:induction false} CountTwice(s: seq<LockTimes>, i: nat, j: nat)
    requires i < j < |s| && s[i] == s[j]
    ensures multiset(s)[s[i]] >= 2
  {
    assert s == s[..j] + [s[j]] + s[j + 1..];
    assert s[i] in s[..j];
  }

  /** Sorting what has not expired keeps the table disjoint. */
  lemma {:induction false} SortKeeps(s: seq<LockTimes>, t: seq<LockTimes>, startTime: real)
    requires Disjoint(t) && SortOf(s, t, startTime)
    ensures Disjoint(s) && AllBeyond(s, startTime)
    ensures forall a :: a in s <==> a in t && a.unlockTime > startTime
  {
    var alive := Alive(t, startTime);
    AliveDistinct(t, startTime);
    forall a ensures a in s <==> a in alive {
      assert a in s <==> a in multiset(s);
      assert a in alive <==> a in multiset(alive);
    }
    forall i, j | 0 <= i < j < |s| ensures s[i] != s[j] {
      if s[i] == s[j] {
        CountTwice(s, i, j);
        CountOnce(alive, s[i]);
      }
    }
  }

  /** In a sorted disjoint table each slot ends before the next one begins. */
  lemma {:induction false} InOrder(s: seq<LockTimes>, i: nat, j: nat)
    requires Sorted(s) && Disjoint(s) && i < j < |s|
    ensures s[i].unlockTime <= s[j].lockTime
  {
    assert s[i] in s && s[j] in s && s[i] != s[j];
  }

  /** Looking from slot `i` on, with no room before its end: the first time that is free. */
  lemma {:induction false} GapIsFirst(s: seq<LockTimes>, i: nat, startTime: real, duration: real)
    requires Sorted(s) && Disjoint(s) && AllBeyond(s, startTime) && i < |s| && duration > 0.0
    requires forall x | x >= startTime && FreeAt(s, x, duration) :: x >= s[i].unlockTime
    ensures var g := GapFrom(s, i, startTime, duration);
            g > startTime && FreeAt(s, g, duration) && forall x | x >= startTime && FreeAt(s, x, duration) :: x >= g
    decreases |s| - i
  {
    assert s[i] in s;
    if i + 1 == |s| || s[i + 1].lockTime - s[i].unlockTime >= duration {
      forall a | a in s ensures Apart(a, LockTimes(s[i].unlockTime, s[i].unlockTime + duration)) {
        var k :| 0 <= k < |s| && s[k] == a;
        if k < i { InOrder(s, k, i); }
        if k > i { assert s[i + 1].lockTime <= s[k].lockTime; }
      }
    } else {
      InOrder(s, i, i + 1);
      forall x | x >= startTime && FreeAt(s, x, duration) ensures x >= s[i + 1].unlockTime {
        assert s[i + 1] in s;
        assert Apart(s[i + 1], LockTimes(x, x + duration));
      }
      GapIsFirst(s, i + 1, startTime, duration);
    }
  }

  /** The grant is a free time, and the first one from `startTime` on. */
  lemma {:induction false} GrantIsFirst(s: seq<LockTimes>, startTime: real, duration: real)
    requires Sorted(s) && Disjoint(s) && AllBeyond(s, startTime) && duration > 0.0
    ensures var g := Grant(s, startTime, duration);
            g >= startTime && FreeAt(s, g, duration) && forall x | x >= startTime && FreeAt(s, x, duration) :: x >= g
  {
    if |s| > 0 {
      assert s[0] in s;
      if s[0].lockTime - startTime >= duration {
        forall a | a in s ensures Apart(a, LockTimes(startTime, startTime + duration)) {
          var k :| 0 <= k < |s| && s[k] == a;
          assert s[0].lockTime <= s[k].lockTime;
        }
      } else {
        forall x | x >= startTime && FreeAt(s, x, duration) ensures x >= s[0].unlockTime {
          assert Apart(s[0], LockTimes(x, x + duration));
        }
        GapIsFirst(s, 0, startTime, duration);
      }
    }
  }

  /**
    One call, on a disjoint table and for a positive duration: the table stays disjoint, and the slot granted
    is the first that does not overlap one that has not expired.
   */
  lemma {:induction false} LockStep(t: seq<LockTimes>, startTime: real, duration: real, t': seq<LockTimes>, grant: real)
    requires Disjoint(t) && Locks(t, startTime, duration, t', grant) && duration > 0.0
    ensures Disjoint(t') && grant >= startTime
    ensures forall a :: a in t' <==> (a in t && a.unlockTime > startTime) || a == LockTimes(grant, grant + duration)
    ensures FirstPossible(t, startTime, grant, duration)
  {
    var s := t'[..|t'| - 1];
    assert t' == s + [t'[|t'| - 1]];
    SortKeeps(s, t, startTime);
    GrantIsFirst(s, startTime, duration);
    assert FreeAt(s, grant, duration);
    forall x | Possible(t, startTime, x, duration) ensures x >= grant {
      assert FreeAt(s, x, duration);
    }
  }

  // ---------- whole runs ----------

  /** One call of lock in a run, with the table it leaves and the time it grants. */
  datatype Call = Call(startTime: real, duration: real, table: seq<LockTimes>, grant: real)

  function SlotOf(c: Call): LockTimes {
    LockTimes(c.grant, c.grant + c.duration)
  }

  function TableBefore(run: seq<Call>, i: nat): seq<LockTimes>
    requires i <= |run|
  {
    if i == 0 then [] else run[i - 1].table
  }

  /** A run of calls with positive durations, from the empty table. */
  ghost predicate IsRun(run: seq<Call>) {
    forall i: nat {:trigger run[i]} | i < |run| ::
      run[i].startTime >= 0.0 && run[i].duration > 0.0 && Locks(TableBefore(run, i), run[i].startTime, run[i].duration,
          run[i].table, run[i].grant)
  }

  /** Over every run, the slots in the table never overlap. */
  lemma {:induction false} RunDisjoint(run: seq<Call>, i: nat)
    requires IsRun(run) && i <= |run|
    ensures Disjoint(TableBefore(run, i))
  {
    hide Disjoint, Locks, FirstPossible;
    EmptyDisjoint();
    if i > 0 {
      RunDisjoint(run, i - 1);
      var c := run[i - 1];
      LockStep(TableBefore(run, i - 1), c.startTime, c.duration, c.table, c.grant);
    }
  }

  lemma {:induction false} EmptyDisjoint()
    ensures Disjoint([])
  {
  }

  /** Start times that never go back. */
  ghost predicate StartsInOrder(run: seq<Call>) {
    forall i, j | 0 <= i < j < |run| :: run[i].startTime <= run[j].startTime
  }

  /** Call `k`: what has not expired stays, and the new slot is added. */
  lemma {:induction false} CallKeeps(run: seq<Call>, k: nat)
    requires IsRun(run) && k < |run|
    ensures SlotOf(run[k]) in run[k].table && run[k].grant >= run[k].startTime
    ensures forall a | a in TableBefore(run, k) && a.unlockTime > run[k].startTime ::
              a in run[k].table && Apart(a, SlotOf(run[k]))
  {
    var c := run[k];
    RunDisjoint(run, k);
    LockStep(TableBefore(run, k), c.startTime, c.duration, c.table, c.grant);
  }

  /** A slot granted earlier is still in the table, or has expired by the last start time. */
  lemma {:induction false} KeptOrExpired(run: seq<Call>, i: nat, j: nat)
    requires IsRun(run) && StartsInOrder(run) && i < j <= |run|
    ensures SlotOf(run[i]) in TableBefore(run, j) || SlotOf(run[i]).unlockTime <= run[j - 1].startTime
    decreases j
  {
    hide IsRun, Apart;
    CallKeeps(run, j - 1);
    if i < j - 1 {
      KeptOrExpired(run, i, j - 1);
      assert run[j - 2].startTime <= run[j - 1].startTime;
    }
  }

  /** Every slot granted before call `j` is still in the table, or over by the start time of the call. */
  ghost predicate NotBeforeErased(run: seq<Call>, j: nat)
    requires j < |run|
  {
    forall i | 0 <= i < j :: SlotOf(run[i]) in TableBefore(run, j) || SlotOf(run[i]).unlockTime <= run[j].startTime
  }

  /** A call that does not start before the end of an erased slot overlaps no transfer before it. */
  lemma {:induction false} NeverOverlaps(run: seq<Call>, i: nat, j: nat)
    requires IsRun(run) && i < j < |run| && NotBeforeErased(run, j)
    ensures Apart(SlotOf(run[i]), SlotOf(run[j]))
  {
    CallKeeps(run, j);
  }

  /** If start times never go back, no two transfers of the whole run overlap, expired ones included. */
  lemma {:induction false} RunNeverOverlaps(run: seq<Call>, i: nat, j: nat)
    requires IsRun(run) && StartsInOrder(run) && i < j < |run|
    ensures Apart(SlotOf(run[i]), SlotOf(run[j]))
  {
    hide IsRun, Apart;
    forall k | 0 <= k < j ensures SlotOf(run[k]) in TableBefore(run, j) || SlotOf(run[k]).unlockTime <= run[j].startTime {
      KeptOrExpired(run, k, j);
      assert run[j - 1].startTime <= run[j].startTime;
    }
    NeverOverlaps(run, i, j);
  }

  lemma {:induction false} AliveOne(a: LockTimes, startTime: real)
    ensures Alive([a], startTime) == if a.unlockTime <= startTime then [] else [a]
  {
    assert [a][..0] == [];
  }

  /** A call on an empty table, or on one whose only slot has expired. */
  lemma {:induction false} LocksFree(t: seq<LockTimes>, startTime: real, duration: real)
    requires Alive(t, startTime) == []
    ensures Locks(t, startTime, duration, [LockTimes(startTime, startTime + duration)], startTime)
  {
    assert [LockTimes(startTime, startTime + duration)][..0] == [];
  }

  /** A call that fits before the only slot, or else comes after it. */
  lemma {:induction false} LocksOne(a: LockTimes, startTime: real, duration: real)
    requires a.unlockTime > startTime
    ensures var g := if a.lockTime > startTime && a.lockTime - startTime >= duration then startTime else a.unlockTime;
            Locks([a], startTime, duration, [a, LockTimes(g, g + duration)], g)
  {
    var g := if a.lockTime > startTime && a.lockTime - startTime >= duration then startTime else a.unlockTime;
    AliveOne(a, startTime);
    assert [a, LockTimes(g, g + duration)][..1] == [a];
  }

  /**
    The bound is exact: a slot that has been erased is safe from calls with a given start time, whatever the
    table and the duration, exactly if it is over by then.
   */
  lemma {:induction false} ErasedIsSafeExactly(a: LockTimes, startTime: real)
    requires a.lockTime < a.unlockTime
    ensures startTime >= a.unlockTime <==>
            forall t, duration, t', grant | Disjoint(t) && duration > 0.0 && Locks(t, startTime, duration, t', grant) ::
              Apart(a, LockTimes(grant, grant + duration))
  {
    if startTime < a.unlockTime {
      var duration := if startTime < a.lockTime then a.lockTime - startTime + 1.0 else 1.0;
      EmptyDisjoint();
      LocksFree([], startTime, duration);
      assert !Apart(a, LockTimes(startTime, startTime + duration));
    } else {
      forall t, duration, t', grant | Disjoint(t) && duration > 0.0 && Locks(t, startTime, duration, t', grant)
        ensures Apart(a, LockTimes(grant, grant + duration))
      {
        LockStep(t, startTime, duration, t', grant);
      }
    }
  }

  /** Below the bound it happens: any slot can be granted and erased, and then be overlapped by a call that starts before its end. */
  lemma {:induction false} GoingBackOverlaps(a: LockTimes, startTime: real) returns (run: seq<Call>)
    requires 0.0 <= a.lockTime < a.unlockTime && 0.0 <= startTime < a.unlockTime
    ensures |run| == 3 && IsRun(run) && SlotOf(run[0]) == a && run[2].startTime == startTime
    ensures SlotOf(run[0]) !in run[1].table && !Apart(SlotOf(run[0]), SlotOf(run[2]))
  {
    hide Locks;
    var l, e := a.lockTime, a.unlockTime;
    var b, c := LockTimes(e, e + 1.0), LockTimes(startTime, e);
    AliveOne(a, e);
    LocksFree([], l, e - l);
    LocksFree([a], e, 1.0);
    LocksOne(b, startTime, e - startTime);
    run := [Call(l, e - l, [a], l), Call(e, 1.0, [b], e), Call(startTime, e - startTime, [b, c], startTime)];
  }

  // ---------- durations of 0 ----------

  /** A sorted table in which slots may be empty, but no two of them overlap. */
  ghost predicate WeakTable(s: seq<LockTimes>, startTime: real) {
    && Sorted(s) && AllBeyond(s, startTime)
    && (forall i | 0 <= i < |s| :: s[i].lockTime <= s[i].unlockTime)
    && (forall i, j | 0 <= i < j < |s| :: Apart(s[i], s[j]))
  }

  /** Slot `k` is an empty one that the sort has put behind a longer one with the same lock time. */
  ghost predicate Hidden(s: seq<LockTimes>, k: nat)
    requires k < |s|
  {
    exists i :: 0 <= i < k && s[i].lockTime == s[k].lockTime && s[i].lockTime < s[i].unlockTime
  }

  /** The slot after which a transfer is scheduled. */
  function StopAt(s: seq<LockTimes>, i: nat, startTime: real, duration: real): (k: nat)
    requires i < |s|
    ensures i <= k < |s| && GapFrom(s, i, startTime, duration) == s[k].unlockTime
    ensures k + 1 < |s| ==> s[k + 1].lockTime - s[k].unlockTime >= duration
    decreases |s| - i
  {
    if i + 1 == |s| then i
    else if s[i].unlockTime >= startTime && s[i + 1].lockTime - s[i].unlockTime >= duration then i
    else StopAt(s, i + 1, startTime, duration)
  }

  /**
    On a table with empty slots a positive duration is given a free time exactly if the transfer is not
    scheduled after an empty slot that hides a longer one.
   */
  lemma {:induction false} WeakGrantExactly(s: seq<LockTimes>, startTime: real, duration: real)
    requires WeakTable(s, startTime) && |s| > 0 && duration > 0.0
    ensures FreeAt(s, Grant(s, startTime, duration), duration) <==>
            s[0].lockTime - startTime >= duration || !Hidden(s, StopAt(s, 0, startTime, duration))
  {
    var g, k := Grant(s, startTime, duration), StopAt(s, 0, startTime, duration);
    if s[0].lockTime - startTime >= duration {
      forall a | a in s ensures Apart(a, LockTimes(g, g + duration)) {
        var i :| 0 <= i < |s| && s[i] == a;
        assert s[0].lockTime <= s[i].lockTime;
      }
    } else if Hidden(s, k) {
      var i :| 0 <= i < k && s[i].lockTime == s[k].lockTime && s[i].lockTime < s[i].unlockTime;
      assert Apart(s[i], s[k]);
      assert s[i] in s && !Apart(s[i], LockTimes(g, g + duration));
    } else {
      forall a | a in s ensures Apart(a, LockTimes(g, g + duration)) {
        var i :| 0 <= i < |s| && s[i] == a;
        ClearOf(s, startTime, duration, i, k);
      }
    }
  }

  lemma {:induction false} ClearOf(s: seq<LockTimes>, startTime: real, duration: real, i: nat, k: nat)
    requires WeakTable(s, startTime) && i < |s| && k < |s| && !Hidden(s, k)
    requires k + 1 < |s| ==> s[k + 1].lockTime - s[k].unlockTime >= duration
    ensures Apart(s[i], LockTimes(s[k].unlockTime, s[k].unlockTime + duration))
  {
    if i < k {
      assert Apart(s[i], s[k]) && s[i].lockTime <= s[k].lockTime;
    } else if i > k {
      assert s[k + 1].lockTime <= s[i].lockTime;
    }
  }

  /** The calls as the source allows them, a duration of 0 included. */
  ghost predicate IsWeakRun(run: seq<Call>) {
    forall i: nat {:trigger run[i]} | i < |run| ::
      run[i].startTime >= 0.0 && run[i].duration >= 0.0 && Locks(TableBefore(run, i), run[i].startTime, run[i].duration,
          run[i].table, run[i].grant)
  }

  lemma {:induction false} AliveTwo(a: LockTimes, b: LockTimes, startTime: real)
    requires a.unlockTime > startTime && b.unlockTime > startTime
    ensures Alive([a, b], startTime) == [a, b]
  {
    AliveOne(a, startTime);
    assert [a, b][..1] == [a];
  }

  lemma {:induction false} Swapped(a: LockTimes, b: LockTimes)
    ensures multiset([a, b]) == multiset([b, a])
  {
  }

  /** Two slots with the same lock time, in the order that hides the longer one. */
  lemma {:induction false} LocksHidden(empty: LockTimes, a: LockTimes, startTime: real, duration: real)
    requires startTime < empty.lockTime == empty.unlockTime == a.lockTime < a.unlockTime && empty.lockTime - startTime < duration
    ensures var g := empty.unlockTime; Locks([empty, a], startTime, duration, [a, empty, LockTimes(g, g + duration)], g)
  {
    hide Alive;
    var g := empty.unlockTime;
    AliveTwo(empty, a, startTime);
    Swapped(a, empty);
    assert GapFrom([a, empty], 1, startTime, duration) == g;
    assert [a, empty, LockTimes(g, g + duration)][..2] == [a, empty];
  }

  /** With a duration of 0, two later transfers can be given the same time, if the sort puts the empty slot last. */
  lemma {:induction false} ZeroDurationOverlaps() returns (run: seq<Call>)
    ensures |run| == 3 && IsWeakRun(run) && run[0].duration == 0.0 && run[1].duration > 0.0 && run[2].duration > 0.0
    ensures StartsInOrder(run[1..]) && SlotOf(run[1]) in run[2].table && !Apart(SlotOf(run[1]), SlotOf(run[2]))
  {
    hide Locks;
    var empty, a := LockTimes(5.0, 5.0), LockTimes(5.0, 7.0);
    LocksFree([], 5.0, 0.0);
    LocksOne(empty, 4.0, 2.0);
    LocksHidden(empty, a, 4.0, 2.0);
    run := [Call(5.0, 0.0, [empty], 5.0), Call(4.0, 2.0, [empty, a], 5.0), Call(4.0, 2.0, [a, empty, a], 5.0)];
  }

  // ---------- the channel ----------

  /** The times of an event that a transfer adds to. */
  class Event {
    var busWaitTime: real
    var timeTaken: real

    constructor ()
      ensures busWaitTime == 0.0 && timeTaken == 0.0
    {
      busWaitTime, timeTaken := 0.0, 0.0;
    }

    /** incr_bus_wait_time. */
    method IncrBusWaitTime(timeIncr: real)
      modifies this`busWaitTime
      ensures busWaitTime == old(busWaitTime) + if timeIncr > 0.0 then timeIncr else 0.0
    {
      if timeIncr > 0.0 { busWaitTime := busWaitTime + timeIncr; }
    }

    /** incr_time_taken. */
    method IncrTimeTaken(timeIncr: real)
      modifies this`timeTaken
      ensures timeTaken == old(timeTaken) + if timeIncr > 0.0 then timeIncr else 0.0
    {
      if timeIncr > 0.0 { timeTaken := timeTaken + timeIncr; }
    }
  }

  /** The largest of the unlock times granted so far; -1 before the first. */
  ghost predicate Latest(readyAt: real, granted: seq<LockTimes>) {
    && (forall a | a in granted :: a.unlockTime <= readyAt)
    && (if |granted| == 0 then readyAt == -1.0 else exists a :: a in granted && a.unlockTime == readyAt)
  }

  /** readyAt is the latest of all unlock times; and the table is disjoint, if every duration was positive. */
  ghost predicate ValidChannel(timings: seq<LockTimes>, readyAt: real, granted: seq<LockTimes>, positive: bool) {
    && (forall a | a in timings :: a in granted) && Latest(readyAt, granted)
    && (positive ==> Disjoint(timings))
  }

  lemma {:induction false} ChannelNext(t: seq<LockTimes>, s: seq<LockTimes>, readyAt: real, granted: seq<LockTimes>, positive: bool,
                                   startTime: real, duration: real, x: real)
    requires ValidChannel(t, readyAt, granted, positive) && startTime >= 0.0 && duration >= 0.0
    requires SortOf(s, t, startTime) && x == Grant(s, startTime, duration)
    ensures var lt := LockTimes(x, x + duration);
            ValidChannel(s + [lt], if lt.unlockTime > readyAt then lt.unlockTime else readyAt, granted + [lt], positive && duration > 0.0)
            && Locks(t, startTime, duration, s + [lt], x) && x >= startTime
            && (positive && duration > 0.0 ==> FirstPossible(t, startTime, x, duration))
  {
    hide Disjoint, Alive, Grant, SortOf, FirstPossible, Latest;
    var lt := LockTimes(x, x + duration);
    SortAlive(s, t, startTime);
    GrantNotEarly(s, startTime, duration);
    assert (s + [lt])[..|s + [lt]| - 1] == s;
    LatestNext(readyAt, granted, lt);
    if positive && duration > 0.0 { LockStep(t, startTime, duration, s + [lt], x); }
  }

  class Channel {
    var timings: seq<LockTimes>
    var readyAt: real
    /** Every slot ever granted. */
    ghost var granted: seq<LockTimes>
    /** Whether every duration so far was positive. */
    ghost var positive: bool

    constructor ()
      ensures ValidChannel(timings, readyAt, granted, positive) && timings == [] && granted == [] && positive
    {
      timings, readyAt, granted, positive := [], -1.0, [], true;
    }

    /** Channel::unlock: drops the expired slots and sorts the others. */
    method Unlock(startTime: real)
      modifies this`timings
      ensures SortOf(timings, old(timings), startTime)
    {
      timings := EraseExpired(timings, startTime);
      timings := Sort(timings);
    }

    /**
      Channel::lock. The event waits for the slot that is granted; if every duration was positive, that is the
      first slot that is free, and no two slots of the table overlap.
     */
    method Lock(startTime: real, duration: real, event: Event) returns (schedTime: real)
      requires ValidChannel(timings, readyAt, granted, positive) && startTime >= 0.0 && duration >= 0.0
      modifies this, event
      ensures ValidChannel(timings, readyAt, granted, positive) && Locks(old(timings), startTime, duration, timings, schedTime)
      ensures granted == old(granted) + [LockTimes(schedTime, schedTime + duration)]
      ensures positive == (old(positive) && duration > 0.0)
      ensures positive ==> FirstPossible(old(timings), startTime, schedTime, duration)
      ensures schedTime >= startTime && event.busWaitTime == old(event.busWaitTime) + (schedTime - startTime)
      ensures event.timeTaken == old(event.timeTaken) + (schedTime - startTime) + duration
    {
      hide *;
      Unlock(startTime);
      SortAlive(timings, old(timings), startTime);
      schedTime := FindSlot(timings, startTime, duration);
      ChannelNext(old(timings), timings, readyAt, granted, positive, startTime, duration, schedTime);
      var lt := LockTimes(schedTime, schedTime + duration);
      timings := timings + [lt];
      if lt.unlockTime > readyAt { readyAt := lt.unlockTime; }
      granted := granted + [lt];
      positive := positive && duration > 0.0;
      event.IncrBusWaitTime(schedTime - startTime);
      event.IncrTimeTaken(schedTime - startTime + duration);
    }

    /** Channel::ready_time: when the last of all the transfers so far is over. */
    method ReadyTime() returns (t: real)
      requires ValidChannel(timings, readyAt, granted, positive)
      ensures t == readyAt && Latest(t, granted)
    {
      t := readyAt;
    }
  }

  lemma {:induction false} SortAlive(s: seq<LockTimes>, t: seq<LockTimes>, startTime: real)
    requires SortOf(s, t, startTime)
    ensures AllBeyond(s, startTime) && forall a | a in s :: a in t
  {
    var alive := Alive(t, startTime);
    forall a ensures a in s <==> a in alive {
      assert a in s <==> a in multiset(s);
      assert a in alive <==> a in multiset(alive);
    }
  }

  lemma {:induction false} GapNotEarly(s: seq<LockTimes>, i: nat, startTime: real, duration: real)
    requires AllBeyond(s, startTime) && i < |s|
    ensures GapFrom(s, i, startTime, duration) > startTime
    decreases |s| - i
  {
    assert s[i] in s;
    if i + 1 < |s| { GapNotEarly(s, i + 1, startTime, duration); }
  }

  lemma {:induction false} GrantNotEarly(s: seq<LockTimes>, startTime: real, duration: real)
    requires AllBeyond(s, startTime)
    ensures Grant(s, startTime, duration) >= startTime
  {
    if |s| > 0 { GapNotEarly(s, 0, startTime, duration); }
  }

  lemma {:induction false} LatestNext(readyAt: real, granted: seq<LockTimes>, lt: LockTimes)
    requires Latest(readyAt, granted) && lt.unlockTime >= 0.0
    ensures Latest(if lt.unlockTime > readyAt then lt.unlockTime else readyAt, granted + [lt])
  {
    assert lt in granted + [lt];
    forall a | a in granted ensures a in granted + [lt] { }
  }

  lemma {:induction false} AliveNext(t: seq<LockTimes>, n: nat, startTime: real)
    requires n < |t|
    ensures Alive(t[..n + 1], startTime) == Alive(t[..n], startTime) + if t[n].unlockTime <= startTime then [] else [t[n]]
  {
    assert t[..n + 1][..n] == t[..n];
  }

  /** Up to `it` the table is what remains of the first `done` slots, and from there on it is unchanged. */
  ghost predicate Erasing(t: seq<LockTimes>, it: nat, timings: seq<LockTimes>, done: nat, startTime: real) {
    && it <= |t| && done <= |timings| && |t| - it == |timings| - done
    && (forall k: nat {:trigger t[k]} | it <= k < |t| :: t[k] == timings[k - it + done])
    && t[..it] == Alive(timings[..done], startTime)
  }

  lemma {:induction false} EraseStep(t: seq<LockTimes>, it: nat, timings: seq<LockTimes>, done: nat, startTime: real)
    requires Erasing(t, it, timings, done, startTime) && it < |t|
    ensures if t[it].unlockTime <= startTime then Erasing(t[..it] + t[it + 1..], it, timings, done + 1, startTime)
            else Erasing(t, it + 1, timings, done + 1, startTime)
  {
    hide Alive;
    AliveNext(timings, done, startTime);
    if t[it].unlockTime <= startTime {
      var t' := t[..it] + t[it + 1..];
      assert t'[..it] == t[..it];
      forall k: nat {:trigger t'[k]} | it <= k < |t'| ensures t'[k] == timings[k - it + (done + 1)] { assert t'[k] == t[k + 1]; }
    } else {
      assert t[..it + 1] == t[..it] + [t[it]];
    }
  }

  lemma {:induction false} EraseEnds(t: seq<LockTimes>, timings: seq<LockTimes>, done: nat, startTime: real)
    requires Erasing(t, |t|, timings, done, startTime)
    ensures t == Alive(timings, startTime)
  {
    assert t[..|t|] == t && timings[..done] == timings;
  }

  /** The loop of Channel::unlock. */
  method EraseExpired(timings: seq<LockTimes>, startTime: real) returns (t: seq<LockTimes>)
    ensures t == Alive(timings, startTime)
  {
    t := timings;
    var it: nat := 0;
    ghost var done: nat := 0;
    assert Erasing(t, it, timings, done, startTime);
    hide Erasing, Alive;
    while it < |t|
      invariant it <= |t| && Erasing(t, it, timings, done, startTime)
      decreases |t| - it
    {
      EraseStep(t, it, timings, done, startTime);
      if t[it].unlockTime <= startTime {
        t := t[..it] + t[it + 1..];
      } else {
        it := it + 1;
      }
      done := done + 1;
    }
    EraseEnds(t, timings, done, startTime);
  }

  /** A sort by lock time. */
  method Sort(t: seq<LockTimes>) returns (s: seq<LockTimes>)
    ensures Sorted(s) && multiset(s) == multiset(t)
  {
    hide SortedPart, Sorted, With;
    s := [];
    SortStarts(t);
    for i := 0 to |t|
      invariant SortedPart(s, t, i)
    {
      var k := PlaceOf(s, t, i);
      SortNext(s, t, i, k);
      s := With(s, t[i], k);
    }
    SortEnds(s, t);
  }

  /** `s` is the first `i` slots, sorted. */
  ghost predicate SortedPart(s: seq<LockTimes>, t: seq<LockTimes>, i: nat) {
    i <= |t| && Sorted(s) && multiset(s) == multiset(t[..i])
  }

  lemma {:induction false} SortStarts(t: seq<LockTimes>)
    ensures SortedPart([], t, 0)
  {
    assert t[..0] == [];
  }

  lemma {:induction false} SortNext(s: seq<LockTimes>, t: seq<LockTimes>, i: nat, k: nat)
    requires SortedPart(s, t, i) && i < |t| && PlaceIs(s, t[i], k)
    ensures SortedPart(With(s, t[i], k), t, i + 1)
  {
    hide Sorted, With;
    Inserted(s, t[i], k);
    NextElement(t, i);
  }

  lemma {:induction false} SortEnds(s: seq<LockTimes>, t: seq<LockTimes>)
    requires SortedPart(s, t, |t|)
    ensures Sorted(s) && multiset(s) == multiset(t)
  {
    assert t[..|t|] == t;
  }

  ghost predicate PlaceIs(s: seq<LockTimes>, x: LockTimes, k: nat) {
    k <= |s| && (k > 0 ==> s[k - 1].lockTime <= x.lockTime) && (k < |s| ==> x.lockTime < s[k].lockTime)
  }

  method PlaceOf(s: seq<LockTimes>, t: seq<LockTimes>, i: nat) returns (k: nat)
    requires i < |t|
    ensures PlaceIs(s, t[i], k)
  {
    k := |s|;
    while k > 0 && s[k - 1].lockTime > t[i].lockTime
      invariant k <= |s| && (k < |s| ==> t[i].lockTime < s[k].lockTime)
    {
      k := k - 1;
    }
  }

  function With(s: seq<LockTimes>, x: LockTimes, k: nat): (r: seq<LockTimes>)
    requires k <= |s|
    ensures |r| == |s| + 1
    ensures forall i: nat {:trigger r[i]} | i <= |s| :: r[i] == if i < k then s[i] else if i == k then x else s[i - 1]
  {
    s[..k] + [x] + s[k..]
  }

  lemma {:induction false} SortedPair(s: seq<LockTimes>, i: nat, j: nat)
    requires Sorted(s) && i <= j < |s|
    ensures s[i].lockTime <= s[j].lockTime
  {
  }

  lemma {:induction false} Inserted(s: seq<LockTimes>, x: LockTimes, k: nat)
    requires Sorted(s) && PlaceIs(s, x, k)
    ensures Sorted(With(s, x, k)) && multiset(With(s, x, k)) == multiset(s) + multiset{x}
  {
    hide Sorted, With;
    WithElements(s, x, k);
    InsertSorted(s, x, k);
  }

  lemma {:induction false} WithElements(s: seq<LockTimes>, x: LockTimes, k: nat)
    requires k <= |s|
    ensures multiset(With(s, x, k)) == multiset(s) + multiset{x}
  {
    assert s == s[..k] + s[k..];
  }

  lemma {:induction false} NextElement(t: seq<LockTimes>, i: nat)
    requires i < |t|
    ensures multiset(t[..i + 1]) == multiset(t[..i]) + multiset{t[i]}
  {
    assert t[..i + 1] == t[..i] + [t[i]];
  }

  lemma {:induction false} InsertSorted(s: seq<LockTimes>, x: LockTimes, k: nat)
    requires Sorted(s) && PlaceIs(s, x, k)
    ensures Sorted(With(s, x, k))
  {
    var r := With(s, x, k);
    forall i: nat, j: nat | i < j <= |s| ensures r[i].lockTime <= r[j].lockTime { InsertPair(s, x, k, i, j); }
  }

  lemma {:induction false} InsertPair(s: seq<LockTimes>, x: LockTimes, k: nat, i: nat, j: nat)
    requires Sorted(s) && PlaceIs(s, x, k)
    requires i < j <= |s|
    ensures With(s, x, k)[i].lockTime <= With(s, x, k)[j].lockTime
  {
    hide Sorted, With;
    if i == k {
      SortedPair(s, k, j - 1);
    } else if j == k {
      SortedPair(s, i, k - 1);
    } else {
      SortedPair(s, if i < k then i else i - 1, if j < k then j else j - 1);
    }
  }

  /** The search of Channel::lock in the sorted table. */
  method FindSlot(timings: seq<LockTimes>, startTime: real, duration: real) returns (schedTime: real)
    requires startTime >= 0.0 && AllBeyond(timings, startTime)
    ensures schedTime == Grant(timings, startTime, duration)
  {
    schedTime := BUS_CHANNEL_FREE_FLAG;
    if |timings| == 0 {
      schedTime := startTime;
    } else {
      if timings[0].lockTime > startTime && timings[0].lockTime - startTime >= duration { schedTime := startTime; }
      if schedTime == BUS_CHANNEL_FREE_FLAG {
        var it: nat := 0;
        while it < |timings|
          invariant it <= |timings| && schedTime == BUS_CHANNEL_FREE_FLAG
          invariant it < |timings| ==> GapFrom(timings, it, startTime, duration) == GapFrom(timings, 0, startTime, duration)
          invariant it == |timings| ==> GapFrom(timings, 0, startTime, duration) == timings[|timings| - 1].unlockTime
        {
          if it + 1 != |timings| {
            if timings[it].unlockTime >= startTime && timings[it + 1].lockTime - timings[it].unlockTime >= duration {
              schedTime := timings[it].unlockTime;
              break;
            }
          }
          it := it + 1;
        }
        assert timings[|timings| - 1] in timings;
        if schedTime == BUS_CHANNEL_FREE_FLAG { schedTime := timings[|timings| - 1].unlockTime; }
      }
    }
  }
}

/**
 How long an unused child is held: the reaper's ticks, and the sweeps they make
 of the slots.  What other threads may do meanwhile is in `SweepsMissNothing`.
 */
module HoldTime {
  import opened Wrappers
  import opened Admission
  import opened Idle
  import opened SlotTable
  import opened Reaper
  import Slots

  /** The processes that have exited by the time of the `k`th tick. */
  function DeadBy(before: set<ChildId>, deaths: seq<set<ChildId>>, k: nat): set<ChildId>
    requires k <= |deaths|
  {
    if k == 0 then before else DeadBy(before, deaths, k - 1) + deaths[k - 1]
  }

  /** A child nobody reads from is let go at a tick that finds it dead, or unused for the window. */
  ghost predicate GoesAt(entry: Entry, held: Held, window: nat, look: nat, dead: set<ChildId>) {
    held.child in dead || (entry.residency.OnDemand? && Elapsed(look, held.lastUsed) >= window)
  }

  /** One tick of `run`: the clock has moved on, processes have exited, and both sweeps are made. */
  method Tick(slots: Slots.Slots, window: nat, look: nat, deaths: set<ChildId>)
    requires slots.Valid() && slots.Unshared()
    modifies slots`mem
    ensures slots.Valid() && slots.Unshared()
    ensures slots.mem.dead == old(slots.mem).dead + deaths
    ensures forall i :: 0 <= i < |slots.catalog| && Unread(old(slots.mem), i) ==>
              if GoesAt(slots.catalog[i], old(slots.mem).slots[i].value, window, look, slots.mem.dead)
              then slots.mem.slots[i].None?
              else slots.mem.slots[i] == old(slots.mem).slots[i] && Unread(slots.mem, i)
    ensures forall i :: 0 <= i < |slots.catalog| && old(slots.mem).slots[i].None? ==> slots.mem.slots[i].None?
  {
    slots.mem := slots.mem.(now := look, dead := slots.mem.dead + deaths);
    assert forall i :: 0 <= i < |slots.catalog| && slots.mem.slots[i].Some? ==>
                         slots.mem.Busy(i) == old(slots.mem).Busy(i);
    var _ := slots.SweepExited();
    label swept:
    var _ := slots.SweepIdle(Some(window));
    assert forall i :: 0 <= i < |slots.catalog| && slots.mem.slots[i].Some? ==>
                         slots.mem.Busy(i) == old@swept(slots.mem).Busy(i) == old(slots.mem).Busy(i);
  }

  ghost predicate Unread(m: Memory, i: EntryId) { i < |m.slots| && m.slots[i].Some? && !m.Busy(i) }

  /** Some tick up to the `k`th lets the child go. */
  ghost predicate GoneBy(
    entry: Entry, held: Held, window: nat, looks: seq<nat>, before: set<ChildId>, deaths: seq<set<ChildId>>, k: nat)
    requires k < |looks| == |deaths|
  {
    exists j :: 0 <= j <= k && GoesAt(entry, held, window, looks[j], DeadBy(before, deaths, j + 1))
  }

  /** A tick that lets an unused on-demand child go comes in time. */
  lemma {:induction false} SomeTickIsInTime(
    window: nat, began: nat, took: seq<nat>, looks: seq<nat>, entry: Entry, held: Held) returns (k: nat)
    requires LooksDuring(Ticks(Interval(window), began, took), looks) && window > 0 && took != []
    requires entry.residency.OnDemand?
    requires began <= held.lastUsed + window <= began + |took| * Interval(window)
    ensures k < |took| && Elapsed(looks[k], held.lastUsed) >= window
    ensures Ticks(Interval(window), began, took)[k].end <= held.lastUsed + window + Gap(window, took, k) + took[k]
  {
    var e := LoadedOf(0, entry, false, held);
    k := SomeSweepLetsItGo(window, began, took, looks, e);
    HoldTimeIsBounded(window, began, took, looks, e, k);
  }

  /** Alive, and its window has not passed, or it is a resident. */
  ghost predicate MustStay(entry: Entry, held: Held, window: nat, look: nat, dead: set<ChildId>) {
    held.child !in dead && (look < held.lastUsed + window || entry.residency.Resident?)
  }

  /** One child's hold: kept while its window runs, and out of its slot in time after that. */
  ghost predicate HeldAsPromised(
    entry: Entry, held: Held, window: nat, began: nat, took: seq<nat>, looks: seq<nat>,
    before: set<ChildId>, deaths: seq<set<ChildId>>, after: seq<Slot>)
    requires |took| == |looks| == |deaths| == |after|
  {
    && (forall k :: 0 <= k < |took| && MustStay(entry, held, window, looks[k], DeadBy(before, deaths, k + 1)) ==>
          after[k] == Some(held))
    && (entry.residency.OnDemand? && took != []
        && began <= held.lastUsed + window <= began + |took| * Interval(window) ==>
          exists k :: 0 <= k < |took| && after[k].None?
                      && Ticks(Interval(window), began, took)[k].end
                         <= held.lastUsed + window + Gap(window, took, k) + took[k])
  }

  /** Out by one and a half windows plus one sweep, on the condition under which that can be promised. */
  lemma {:induction false} OutByAWindowAndAHalf(
    entry: Entry, held: Held, window: nat, began: nat, took: seq<nat>, looks: seq<nat>,
    before: set<ChildId>, deaths: seq<set<ChildId>>, after: seq<Slot>) returns (k: nat)
    requires |took| == |looks| == |deaths| == |after|
    requires HeldAsPromised(entry, held, window, began, took, looks, before, deaths, after)
    requires entry.residency.OnDemand? && took != [] && NeitherHurriedNorHeldUp(window, took)
    requires began <= held.lastUsed + window <= began + |took| * Interval(window)
    ensures k < |took| && after[k].None?
    ensures Ticks(Interval(window), began, took)[k].end <= held.lastUsed + window + window / 2 + took[k]
  {
    k :| 0 <= k < |took| && after[k].None?
         && Ticks(Interval(window), began, took)[k].end <= held.lastUsed + window + Gap(window, took, k) + took[k];
  }

  lemma {:induction false} GoingMeansHeldAsPromised(
    entry: Entry, held: Held, window: nat, began: nat, took: seq<nat>, looks: seq<nat>,
    before: set<ChildId>, deaths: seq<set<ChildId>>, after: seq<Slot>)
    requires LooksDuring(Ticks(Interval(window), began, took), looks) && window > 0
    requires |took| == |looks| == |deaths| == |after|
    requires forall k :: 0 <= k < |took| ==>
               after[k] == if GoneBy(entry, held, window, looks, before, deaths, k) then None else Some(held)
    ensures HeldAsPromised(entry, held, window, began, took, looks, before, deaths, after)
  {
    forall k | 0 <= k < |took| && MustStay(entry, held, window, looks[k], DeadBy(before, deaths, k + 1))
      ensures after[k] == Some(held)
    {
      forall j | 0 <= j <= k ensures !GoesAt(entry, held, window, looks[j], DeadBy(before, deaths, j + 1)) {
        LooksAreInOrder(Interval(window), began, took, looks, j, k);
        DeadStayDead(before, deaths, j + 1, k + 1);
      }
    }
    if entry.residency.OnDemand? && took != []
       && began <= held.lastUsed + window <= began + |took| * Interval(window) {
      var k := SomeTickIsInTime(window, began, took, looks, entry, held);
      assert GoesAt(entry, held, window, looks[k], DeadBy(before, deaths, k + 1));
    }
  }

  lemma {:induction false} DeadStayDead(before: set<ChildId>, deaths: seq<set<ChildId>>, j: nat, k: nat)
    requires j <= k <= |deaths|
    ensures DeadBy(before, deaths, j) <= DeadBy(before, deaths, k)
    decreases k
  {
    if j < k { DeadStayDead(before, deaths, j, k - 1); }
  }

  lemma {:induction false} FewerTicks(interval: nat, began: nat, took: seq<nat>, n: nat)
    requires n <= |took|
    ensures Ticks(interval, began, took[..n]) == Ticks(interval, began, took)[..n]
    decreases |took|
  {
    if n < |took| {
      FewerTicks(interval, began, took[..|took| - 1], n);
      assert took[..|took| - 1][..n] == took[..n];
    } else {
      assert took[..n] == took;
    }
  }

  /**
   The reaper's loop on the slots, nobody else moving: the ticks are those that
   `Run` makes, so none that was due before the stop is missing, and at each of
   them the children are held as promised.
   */
  method RunOn(
    slots: Slots.Slots, window: Option<nat>, began: nat, took: seq<nat>, stopped: Option<nat>,
    looks: seq<nat>, deaths: seq<set<ChildId>>) returns (after: seq<seq<Slot>>)
    requires slots.Valid() && slots.Unshared() && window != Some(0) && |looks| == |deaths| == |took|
    requires window.Some? ==> LooksDuring(Ticks(Interval(window.value), began, took), looks)
    modifies slots`mem
    ensures slots.Valid() && |after| <= |took| && forall k :: 0 <= k < |after| ==> |after[k]| == |slots.catalog|
    ensures window.None? ==> after == [] && slots.mem == old(slots.mem)
    ensures window.Some? && |after| < |took| ==>
              && stopped.Some?
              && stopped.value <= NextStart(window.value, began,
                                            Ticks(Interval(window.value), began, took[..|after|]))
    ensures window.Some? ==> forall i :: 0 <= i < |slots.catalog| && Unread(old(slots.mem), i) ==>
              var n := |after|;
              HeldAsPromised(slots.catalog[i], old(slots.mem).slots[i].value, window.value, began,
                             took[..n], looks[..n], old(slots.mem).dead, deaths[..n],
                             seq(n, k requires 0 <= k < n => after[k][i]))
  {
    var ticks := Run(window, began, took, stopped);
    if window.None? {
      return [];
    }
    var n := |ticks|;
    FewerTicks(Interval(window.value), began, took, n);
    after := SweepAt(slots, window.value, began, took[..n], looks[..n], deaths[..n]);
  }

  /**
   The reaper's ticks on the slots while nobody else moves.  A child nobody
   reads from stays in its slot as long as it lives and its window has not
   passed; an on-demand one is out of its slot by the end of a sweep that comes
   at most one gap after the window has, plus the sweep itself.  A resident
   leaves its slot only dead.
   */
  method SweepAt(
    slots: Slots.Slots, window: nat, began: nat, took: seq<nat>, looks: seq<nat>, deaths: seq<set<ChildId>>)
    returns (after: seq<seq<Slot>>)
    requires slots.Valid() && slots.Unshared() && window > 0
    requires LooksDuring(Ticks(Interval(window), began, took), looks) && |deaths| == |took|
    modifies slots`mem
    ensures slots.Valid() && |after| == |took| && forall k :: 0 <= k < |after| ==> |after[k]| == |slots.catalog|
    ensures forall i :: 0 <= i < |slots.catalog| && Unread(old(slots.mem), i) ==>
              HeldAsPromised(slots.catalog[i], old(slots.mem).slots[i].value, window, began, took, looks,
                             old(slots.mem).dead, deaths, seq(|took|, k requires 0 <= k < |took| => after[k][i]))
  {
    after := [];
    ghost var first := slots.mem;
    for k := 0 to |took|
      invariant slots.Valid() && slots.Unshared()
      invariant |after| == k && forall j :: 0 <= j < k ==> |after[j]| == |slots.catalog|
      invariant slots.mem.dead == DeadBy(first.dead, deaths, k)
      invariant k > 0 ==> after[k - 1] == slots.mem.slots
      invariant k == 0 ==> slots.mem == first
      invariant forall i :: 0 <= i < |slots.catalog| && Unread(first, i) && slots.mem.slots[i].Some? ==>
                  Unread(slots.mem, i) && slots.mem.slots[i] == first.slots[i]
      invariant forall i, j :: 0 <= i < |slots.catalog| && 0 <= j < k && Unread(first, i) ==>
                  after[j][i] == if GoneBy(slots.catalog[i], first.slots[i].value, window, looks, first.dead, deaths, j)
                                 then None else first.slots[i]
    {
      Tick(slots, window, looks[k], deaths[k]);
      after := after + [slots.mem.slots];
    }
    forall i | 0 <= i < |slots.catalog| && Unread(first, i)
      ensures HeldAsPromised(slots.catalog[i], first.slots[i].value, window, began, took, looks, first.dead, deaths,
                             seq(|took|, k requires 0 <= k < |took| => after[k][i]))
    {
      GoingMeansHeldAsPromised(slots.catalog[i], first.slots[i].value, window, began, took, looks, first.dead, deaths,
                               seq(|took|, k requires 0 <= k < |took| => after[k][i]));
    }
  }
}

/**
 What sits in a slot, and the operations on one slot (src/proxy/loaded.rs,
 src/admission/subject.rs).

 A child is an identity; `strong` is the strong count of its reference-counted
 handle and `dead` the processes that have exited.  Every operation is given
 the busy signal it read under the slot's lock, because that is what it acts on.
 */
module SlotTable {
  import opened Wrappers
  import opened Text
  import opened Admission
  import opened AdmissionLaws

  type ChildId = nat

  /** What the machine saw a child holding once it had loaded, in mebibytes. */
  datatype Measurement = Measurement(residentMib: Option<nat>, deviceMib: Option<nat>) {
    function Largest(): Option<nat> {
      match (residentMib, deviceMib)
      case (Some(r), Some(d)) => Some(Max(r, d))
      case (None, d) => d
      case (r, None) => r
    }
  }

  datatype Entry = Entry(estimateMib: nat, residency: Residency, flags: map<string, string>) {

    predicate OffDevice() {
      exists key :: key in {"n-gpu-layers", "ngl", "gpu-layers"} && key in flags && Trim(flags[key]) == "0"
    }

    function DeviceNeed(): nat { if OffDevice() then 0 else estimateMib }

    /** The larger of the estimate and the measurement; off the device, only the device side counts. */
    function Cost(measured: Measurement): (cost: nat)
      ensures cost >= estimateMib
    {
      var seen := if DeviceNeed() == 0 then measured.deviceMib else measured.Largest();
      if seen.Some? then Max(seen.value, estimateMib) else estimateMib
    }
  }

  /**
   A cost is the largest of the estimate and what was measured on the side that
   counts; off the device what the process holds in host memory is ignored.
   */
  lemma {:induction false} CostIsTheLargestThatCounts(entry: Entry, measured: Measurement)
    ensures var cost, counted := entry.Cost(measured), measured.residentMib.Some? && entry.DeviceNeed() > 0;
            && entry.estimateMib <= cost
            && (measured.deviceMib.Some? ==> measured.deviceMib.value <= cost)
            && (counted ==> measured.residentMib.value <= cost)
            && (|| cost == entry.estimateMib || measured.deviceMib == Some(cost)
                || (counted && measured.residentMib == Some(cost)))
  {}

  /** `admission::Loaded::of` and `Wanted::of`. */
  function LoadedOf(id: EntryId, entry: Entry, busy: bool, held: Held): Loaded {
    Loaded(id, entry.Cost(held.measured),
           if held.measured.deviceMib.Some? then held.measured.deviceMib.value else entry.DeviceNeed(),
           entry.residency, busy, held.lastUsed)
  }

  function WantedOf(id: EntryId, entry: Entry): Wanted { Wanted(id, entry.estimateMib, entry.DeviceNeed()) }

  /** One of the three flags that keep every layer off the device is there, and zero. */
  ghost predicate KeptOffTheDevice(entry: Entry) {
    || ("n-gpu-layers" in entry.flags && Trim(entry.flags["n-gpu-layers"]) == "0")
    || ("ngl" in entry.flags && Trim(entry.flags["ngl"]) == "0")
    || ("gpu-layers" in entry.flags && Trim(entry.flags["gpu-layers"]) == "0")
  }

  /**
   What admission is asked for is what it gets back: an entry wants its estimate,
   on the device too unless its flags keep it off; loaded and not measured there
   it counts for just that on the device, and for what was measured otherwise.
   */
  lemma {:induction false} WhatIsWantedIsGivenBack(id: EntryId, entry: Entry, busy: bool, held: Held)
    ensures var wanted, loaded := WantedOf(id, entry), LoadedOf(id, entry, busy, held);
            && wanted == Wanted(id, entry.estimateMib, if KeptOffTheDevice(entry) then 0 else entry.estimateMib)
            && loaded.deviceMib == (if held.measured.deviceMib.Some? then held.measured.deviceMib.value
                                    else wanted.deviceMib)
            && wanted.costMib <= loaded.costMib == entry.Cost(held.measured)
            && loaded.id == id && loaded.residency == entry.residency
            && loaded.busy == busy && loaded.lastUsed == held.lastUsed
  {}

  /** `proxy::loaded::Loaded`: a running child and what deciding its fate needs. */
  datatype Held = Held(child: ChildId, lastUsed: nat, measured: Measurement)

  type Slot = Option<Held>

  datatype Memory = Memory(slots: seq<Slot>, strong: map<ChildId, nat>, dead: set<ChildId>, now: nat) {
    function Count(c: ChildId): nat { if c in strong then strong[c] else 0 }

    /** `busy`: somebody besides the slot holds a handle. */
    predicate Busy(i: EntryId)
      requires i < |slots| && slots[i].Some?
    {
      Count(slots[i].value.child) > 1
    }
  }

  /** The ways a thread's step changes the shared memory. */
  datatype Effect =
    | Nothing
    | Clone(i: EntryId)            // hand a reference out, and mark the slot used now
    | Discard(i: EntryId)          // empty the slot and drop its last handle
    | Take(i: EntryId)             // empty the slot, keeping its handle
    | Put(i: EntryId, held: Held)  // fill the slot with a clone of a handle already held
    | Stamp(i: EntryId)            // mark the slot used now
    | Release(c: ChildId)          // drop a handle
    | Spawn(c: ChildId, e: EntryId) // a new child for an entry, with one handle

  function Affect(m: Memory, fx: Effect): Memory {
    match fx
    case Nothing => m
    case Clone(i) =>
      if i < |m.slots| && m.slots[i].Some? then
        var held := m.slots[i].value;
        m.(slots := m.slots[i := Some(held.(lastUsed := m.now))],
           strong := m.strong[held.child := m.Count(held.child) + 1])
      else m
    case Discard(i) =>
      if i < |m.slots| && m.slots[i].Some?
      then m.(slots := m.slots[i := None], strong := m.strong[m.slots[i].value.child := 0])
      else m
    case Take(i) => if i < |m.slots| then m.(slots := m.slots[i := None]) else m
    case Put(i, held) =>
      if i < |m.slots|
      then m.(slots := m.slots[i := Some(held)], strong := m.strong[held.child := m.Count(held.child) + 1])
      else m
    case Stamp(i) =>
      if i < |m.slots| && m.slots[i].Some?
      then m.(slots := m.slots[i := Some(m.slots[i].value.(lastUsed := m.now))])
      else m
    case Release(c) => m.(strong := m.strong[c := if m.Count(c) > 0 then m.Count(c) - 1 else 0])
    case Spawn(c, _) => m.(strong := m.strong[c := 1])
  }

  /** `live_child`: the child to hand out, if a live one is there. */
  function LiveChild(m: Memory, i: EntryId, idle: bool): (Effect, Option<ChildId>)
    requires i < |m.slots|
  {
    match m.slots[i]
    case None => (Nothing, None)
    case Some(held) =>
      if idle && held.child in m.dead then (Discard(i), None) else (Clone(i), Some(held.child))
  }

  /** `take_if_exited`: the dead child taken out to be reaped. */
  function TakeIfExited(m: Memory, i: EntryId, idle: bool): (Effect, Option<ChildId>)
    requires i < |m.slots|
  {
    match m.slots[i]
    case None => (Nothing, None)
    case Some(held) =>
      if idle && held.child in m.dead then (Take(i), Some(held.child)) else (Nothing, None)
  }

  /** What taking a slot came to. */
  datatype Taking = Taken(child: ChildId) | IsBusy | Empty

  /** `take_if_idle`: `also` is the caller's further condition, which can only narrow. */
  function TakeIfIdle(m: Memory, i: EntryId, idle: bool, also: Held -> bool): (Effect, Taking)
    requires i < |m.slots|
  {
    match m.slots[i]
    case None => (Nothing, Empty)
    case Some(held) =>
      if !idle || !also(held) then (Nothing, IsBusy) else (Take(i), Taken(held.child))
  }

  /** Eviction adds no condition of its own. */
  const Always: Held -> bool := (held: Held) => true

  // ------------------------------------------------------------------ the ledger

  /** What the ledger counts over the first `k` entries, leaving out those in `skip`. */
  function Ledger(catalog: seq<Entry>, slots: seq<Slot>, skip: seq<EntryId>, k: nat): nat
    requires k <= |catalog| == |slots|
  {
    if k == 0 then 0
    else
      var i := k - 1;
      Ledger(catalog, slots, skip, i)
      + if i in skip || slots[i].None? then 0 else catalog[i].Cost(slots[i].value.measured)
  }

  /** The catalog estimates of the occupied slots. */
  function Estimates(catalog: seq<Entry>, slots: seq<Slot>, k: nat): nat
    requires k <= |catalog| == |slots|
  {
    if k == 0 then 0
    else Estimates(catalog, slots, k - 1) + if slots[k - 1].None? then 0 else catalog[k - 1].estimateMib
  }

  /** No slot was filled: each holds the child it held, or nothing. */
  ghost predicate Shrinks(before: seq<Slot>, after: seq<Slot>) {
    && |before| == |after|
    && forall i :: 0 <= i < |after| && after[i].Some? ==>
         && before[i].Some?
         && after[i].value.child == before[i].value.child
         && after[i].value.measured == before[i].value.measured
  }

  lemma {:induction false} ShrinkingLowersTheLedger(
    catalog: seq<Entry>, before: seq<Slot>, after: seq<Slot>, skip: seq<EntryId>, k: nat)
    requires k <= |catalog| == |before| && Shrinks(before, after)
    ensures Ledger(catalog, after, skip, k) <= Ledger(catalog, before, skip, k)
    ensures Estimates(catalog, after, k) <= Estimates(catalog, before, k)
  {
    if k > 0 { ShrinkingLowersTheLedger(catalog, before, after, skip, k - 1); }
  }

  /** Once its slot is empty, an entry need not be left out of the ledger any more. */
  lemma {:induction false} EmptySlotCostsNothing(
    catalog: seq<Entry>, slots: seq<Slot>, skip: seq<EntryId>, k: nat)
    requires k <= |catalog| == |slots| && skip != [] && (skip[0] < |slots| ==> slots[skip[0]].None?)
    ensures Ledger(catalog, slots, skip[1..], k) == Ledger(catalog, slots, skip, k)
  {
    if k > 0 {
      EmptySlotCostsNothing(catalog, slots, skip, k - 1);
      assert k - 1 in skip <==> k - 1 == skip[0] || k - 1 in skip[1..];
    }
  }

  lemma {:induction false} EstimatesWithinLedger(catalog: seq<Entry>, slots: seq<Slot>, k: nat)
    requires k <= |catalog| == |slots|
    ensures Estimates(catalog, slots, k) <= Ledger(catalog, slots, [], k)
  {
    if k > 0 { EstimatesWithinLedger(catalog, slots, k - 1); }
  }

  lemma {:induction false} FillingAddsTheEstimate(
    catalog: seq<Entry>, slots: seq<Slot>, i: EntryId, held: Held, k: nat)
    requires k <= |catalog| == |slots| && i < |slots| && slots[i].None?
    ensures Estimates(catalog, slots[i := Some(held)], k)
            == Estimates(catalog, slots, k) + if i < k then catalog[i].estimateMib else 0
  {
    if k > 0 { FillingAddsTheEstimate(catalog, slots, i, held, k - 1); }
  }

  /** Filling an empty slot adds exactly what its child costs. */
  lemma {:induction false} FillingAddsTheCost(
    catalog: seq<Entry>, slots: seq<Slot>, i: EntryId, held: Held, k: nat)
    requires k <= |catalog| == |slots| && i < |slots| && slots[i].None?
    ensures Ledger(catalog, slots[i := Some(held)], [], k)
            == Ledger(catalog, slots, [], k) + if i < k then catalog[i].Cost(held.measured) else 0
  {
    if k > 0 { FillingAddsTheCost(catalog, slots, i, held, k - 1); }
  }

  /** When a slot is emptied, whatever else is too, the ledger falls by what its child cost at least. */
  lemma {:induction false} EmptyingGivesTheCostBack(
    catalog: seq<Entry>, before: seq<Slot>, after: seq<Slot>, i: EntryId, k: nat)
    requires k <= |catalog| == |before| && Shrinks(before, after)
    requires i < |before| && before[i].Some? && after[i].None?
    ensures Ledger(catalog, after, [], k) + (if i < k then catalog[i].Cost(before[i].value.measured) else 0)
            <= Ledger(catalog, before, [], k)
  {
    if k > 0 { EmptyingGivesTheCostBack(catalog, before, after, i, k - 1); }
  }

  /** Counting one loaded entry at its estimate and the others at their cost covers all the estimates. */
  lemma {:induction false} OneAtItsEstimate(catalog: seq<Entry>, slots: seq<Slot>, i: EntryId, k: nat)
    requires k <= |catalog| == |slots| && i < |slots| && slots[i].Some?
    ensures Estimates(catalog, slots, k) + (if i < k then catalog[i].Cost(slots[i].value.measured) else 0)
            <= Ledger(catalog, slots, [], k) + if i < k then catalog[i].estimateMib else 0
  {
    if k > 0 { OneAtItsEstimate(catalog, slots, i, k - 1); }
  }

  // --------------------------------------------------------------- the snapshot

  /** What reading slot `i` adds to a snapshot. */
  function Row(catalog: seq<Entry>, m: Memory, i: EntryId, idle: bool): Option<Loaded>
    requires i < |m.slots| == |catalog|
  {
    match m.slots[i]
    case None => None
    case Some(held) => Some(LoadedOf(i, catalog[i], !idle, held))
  }

  /** `filter_map` over the rows read. */
  function Compact(rows: seq<Option<Loaded>>): seq<Loaded> {
    if rows == [] then []
    else
      var last := rows[|rows| - 1];
      Compact(rows[..|rows| - 1]) + if last.Some? then [last.value] else []
  }

  /** Each row is about its own entry. */
  ghost predicate RowsOf(catalog: seq<Entry>, rows: seq<Option<Loaded>>) {
    && |rows| <= |catalog|
    && forall i :: 0 <= i < |rows| && rows[i].Some? ==>
         rows[i].value.id == i && rows[i].value.residency == catalog[i].residency
  }

  /** What is loaded now and was read is in the snapshot, at the cost it has now. */
  ghost predicate Covers(catalog: seq<Entry>, slots: seq<Slot>, rows: seq<Option<Loaded>>) {
    && |rows| <= |slots| == |catalog|
    && forall i :: 0 <= i < |rows| && slots[i].Some? ==>
         rows[i].Some? && rows[i].value.costMib == catalog[i].Cost(slots[i].value.measured)
  }

  lemma {:induction false} CompactMembers(catalog: seq<Entry>, rows: seq<Option<Loaded>>)
    requires RowsOf(catalog, rows)
    ensures forall e :: e in Compact(rows) <==> e.id < |rows| && rows[e.id] == Some(e)
    ensures DistinctIds(Compact(rows))
  {
    if rows != [] {
      CompactMembers(catalog, rows[..|rows| - 1]);
    }
  }

  lemma {:induction false} KeepAppend(a: seq<Loaded>, b: seq<Loaded>, p: Loaded -> bool)
    ensures Keep(a + b, p) == Keep(a, p) + Keep(b, p)
  {
    if a == [] {
      assert a + b == b;
    } else {
      var first, rest := if p(a[0]) then [a[0]] else [], a[1..];
      KeepAppend(rest, b, p);
      assert (a + b)[0] == a[0] && (a + b)[1..] == rest + b;
      assert Keep(a + b, p) == first + Keep(rest + b, p);
      assert Keep(a, p) == first + Keep(rest, p);
      assert first + (Keep(rest, p) + Keep(b, p)) == (first + Keep(rest, p)) + Keep(b, p);
    }
  }

  /** A snapshot that covers the slots never undercounts them, entries left out or not. */
  lemma {:induction false} SnapshotCoversLedger(
    catalog: seq<Entry>, slots: seq<Slot>, rows: seq<Option<Loaded>>, skip: seq<EntryId>, k: nat)
    requires k <= |rows| && RowsOf(catalog, rows) && Covers(catalog, slots, rows)
    ensures Ledger(catalog, slots, skip, k) <= Share(Keep(Compact(rows[..k]), Outside(skip))).cost
  {
    hide Entry.Cost;
    if k > 0 {
      SnapshotCoversLedger(catalog, slots, rows, skip, k - 1);
      assert rows[..k][..k - 1] == rows[..k - 1];
      var tail := if rows[k - 1].Some? then [rows[k - 1].value] else [];
      var p := Outside(skip);
      KeepAppend(Compact(rows[..k - 1]), tail, p);
      ShareAppend(Keep(Compact(rows[..k - 1]), p), Keep(tail, p));
      if rows[k - 1].Some? && k - 1 !in skip {
        assert Keep(tail, p) == tail && tail[1..] == [];
        assert Share(tail).cost == rows[k - 1].value.costMib;
      }
    }
  }
}

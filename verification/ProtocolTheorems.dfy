/** What the protocol promises, over every run of every number of threads. */
module ProtocolTheorems {
  import opened Wrappers
  import opened Admission
  import opened SlotTable
  import opened Protocol
  import opened ProtocolInvariant
  import opened ProtocolKeeps
  import opened ProtocolBudget

  // ---------------------------------------------------------------------------- the readers

  ghost function Readers(s: State, i: EntryId, c: ChildId): set<ThreadId> {
    set t | t in s.threads && Reads(s.threads[t].pc, i, c)
  }

  /** A slotted child's strong count is exactly one plus its readers, in every run. */
  lemma {:induction false} CountIsOnePlusReaders(cfg: Config, run: seq<State>, n: nat, i: EntryId)
    requires IsRun(cfg, run) && n < |run|
    requires i < |run[n].mem.slots| && run[n].mem.slots[i].Some?
    ensures var s := run[n];
            var c := s.mem.slots[i].value.child;
            && s.mem.Count(c) == 1 + |Readers(s, i, c)|
            && (s.mem.Busy(i) <==> Readers(s, i, c) != {})
  {
    RunsKeepTheInvariant(cfg, run, n);
    var s := run[n];
    var c := s.mem.slots[i].value.child;
    assert AtHome(s, i);
    forall t ensures t in Holders(s.threads, c) <==> t in Readers(s, i, c) {
      if t in Holders(s.threads, c) {
        if !IsReader(s.threads[t].pc) { assert false; }
        OwnsOne(s.threads[t].pc);
      }
    }
    assert Holders(s.threads, c) == Readers(s, i, c);
    assert s.mem.Count(c) == |Holders(s.threads, c)| + 1;
  }

  /**
   Until `clear` takes a child somebody is reading from, whatever a reader was
   handed is still in its own entry's slot.
   */
  lemma {:induction false} ReadersKeepTheirChild(
    cfg: Config, run: seq<State>, n: nat, t: ThreadId, e: EntryId, c: ChildId)
    requires IsRun(cfg, run) && n < |run| && !run[n].cut
    requires t in run[n].threads && Reads(run[n].threads[t].pc, e, c)
    ensures var s := run[n];
            e < |s.mem.slots| && s.mem.slots[e].Some? && s.mem.slots[e].value.child == c
  {
    RunsKeepTheInvariant(cfg, run, n);
    assert InSlot(run[n], c);
  }

  /** The insertion always finds the slot empty: one child per entry, and none is lost. */
  lemma {:induction false} InsertionFindsTheSlotEmpty(cfg: Config, run: seq<State>, n: nat, t: ThreadId)
    requires IsRun(cfg, run) && n < |run| && t in run[n].threads && run[n].threads[t].pc.Place?
    ensures var s := run[n];
            var e := s.threads[t].pc.e;
            e < |s.mem.slots| && s.mem.slots[e].None? && s.admission == Some(t)
  {
    RunsKeepTheInvariant(cfg, run, n);
    var s := run[n];
    assert PcOk(cfg, s.threads[t].pc);
    assert VacantFor(s, s.threads[t].pc);
  }

  // ----------------------------------------------------------------------------- the ledger

  /**
   With a limit set, the costs of what is loaded exceed it, if they do, by no
   more than what a single child, measured after its admission, costs above its
   own estimate: all the others at their cost and that one at its estimate fit.
   */
  lemma {:induction false} CostsOvershootByOneChild(cfg: Config, run: seq<State>, n: nat)
    requires IsRun(cfg, run) && n < |run| && cfg.limit.Some?
    ensures |run[n].mem.slots| == |cfg.catalog|
    ensures var slots, limit := run[n].mem.slots, cfg.limit.value;
            var ledger := Ledger(cfg.catalog, slots, [], |cfg.catalog|);
            || ledger <= limit
            || exists i :: 0 <= i < |slots| && slots[i].Some?
                           && ledger + cfg.catalog[i].estimateMib
                              <= limit + cfg.catalog[i].Cost(slots[i].value.measured)
  {
    RunsKeepTheInvariant(cfg, run, n);
    var slots := run[n].mem.slots;
    assert OneOvershoot(cfg, slots);
    if i: EntryId :| AllButOneFit(cfg, slots, i) { assert slots[i].Some?; }
  }

  /** So the estimates of what is loaded never exceed the limit. */
  lemma {:induction false} LedgerIsSafe(cfg: Config, run: seq<State>, n: nat)
    requires IsRun(cfg, run) && n < |run| && cfg.limit.Some?
    ensures |run[n].mem.slots| == |cfg.catalog|
    ensures Estimates(cfg.catalog, run[n].mem.slots, |cfg.catalog|) <= cfg.limit.value
  {
    CostsOvershootByOneChild(cfg, run, n);
    var slots := run[n].mem.slots;
    EstimatesWithinLedger(cfg.catalog, slots, |slots|);
    if Ledger(cfg.catalog, slots, [], |slots|) > cfg.limit.value {
      var i :| 0 <= i < |slots| && slots[i].Some?
               && Ledger(cfg.catalog, slots, [], |slots|) + cfg.catalog[i].estimateMib
                  <= cfg.limit.value + cfg.catalog[i].Cost(slots[i].value.measured);
      OneAtItsEstimate(cfg.catalog, slots, i, |slots|);
    }
  }

  /**
   When `make_room` has said yes, and for as long as the child is being
   started, the costs of everything loaded and the wanted estimate fit.
   */
  lemma {:induction false} RoomIsThereWhenStarting(cfg: Config, run: seq<State>, n: nat, t: ThreadId)
    requires IsRun(cfg, run) && n < |run| && cfg.limit.Some?
    requires t in run[n].threads && (run[n].threads[t].pc.Load? || run[n].threads[t].pc.Place?)
    ensures var e := run[n].threads[t].pc.e;
            && e < |run[n].mem.slots| == |cfg.catalog|
            && Ledger(cfg.catalog, run[n].mem.slots, [], |cfg.catalog|) + cfg.catalog[e].estimateMib
               <= cfg.limit.value
  {
    RunsKeepTheInvariant(cfg, run, n);
    var s := run[n];
    assert PcOk(cfg, s.threads[t].pc);
    assert Accounted(cfg, s.mem.slots, s.threads[t].pc);
  }

  /** Only an insertion adds to what is loaded; every other step of the system keeps or shrinks it. */
  lemma {:induction false} OnlyInsertionsGrow(cfg: Config, run: seq<State>, n: nat, ev: Event)
    requires IsRun(cfg, run) && n < |run| && Enabled(cfg, run[n], ev)
    requires !(ev.Run? && run[n].threads[ev.t].pc.Place?)
    ensures Shrinks(run[n].mem.slots, Apply(cfg, run[n], ev).mem.slots)
  {
    RunsKeepTheInvariant(cfg, run, n);
    if ev.Run? {
      CodeIsPermitted(cfg, run[n], ev.t, ev.ch);
      var (fx, pc) := Code(cfg, run[n], ev.t, ev.ch);
      OtherStepsShrink(cfg, run[n], ev.t, fx, pc);
    }
  }

  // ------------------------------------------------------------------- what empties a slot

  /** Why the program took what it took. */
  ghost predicate TakenFor(cfg: Config, s: State, pc: Pc, i: EntryId)
    requires i < |s.mem.slots| && s.mem.slots[i].Some?
  {
    var held := s.mem.slots[i].value;
    || (pc.Evict? && i in pc.ids)
    || (pc.Cull? && i in pc.ids && Stale(cfg.window, pc.now)(held))
    || (pc.Reap? && held.child in s.mem.dead)
    || pc.Wipe?
  }

  /** The reason behind an effect that empties a slot. */
  ghost predicate HasReason(cfg: Config, s: State, pc: Pc, fx: Effect) {
    && (fx.Take? ==> fx.i < |s.mem.slots| && s.mem.slots[fx.i].Some? && TakenFor(cfg, s, pc, fx.i))
    && (fx.Discard? ==> pc.Fast? || pc.Again?)
  }

  lemma {:induction false} EmptyingReasons(cfg: Config, s: State, t: ThreadId, ch: Choice)
    requires CanRun(cfg, s, t, ch)
    ensures HasReason(cfg, s, s.threads[t].pc, Code(cfg, s, t, ch).0)
  {}

  /** Whoever empties a slot took its child out or dropped it, from no reader unless to clear, which is recorded. */
  lemma {:induction false} CommitEmpties(cfg: Config, s: State, t: ThreadId, fx: Effect, pc: Pc, i: EntryId)
    requires Core(cfg, s) && t in s.threads && Permitted(cfg, s, s.threads[t], fx, pc)
    requires i < |s.mem.slots| && s.mem.slots[i].Some?
    requires i < |Commit(s, t, fx, pc).mem.slots| && Commit(s, t, fx, pc).mem.slots[i].None?
    ensures fx == Take(i) || (fx == Discard(i) && s.mem.slots[i].value.child in s.mem.dead)
    ensures s.threads[t].pc.Wipe? || Readers(s, i, s.mem.slots[i].value.child) == {}
    ensures s.threads[t].pc.Wipe? ==> (Commit(s, t, fx, pc).cut <==> s.cut || s.mem.Busy(i))
  {
    StepIsSound(cfg, s, t, fx, pc);
    OnlyTakesEmpty(cfg, s, t, fx, pc, i);
    ReadersHold(s, i, s.mem.slots[i].value.child);
  }

  lemma {:induction false} OnlyTakesEmpty(cfg: Config, s: State, t: ThreadId, fx: Effect, pc: Pc, i: EntryId)
    requires t in s.threads && Permitted(cfg, s, s.threads[t], fx, pc)
    requires i < |s.mem.slots| && s.mem.slots[i].Some?
    requires i < |Affect(s.mem, fx).slots| && Affect(s.mem, fx).slots[i].None?
    ensures fx == Take(i) || (fx == Discard(i) && s.mem.slots[i].value.child in s.mem.dead)
  {}

  lemma {:induction false} ReadersHold(s: State, i: EntryId, c: ChildId)
    ensures Readers(s, i, c) <= Holders(s.threads, c)
  {}

  /**
   A slot is emptied in four ways only.  Eviction takes an on-demand child
   nobody reads from.  The idle sweep does too, and only when the child was
   last used, and every relay of it that finished had ended, a window before
   the sweep looked.  A dead child nobody reads from goes whatever its
   residency.  `clear` takes everything, and from then on it is on record that a
   reader lost its child, exactly when one does now or one did before.  So no
   resident is ever unloaded for room or for idleness.
   */
  lemma {:induction false} EmptyingHasAReason(cfg: Config, run: seq<State>, n: nat, ev: Event, i: EntryId)
    requires IsRun(cfg, run) && n < |run| && Enabled(cfg, run[n], ev) && cfg.window != Some(0)
    requires i < |run[n].mem.slots| && run[n].mem.slots[i].Some?
    requires i < |Apply(cfg, run[n], ev).mem.slots| && Apply(cfg, run[n], ev).mem.slots[i].None?
    ensures ev.Run? && i < |cfg.catalog|
    ensures var s := run[n];
            var pc, held := s.threads[ev.t].pc, s.mem.slots[i].value;
            var onDemand, unread := cfg.catalog[i].residency.OnDemand?, Readers(s, i, held.child) == {};
            || (pc.Evict? && onDemand && unread)
            || (pc.Cull? && onDemand && unread && cfg.window.Some?
                && held.lastUsed + cfg.window.value <= pc.now <= s.mem.now
                && EndOf(s, held.child) + cfg.window.value <= pc.now)
            || ((pc.Reap? || pc.Fast? || pc.Again?) && held.child in s.mem.dead && unread)
            || (pc.Wipe? && (unread <==> !s.mem.Busy(i)) && (Apply(cfg, s, ev).cut <==> s.cut || !unread))
  {
    hide Code, Commit, HasReason, Permitted, IsRun;
    RunsKeepTheInvariant(cfg, run, n);
    CountIsOnePlusReaders(cfg, run, n, i);
    var s := run[n];
    assert ev.Run?;
    CodeIsPermitted(cfg, s, ev.t, ev.ch);
    EmptyingReasons(cfg, s, ev.t, ev.ch);
    var (fx, next) := Code(cfg, s, ev.t, ev.ch);
    assert Apply(cfg, s, ev) == Commit(s, ev.t, fx, next);
    CommitEmpties(cfg, s, ev.t, fx, next, i);
    ReasonsInFull(cfg, s, s.threads[ev.t].pc, fx, i);
  }

  lemma {:induction false} ReasonsInFull(cfg: Config, s: State, pc: Pc, fx: Effect, i: EntryId)
    requires PcOk(cfg, pc) && PcTimed(s, pc) && Timed(s) && cfg.window != Some(0)
    requires i < |s.mem.slots| == |cfg.catalog| && s.mem.slots[i].Some?
    requires HasReason(cfg, s, pc, fx)
    requires fx == Take(i) || (fx == Discard(i) && s.mem.slots[i].value.child in s.mem.dead)
    ensures var held, onDemand := s.mem.slots[i].value, cfg.catalog[i].residency.OnDemand?;
            || (pc.Evict? && onDemand)
            || (pc.Cull? && onDemand && cfg.window.Some?
                && held.lastUsed + cfg.window.value <= pc.now <= s.mem.now
                && EndOf(s, held.child) + cfg.window.value <= pc.now)
            || ((pc.Reap? || pc.Fast? || pc.Again?) && held.child in s.mem.dead)
            || pc.Wipe?
  {}

  /**
   What was read under the lock still holds when it is acted on, so the three
   steps of a critical section amount to one: a child seen idle is still idle
   at the moment it is taken or found dead.
   */
  lemma {:induction false} WhatWasSeenStillHolds(cfg: Config, run: seq<State>, n: nat, t: ThreadId)
    requires IsRun(cfg, run) && n < |run| && t in run[n].threads
    requires run[n].threads[t].idle == Some(true)
    ensures var s := run[n];
            var i := Needs(cfg, s.threads[t].pc);
            && i.Some? && i.value < |s.locks| == |s.mem.slots| && s.locks[i.value] == Some(t)
            && s.mem.slots[i.value].Some? && !s.mem.Busy(i.value)
            && Readers(s, i.value, s.mem.slots[i.value].value.child) == {}
  {
    RunsKeepTheInvariant(cfg, run, n);
    var s := run[n];
    var i := s.threads[t].lock.value;
    assert SeesIdle(s, s.threads[t]) && AtHome(s, i);
    var c := s.mem.slots[i].value.child;
    assert s.mem.Count(c) == |Holders(s.threads, c)| + 1;
    ReadersHold(s, i, c);
  }

  /** A slot is never marked as used before the end of a relay of its child that has finished. */
  lemma {:induction false} LastUseCoversFinishedRelays(cfg: Config, run: seq<State>, n: nat, i: EntryId)
    requires IsRun(cfg, run) && n < |run|
    requires i < |run[n].mem.slots| && run[n].mem.slots[i].Some?
    ensures EndOf(run[n], run[n].mem.slots[i].value.child) <= run[n].mem.slots[i].value.lastUsed <= run[n].mem.now
  {
    RunsKeepTheInvariant(cfg, run, n);
  }
}

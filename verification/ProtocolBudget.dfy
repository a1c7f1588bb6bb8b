/** The budget and the clock: what every step keeps about costs and times. */
module ProtocolBudget {
  import opened Wrappers
  import opened Admission
  import opened AdmissionLaws
  import opened SlotTable
  import opened Protocol
  import opened ProtocolInvariant
  import opened ProtocolKeeps

  // ------------------------------------------------------------------------------ the budget

  /** With `ids` gone, what is loaded and the estimate of `e` fit the limit together. */
  ghost predicate RoomFor(cfg: Config, slots: seq<Slot>, e: EntryId, ids: seq<EntryId>) {
    |slots| == |cfg.catalog| && e < |slots| && cfg.limit.Some? ==>
      Ledger(cfg.catalog, slots, ids, |slots|) + cfg.catalog[e].estimateMib <= cfg.limit.value
  }

  /** What an admission knows about the ledger, wherever it is. */
  ghost predicate Accounted(cfg: Config, slots: seq<Slot>, pc: Pc) {
    match pc
    case Scan(e, _, rows) => Covers(cfg.catalog, slots, rows) && (e < |rows| ==> rows[e].None?)
    case Evict(e, _, ids) => RoomFor(cfg, slots, e, ids)
    case Evicting(e, _, _, ids) => RoomFor(cfg, slots, e, ids)
    case Load(e) => RoomFor(cfg, slots, e, [])
    case Place(e, _) => RoomFor(cfg, slots, e, [])
    case _ => true
  }

  ghost predicate WithinLimit(cfg: Config, slots: seq<Slot>) {
    |slots| == |cfg.catalog| && cfg.limit.Some? ==>
      Estimates(cfg.catalog, slots, |slots|) <= cfg.limit.value
  }

  /** All but one of what is loaded, at its cost, and that one at its estimate, fit the limit. */
  ghost predicate AllButOneFit(cfg: Config, slots: seq<Slot>, i: EntryId) {
    && cfg.limit.Some? && |slots| == |cfg.catalog| && i < |slots| && slots[i].Some?
    && Ledger(cfg.catalog, slots, [], |slots|) + cfg.catalog[i].estimateMib
       <= cfg.limit.value + cfg.catalog[i].Cost(slots[i].value.measured)
  }

  /** The costs exceed the limit, if they do, by no more than one child's excess over its estimate. */
  ghost predicate OneOvershoot(cfg: Config, slots: seq<Slot>) {
    |slots| == |cfg.catalog| && cfg.limit.Some? ==>
      || Ledger(cfg.catalog, slots, [], |slots|) <= cfg.limit.value
      || exists i: EntryId :: AllButOneFit(cfg, slots, i)
  }

  lemma {:induction false} ShrinkingKeepsOneOvershoot(cfg: Config, before: seq<Slot>, after: seq<Slot>)
    requires OneOvershoot(cfg, before) && Shrinks(before, after)
    ensures OneOvershoot(cfg, after)
  {
    if |before| == |cfg.catalog| && cfg.limit.Some? {
      ShrinkingLowersTheLedger(cfg.catalog, before, after, [], |before|);
      if i: EntryId :| AllButOneFit(cfg, before, i) {
        if after[i].None? {
          EmptyingGivesTheCostBack(cfg.catalog, before, after, i, |before|);
        } else {
          assert AllButOneFit(cfg, after, i);
        }
      }
    }
  }

  lemma {:induction false} ShrinkingKeepsWithinLimit(cfg: Config, before: seq<Slot>, after: seq<Slot>)
    requires Shrinks(before, after)
    ensures WithinLimit(cfg, before) ==> WithinLimit(cfg, after)
    ensures OneOvershoot(cfg, before) ==> OneOvershoot(cfg, after)
  {
    if |before| == |cfg.catalog| { ShrinkingLowersTheLedger(cfg.catalog, before, after, [], |before|); }
    if OneOvershoot(cfg, before) { ShrinkingKeepsOneOvershoot(cfg, before, after); }
  }

  lemma {:induction false} FillingLeavesOneOvershoot(cfg: Config, slots: seq<Slot>, e: EntryId, held: Held)
    requires |slots| == |cfg.catalog| && e < |slots| && slots[e].None? && RoomFor(cfg, slots, e, [])
    ensures OneOvershoot(cfg, slots[e := Some(held)])
    ensures cfg.limit.Some? ==> AllButOneFit(cfg, slots[e := Some(held)], e)
  {
    FillingAddsTheCost(cfg.catalog, slots, e, held, |slots|);
    if cfg.limit.Some? { assert AllButOneFit(cfg, slots[e := Some(held)], e); }
  }

  /** However far one child overshoots its estimate, the estimates all fit. */
  lemma {:induction false} OneOvershootKeepsEstimates(cfg: Config, slots: seq<Slot>)
    requires OneOvershoot(cfg, slots)
    ensures WithinLimit(cfg, slots)
  {
    if |slots| == |cfg.catalog| && cfg.limit.Some? {
      EstimatesWithinLedger(cfg.catalog, slots, |slots|);
      if i: EntryId :| AllButOneFit(cfg, slots, i) { OneAtItsEstimate(cfg.catalog, slots, i, |slots|); }
    }
  }

  ghost predicate Budgeted(cfg: Config, s: State) {
    && OneOvershoot(cfg, s.mem.slots)
    && forall t :: t in s.threads ==> Accounted(cfg, s.mem.slots, s.threads[t].pc)
  }

  /** What other threads take away never spoils an admission's accounts. */
  lemma {:induction false} ShrinkingKeepsAccounts(cfg: Config, before: seq<Slot>, after: seq<Slot>, pc: Pc)
    requires |before| == |cfg.catalog| && Shrinks(before, after) && Accounted(cfg, before, pc)
    ensures Accounted(cfg, after, pc)
  {
    match pc {
      case Evict(_, _, ids) => ShrinkingLowersTheLedger(cfg.catalog, before, after, ids, |before|);
      case Evicting(_, _, _, ids) => ShrinkingLowersTheLedger(cfg.catalog, before, after, ids, |before|);
      case Load(_) => ShrinkingLowersTheLedger(cfg.catalog, before, after, [], |before|);
      case Place(_, _) => ShrinkingLowersTheLedger(cfg.catalog, before, after, [], |before|);
      case _ =>
    }
  }

  /** Only filling a slot adds anything. */
  lemma {:induction false} OtherStepsShrink(cfg: Config, s: State, t: ThreadId, fx: Effect, pc: Pc)
    requires t in s.threads && Permitted(cfg, s, s.threads[t], fx, pc) && !fx.Put?
    ensures Shrinks(s.mem.slots, Commit(s, t, fx, pc).mem.slots)
  {}

  lemma {:induction false} KeepsEverything(s: seq<Loaded>)
    ensures Keep(s, Outside([])) == s
  {
    if s != [] { KeepsEverything(s[1..]); }
  }

  /** A decision taken on a snapshot that covers the slots leaves room in the slots as they are now. */
  lemma {:induction false} DecisionLeavesRoom(
    cfg: Config, slots: seq<Slot>, e: EntryId, rows: seq<Option<Loaded>>, free: Option<nat>)
    requires |rows| == |slots| == |cfg.catalog| && e < |rows| && rows[e].None?
    requires RowsOf(cfg.catalog, rows) && Covers(cfg.catalog, slots, rows)
    ensures match Decide(cfg.limit, Compact(rows), WantedOf(e, cfg.catalog[e]), free)
            case Fits => RoomFor(cfg, slots, e, [])
            case Unload(ids) => RoomFor(cfg, slots, e, ids)
            case _ => true
  {
    var loaded, wanted := Compact(rows), WantedOf(e, cfg.catalog[e]);
    CompactMembers(cfg.catalog, rows);
    assert rows[..|rows|] == rows;
    var d := Decide(cfg.limit, loaded, wanted, free);
    if d.Fits? {
      assert !AlreadyLoaded(loaded, wanted);
      SnapshotCoversLedger(cfg.catalog, slots, rows, [], |rows|);
      KeepsEverything(loaded);
    } else if d.Unload? {
      SnapshotCoversLedger(cfg.catalog, slots, rows, d.ids, |rows|);
      AfterUnloadThereIsRoom(cfg.limit, loaded, wanted, free);
      ShareIsTotals(Keep(loaded, Outside(d.ids)));
    }
  }

  lemma {:induction false} ScanKeepsAccounts(cfg: Config, s: State, t: ThreadId, ch: Choice)
    requires Shape(cfg, s) && Vacant(s) && CanRun(cfg, s, t, ch) && s.threads[t].pc.Scan?
    requires Accounted(cfg, s.mem.slots, s.threads[t].pc)
    ensures var (fx, pc) := ScanCode(cfg, s, s.threads[t], ch);
            fx == Nothing && Accounted(cfg, s.mem.slots, pc)
  {
    var pc := s.threads[t].pc;
    assert PcOk(cfg, pc) && VacantFor(s, pc);
    if |pc.rows| == |cfg.catalog| {
      DecisionLeavesRoom(cfg, s.mem.slots, pc.e, pc.rows, ch.free);
    }
  }

  /** Taking an entry of the list out, or finding it gone, leaves as much room as was planned. */
  lemma {:induction false} EvictionKeepsAccounts(cfg: Config, s: State, t: ThreadId, ch: Choice)
    requires Shape(cfg, s) && CanRun(cfg, s, t, ch) && s.threads[t].pc.Evict?
    requires Accounted(cfg, s.mem.slots, s.threads[t].pc)
    ensures var (fx, pc) := AdmitCode(cfg, s, s.threads[t], ch);
            Accounted(cfg, Affect(s.mem, fx).slots, pc)
  {
    var ids := s.threads[t].pc.ids;
    var (fx, pc) := AdmitCode(cfg, s, s.threads[t], ch);
    if ids != [] && !pc.Hold? {
      var slots := Affect(s.mem, fx).slots;
      assert Shrinks(s.mem.slots, slots) && slots[ids[0]].None?;
      ShrinkingLowersTheLedger(cfg.catalog, s.mem.slots, slots, ids, |slots|);
      EmptySlotCostsNothing(cfg.catalog, slots, ids, |slots|);
    }
  }

  lemma {:induction false} AdmitKeepsAccounts(cfg: Config, s: State, t: ThreadId, ch: Choice)
    requires Shape(cfg, s) && CanRun(cfg, s, t, ch)
    requires InAdmission(s.threads[t].pc) && !s.threads[t].pc.Evict?
    requires Accounted(cfg, s.mem.slots, s.threads[t].pc)
    ensures var (fx, pc) := AdmitCode(cfg, s, s.threads[t], ch);
            Accounted(cfg, Affect(s.mem, fx).slots, pc)
  {}

  lemma {:induction false} RequestKeepsAccounts(cfg: Config, s: State, t: ThreadId, ch: Choice)
    requires Shape(cfg, s) && CanRun(cfg, s, t, ch) && InRequest(s.threads[t].pc)
    ensures var (fx, pc) := RequestCode(cfg, s, s.threads[t], ch);
            Accounted(cfg, Affect(s.mem, fx).slots, pc)
  {}

  lemma {:induction false} OthersKeepNoAccounts(cfg: Config, s: State, t: ThreadId, ch: Choice)
    requires CanRun(cfg, s, t, ch)
    requires var pc := s.threads[t].pc; !InRequest(pc) && !pc.Scan? && !InAdmission(pc)
    ensures var pc := Code(cfg, s, t, ch).1; IsReader(pc) || InReaper(pc) || InClear(pc) || pc.Rest?
  {}

  /** Filling the slot adds its estimate, for which the admission had left room. */
  lemma {:induction false} FillingStaysWithinLimit(cfg: Config, slots: seq<Slot>, e: EntryId, held: Held)
    requires |slots| == |cfg.catalog| && e < |slots| && slots[e].None?
    requires RoomFor(cfg, slots, e, [])
    ensures WithinLimit(cfg, slots[e := Some(held)])
  {
    EstimatesWithinLedger(cfg.catalog, slots, |slots|);
    FillingAddsTheEstimate(cfg.catalog, slots, e, held, |slots|);
  }

  lemma {:induction false} OwnAccountsKept(cfg: Config, s: State, t: ThreadId, ch: Choice)
    requires Core(cfg, s) && Budgeted(cfg, s) && CanRun(cfg, s, t, ch)
    ensures Accounted(cfg, Affect(s.mem, Code(cfg, s, t, ch).0).slots, Code(cfg, s, t, ch).1)
  {
    var pc := s.threads[t].pc;
    assert Accounted(cfg, s.mem.slots, pc);
    if InRequest(pc) { RequestKeepsAccounts(cfg, s, t, ch); }
    else if pc.Scan? { ScanKeepsAccounts(cfg, s, t, ch); }
    else if pc.Evict? { EvictionKeepsAccounts(cfg, s, t, ch); }
    else if InAdmission(pc) { AdmitKeepsAccounts(cfg, s, t, ch); }
    else { OthersKeepNoAccounts(cfg, s, t, ch); }
  }

  lemma {:induction false} RunKeepsBudget(cfg: Config, s: State, t: ThreadId, ch: Choice)
    requires Core(cfg, s) && Budgeted(cfg, s) && CanRun(cfg, s, t, ch)
    ensures Budgeted(cfg, Act(cfg, s, t, ch))
  {
    CodeIsPermitted(cfg, s, t, ch);
    OwnAccountsKept(cfg, s, t, ch);
    var (fx, pc) := Code(cfg, s, t, ch);
    StepIsSound(cfg, s, t, fx, pc);
    CommitKeepsBudget(cfg, s, t, fx, pc);
  }

  lemma {:induction false} CommitKeepsBudget(cfg: Config, s: State, t: ThreadId, fx: Effect, pc: Pc)
    requires Core(cfg, s) && Budgeted(cfg, s) && t in s.threads
    requires Permitted(cfg, s, s.threads[t], fx, pc) && Sound(s, t, fx)
    requires Accounted(cfg, Commit(s, t, fx, pc).mem.slots, pc)
    ensures Budgeted(cfg, Commit(s, t, fx, pc))
  {
    hide PcOk;
    var s' := Commit(s, t, fx, pc);
    if fx.Put? {
      assert Accounted(cfg, s.mem.slots, s.threads[t].pc);
      FillingLeavesOneOvershoot(cfg, s.mem.slots, fx.i, fx.held);
      forall u | u in s'.threads && u != t ensures Accounted(cfg, s'.mem.slots, s'.threads[u].pc) {
        assert HoldsAdmission(s.threads[t].pc) && !HoldsAdmission(s.threads[u].pc);
      }
    } else {
      OtherStepsShrink(cfg, s, t, fx, pc);
      ShrinkingKeepsOneOvershoot(cfg, s.mem.slots, s'.mem.slots);
      forall u | u in s'.threads && u != t ensures Accounted(cfg, s'.mem.slots, s'.threads[u].pc) {
        ShrinkingKeepsAccounts(cfg, s.mem.slots, s'.mem.slots, s.threads[u].pc);
      }
    }
  }

  // ------------------------------------------------------------------------------- the clock

  /** Times lie in the past, and a slot was used no earlier than any relay of its child ended. */
  ghost predicate Timed(s: State) {
    && (forall i :: 0 <= i < |s.mem.slots| && s.mem.slots[i].Some? ==>
          && s.mem.slots[i].value.lastUsed <= s.mem.now
          && EndOf(s, s.mem.slots[i].value.child) <= s.mem.slots[i].value.lastUsed)
    && forall t :: t in s.threads ==> PcTimed(s, s.threads[t].pc)
  }

  ghost predicate PcTimed(s: State, pc: Pc) {
    match pc
    case Place(_, held) => held.lastUsed <= s.mem.now && EndOf(s, held.child) == 0
    case Touch(_, _, end) => end <= s.mem.now
    case Done(_, c, relayed) =>
      relayed.Some? ==>
        relayed.value <= s.mem.now
        && (InSlot(s, c) ==> relayed.value <= s.mem.slots[s.home[c]].value.lastUsed)
    case Survey(now, _) => now <= s.mem.now
    case Cull(now, _) => now <= s.mem.now
    case Culling(now, _, _) => now <= s.mem.now
    case _ => true
  }

  /** A child nobody knew before has no finished relay. */
  ghost predicate EndsAreKnown(s: State) {
    forall c :: c in s.ended ==> c in s.home
  }

  lemma {:induction false} ServeTimes(cfg: Config, s: State, t: ThreadId, ch: Choice)
    requires Shape(cfg, s) && Homes(s) && Timed(s) && CanRun(cfg, s, t, ch) && IsReader(s.threads[t].pc)
    ensures var (fx, pc) := ServeCode(s, s.threads[t], ch); PcTimed(Commit(s, t, fx, pc), pc)
  {
    var pc := s.threads[t].pc;
    assert PcTimed(s, pc) && PcOk(cfg, pc);
    OwnsOne(pc);
    assert pc.c in s.home && s.home[pc.c] == pc.e;
  }

  lemma {:induction false} ReapTimes(cfg: Config, s: State, t: ThreadId, ch: Choice)
    requires Shape(cfg, s) && Timed(s) && CanRun(cfg, s, t, ch) && InReaper(s.threads[t].pc)
    ensures var (fx, pc) := ReapCode(cfg, s, s.threads[t]); PcTimed(Commit(s, t, fx, pc), pc)
  {}

  lemma {:induction false} AdmitTimes(cfg: Config, s: State, t: ThreadId, ch: Choice)
    requires Shape(cfg, s) && EndsAreKnown(s) && CanRun(cfg, s, t, ch) && InAdmission(s.threads[t].pc)
    ensures var (fx, pc) := AdmitCode(cfg, s, s.threads[t], ch); PcTimed(Commit(s, t, fx, pc), pc)
  {}

  lemma {:induction false} UntimedCode(cfg: Config, s: State, t: ThreadId, ch: Choice)
    requires CanRun(cfg, s, t, ch)
    requires var pc := s.threads[t].pc; InRequest(pc) || pc.Scan? || InClear(pc)
    ensures var (fx, pc) := Code(cfg, s, t, ch); PcTimed(Commit(s, t, fx, pc), pc)
  {}

  lemma {:induction false} OwnTimesKept(cfg: Config, s: State, t: ThreadId, ch: Choice)
    requires Core(cfg, s) && Timed(s) && EndsAreKnown(s) && CanRun(cfg, s, t, ch)
    ensures var (fx, pc) := Code(cfg, s, t, ch); PcTimed(Commit(s, t, fx, pc), pc)
  {
    hide RequestCode, ScanCode, AdmitCode, ServeCode, ReapCode, ClearCode, Commit, PcTimed;
    var pc := s.threads[t].pc;
    if IsReader(pc) { ServeTimes(cfg, s, t, ch); }
    else if InReaper(pc) { ReapTimes(cfg, s, t, ch); }
    else if InAdmission(pc) { AdmitTimes(cfg, s, t, ch); }
    else { UntimedCode(cfg, s, t, ch); }
  }

  lemma {:induction false} SlotTimesAfter(cfg: Config, s: State, t: ThreadId, fx: Effect, pc: Pc, i: EntryId)
    requires Shape(cfg, s) && Homes(s) && Timed(s) && t in s.threads
    requires Permitted(cfg, s, s.threads[t], fx, pc) && Sound(s, t, fx)
    requires var s' := Commit(s, t, fx, pc); i < |s'.mem.slots| && s'.mem.slots[i].Some?
    ensures var s' := Commit(s, t, fx, pc);
            && s'.mem.slots[i].value.lastUsed <= s'.mem.now
            && EndOf(s', s'.mem.slots[i].value.child) <= s'.mem.slots[i].value.lastUsed
  {
    hide PcOk;
  }

  lemma {:induction false} StarterKeepsTimes(cfg: Config, s: State, t: ThreadId, fx: Effect, pc: Pc, u: ThreadId)
    requires Homes(s) && Fresh(s) && Unslotted(s) && Timed(s)
    requires t in s.threads && u in s.threads && u != t && s.threads[u].pc.Place?
    requires Permitted(cfg, s, s.threads[t], fx, pc) && Sound(s, t, fx)
    ensures PcTimed(Commit(s, t, fx, pc), s.threads[u].pc)
  {
    StarterAlone(s, t, fx, u);
    assert PcTimed(s, s.threads[u].pc);
  }

  lemma {:induction false} LeaverKeepsTimes(cfg: Config, s: State, t: ThreadId, fx: Effect, pc: Pc, u: ThreadId)
    requires Shape(cfg, s) && Homes(s) && Timed(s)
    requires t in s.threads && u in s.threads && u != t && s.threads[u].pc.Done?
    requires Permitted(cfg, s, s.threads[t], fx, pc) && Sound(s, t, fx)
    ensures PcTimed(Commit(s, t, fx, pc), s.threads[u].pc)
  {
    var q := s.threads[u].pc;
    assert PcTimed(s, q);
    OwnsOne(q);
    InSlotAfter(cfg, s, t, fx, pc, q.c);
    if fx.Put? && fx.held.child == q.c { OnlyHolder(s.threads, q.c, t, u); }
  }

  /** Another thread's step leaves a thread's times alone. */
  lemma {:induction false} CommitKeepsOthersTimes(cfg: Config, s: State, t: ThreadId, fx: Effect, pc: Pc, u: ThreadId)
    requires Core(cfg, s) && Timed(s) && t in s.threads && u in s.threads && u != t
    requires Permitted(cfg, s, s.threads[t], fx, pc) && Sound(s, t, fx)
    ensures PcTimed(Commit(s, t, fx, pc), s.threads[u].pc)
  {
    var q := s.threads[u].pc;
    assert PcTimed(s, q);
    if q.Place? { StarterKeepsTimes(cfg, s, t, fx, pc, u); }
    if q.Done? { LeaverKeepsTimes(cfg, s, t, fx, pc, u); }
  }

  lemma {:induction false} RunKeepsTimes(cfg: Config, s: State, t: ThreadId, ch: Choice)
    requires Core(cfg, s) && Timed(s) && EndsAreKnown(s) && CanRun(cfg, s, t, ch)
    ensures Timed(Act(cfg, s, t, ch)) && EndsAreKnown(Act(cfg, s, t, ch))
  {
    CodeIsPermitted(cfg, s, t, ch);
    OwnTimesKept(cfg, s, t, ch);
    var (fx, pc) := Code(cfg, s, t, ch);
    StepIsSound(cfg, s, t, fx, pc);
    CommitKeepsTimes(cfg, s, t, fx, pc);
  }

  lemma {:induction false} CommitKeepsTimes(cfg: Config, s: State, t: ThreadId, fx: Effect, pc: Pc)
    requires Core(cfg, s) && Timed(s) && EndsAreKnown(s) && t in s.threads
    requires Permitted(cfg, s, s.threads[t], fx, pc) && Sound(s, t, fx)
    requires PcTimed(Commit(s, t, fx, pc), pc)
    ensures Timed(Commit(s, t, fx, pc)) && EndsAreKnown(Commit(s, t, fx, pc))
  {
    hide PcOk;
    var s' := Commit(s, t, fx, pc);
    forall i | 0 <= i < |s'.mem.slots| && s'.mem.slots[i].Some?
      ensures s'.mem.slots[i].value.lastUsed <= s'.mem.now
      ensures EndOf(s', s'.mem.slots[i].value.child) <= s'.mem.slots[i].value.lastUsed
    {
      SlotTimesAfter(cfg, s, t, fx, pc, i);
    }
    forall u | u in s'.threads ensures PcTimed(s', s'.threads[u].pc) {
      if u != t { CommitKeepsOthersTimes(cfg, s, t, fx, pc, u); }
    }
    if IsReader(s.threads[t].pc) { OwnsOne(s.threads[t].pc); }
  }

  // ------------------------------------------------------------------------ the whole invariant

  ghost predicate Invariant(cfg: Config, s: State) {
    Core(cfg, s) && Budgeted(cfg, s) && Timed(s) && EndsAreKnown(s)
  }

  lemma {:induction false} StillTimed(cfg: Config, s: State, now: nat, dead: set<ChildId>)
    requires Timed(s) && EndsAreKnown(s) && Budgeted(cfg, s) && s.mem.now <= now
    ensures var s' := s.(mem := s.mem.(now := now, dead := dead));
            Timed(s') && EndsAreKnown(s') && Budgeted(cfg, s')
  {}

  lemma {:induction false} SteadyKeepsTheRest(
    cfg: Config, s: State, t: ThreadId, th: Thread, locks: seq<Option<ThreadId>>)
    requires Steady(cfg, s, t, th) && Timed(s) && EndsAreKnown(s) && Budgeted(cfg, s)
    ensures var s' := Became(s, t, th, locks); Timed(s') && EndsAreKnown(s') && Budgeted(cfg, s')
  {}

  lemma {:induction false} StandKeepsTheRest(cfg: Config, s: State, ev: Event)
    requires Invariant(cfg, s) && Enabled(cfg, s, ev) && (ev.Begin? || ev.Lock? || ev.Look?)
    ensures Invariant(cfg, Apply(cfg, s, ev))
  {
    StandKept(cfg, s, ev);
    var s' := Apply(cfg, s, ev);
    SteadyKeepsTheRest(cfg, s, ev.t, s'.threads[ev.t], s'.locks);
  }

  lemma {:induction false} WorldKeepsInvariant(cfg: Config, s: State, ev: Event)
    requires Invariant(cfg, s) && (ev.Tick? || ev.Die?)
    ensures Invariant(cfg, Apply(cfg, s, ev))
  {
    var now, dead := s.mem.now, s.mem.dead;
    if ev.Tick? { now := now + ev.d; } else { dead := dead + {ev.c}; }
    WorldKeepsCore(cfg, s, now, dead);
    StillTimed(cfg, s, now, dead);
    assert Apply(cfg, s, ev) == s.(mem := s.mem.(now := now, dead := dead));
  }

  lemma {:induction false} RunKeepsInvariant(cfg: Config, s: State, ev: Event)
    requires Invariant(cfg, s) && Enabled(cfg, s, ev) && ev.Run?
    ensures Invariant(cfg, Apply(cfg, s, ev))
  {
    RunKept(cfg, s, ev.t, ev.ch);
    RunKeepsBudget(cfg, s, ev.t, ev.ch);
    RunKeepsTimes(cfg, s, ev.t, ev.ch);
  }

  /** Every step of every interleaving keeps the invariant. */
  lemma {:induction false} StepKeepsInvariant(cfg: Config, s: State, ev: Event)
    requires Invariant(cfg, s) && Enabled(cfg, s, ev)
    ensures Invariant(cfg, Apply(cfg, s, ev))
  {
    if ev.Tick? || ev.Die? { WorldKeepsInvariant(cfg, s, ev); }
    else if ev.Run? { RunKeepsInvariant(cfg, s, ev); }
    else { StandKeepsTheRest(cfg, s, ev); }
  }

  lemma {:induction false} NothingLoadedCostsNothing(cfg: Config, k: nat)
    requires k <= |cfg.catalog|
    ensures Ledger(cfg.catalog, seq(|cfg.catalog|, _ => None), [], k) == 0
  {
    if k > 0 { NothingLoadedCostsNothing(cfg, k - 1); }
  }

  /** In every state of every run, the invariant holds. */
  lemma {:induction false} RunsKeepTheInvariant(cfg: Config, run: seq<State>, n: nat)
    requires IsRun(cfg, run) && n < |run|
    ensures Invariant(cfg, run[n])
  {
    if n == 0 {
      CoreAtStart(cfg, run[0]);
      NothingLoadedCostsNothing(cfg, |cfg.catalog|);
    } else {
      RunsKeepTheInvariant(cfg, run, n - 1);
      assert Next(cfg, run[n - 1], run[n]);
      var ev :| Enabled(cfg, run[n - 1], ev) && run[n] == Apply(cfg, run[n - 1], ev);
      StepKeepsInvariant(cfg, run[n - 1], ev);
    }
  }
}

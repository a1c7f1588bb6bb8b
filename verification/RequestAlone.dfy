/**
 A request nobody disturbs.  The invariant says what no interleaving can do; here
 is what the program does do when the other threads stand still: it serves a live
 child, makes room exactly when room can be made and starts the child, gives up
 exactly when waiting is no use, and otherwise waits.
 */
module RequestAlone {
  import opened Wrappers
  import opened Admission
  import opened AdmissionLaws
  import opened SlotTable
  import opened Protocol
  import opened ProtocolInvariant
  import opened ProtocolBudget
  import opened Refinement
  import Slots

  /** Nobody holds a slot's lock, and nobody else the admission lock. */
  ghost predicate Alone(cfg: Config, s: State, t: ThreadId) {
    && Invariant(cfg, s) && t in s.threads && |s.mem.slots| == |s.locks| == |cfg.catalog|
    && (forall i :: 0 <= i < |s.locks| ==> s.locks[i].None?)
    && (s.admission.None? || s.admission == Some(t)) && s.threads[t].lock.None? && s.threads[t].idle.None?
  }

  ghost predicate By(t: ThreadId, ev: Event) { ev == Lock(t) || ev == Look(t) || (ev.Run? && ev.t == t) }

  /** Steps of this thread lead from one state to the other. */
  ghost predicate Leads(cfg: Config, s: State, t: ThreadId, s': State) {
    exists evs :: (forall ev :: ev in evs ==> By(t, ev)) && Play(cfg, s, evs) == Some(s')
  }

  lemma {:induction false} LeadsNowhere(cfg: Config, s: State, t: ThreadId)
    ensures Leads(cfg, s, t, s)
  {
    var none: seq<Event> := [];
    assert Play(cfg, s, none) == Some(s);
  }

  lemma {:induction false} PlayBoth(cfg: Config, s: State, a: seq<Event>, b: seq<Event>)
    ensures Play(cfg, s, a + b) == match Play(cfg, s, a) case None => None case Some(m) => Play(cfg, m, b)
    decreases |a|
  {
    hide Apply, Enabled;
    if a == [] {
      assert a + b == b;
    } else {
      assert (a + b)[1..] == a[1..] + b;
      if Enabled(cfg, s, a[0]) { PlayBoth(cfg, Apply(cfg, s, a[0]), a[1..], b); }
    }
  }

  lemma {:induction false} LeadsOn(cfg: Config, s: State, t: ThreadId, m: State, s': State)
    requires Leads(cfg, s, t, m) && Leads(cfg, m, t, s')
    ensures Leads(cfg, s, t, s')
  {
    hide Play;
    var a :| (forall ev :: ev in a ==> By(t, ev)) && Play(cfg, s, a) == Some(m);
    var b :| (forall ev :: ev in b ==> By(t, ev)) && Play(cfg, m, b) == Some(s');
    PlayBoth(cfg, s, a, b);
    assert forall ev :: ev in a + b ==> By(t, ev);
  }

  lemma {:induction false} LeadsOneStep(cfg: Config, s: State, t: ThreadId, ev: Event)
    requires Enabled(cfg, s, ev) && By(t, ev) && Invariant(cfg, s)
    ensures Leads(cfg, s, t, Apply(cfg, s, ev)) && Invariant(cfg, Apply(cfg, s, ev))
  {
    hide Apply, Enabled, Invariant;
    PlayLast(cfg, s, ev);
    assert forall e :: e in [ev] ==> By(t, e);
    StepKeepsInvariant(cfg, s, ev);
  }

  // ----------------------------------------------------------------------------- one section

  /** The thread with the lock its next step needs, and the count it goes by. */
  ghost function Poised(cfg: Config, s: State, t: ThreadId): State
    requires t in s.threads && |s.mem.slots| == |s.locks|
  {
    match Needs(cfg, s.threads[t].pc)
    case Some(i) => if i < |s.locks| then Informed(s, t, i) else s
    case None => s
  }

  lemma {:induction false} LeadsToPoised(cfg: Config, s: State, t: ThreadId)
    requires Alone(cfg, s, t)
    requires Needs(cfg, s.threads[t].pc).Some? ==> Needs(cfg, s.threads[t].pc).value < |s.locks|
    ensures Leads(cfg, s, t, Poised(cfg, s, t)) && Invariant(cfg, Poised(cfg, s, t))
  {
    hide Invariant, Leads, By, Apply, Enabled, Needs;
    LeadsNowhere(cfg, s, t);
    match Needs(cfg, s.threads[t].pc)
    case None =>
    case Some(i) =>
      assert Ready(cfg, s, t, i);
      LockFirst(cfg, s, t, i);
      assert By(t, Lock(t)) && By(t, Look(t)) by { Steps(t); }
      LeadsOneStep(cfg, s, t, Lock(t));
      if AsksIdle(s.threads[t].pc) && s.mem.slots[i].Some? {
        ThenLook(cfg, s, t, i);
        LeadsOneStep(cfg, Grabbed(s, t, i), t, Look(t));
        LeadsOn(cfg, s, t, Grabbed(s, t, i), Informed(s, t, i));
      }
  }

  lemma {:induction false} Steps(t: ThreadId)
    ensures By(t, Lock(t)) && By(t, Look(t)) && forall ch :: By(t, Run(t, ch))
  {}

  /** The thread takes its section, and has the effect its last step decides on. */
  lemma {:induction false} TakesAStep(cfg: Config, s: State, t: ThreadId, ch: Choice, fx: Effect, pc: Pc)
    returns (s': State)
    requires Alone(cfg, s, t) && CanRun(cfg, Poised(cfg, s, t), t, ch)
    requires Code(cfg, Poised(cfg, s, t), t, ch) == (fx, pc)
    ensures Leads(cfg, s, t, s') && Alone(cfg, s', t)
    ensures s'.mem == Affect(s.mem, fx) && s'.threads == s.threads[t := Thread(pc, None, None)]
    ensures s'.home == if fx.Spawn? then s.home[fx.c := fx.e] else s.home
    ensures !HoldsAdmission(pc) ==> s'.admission.None?
  {
    hide Invariant, Leads, By, Code, Affect;
    var poised := Poised(cfg, s, t);
    LeadsToPoised(cfg, s, t);
    s' := Apply(cfg, poised, Run(t, ch));
    assert By(t, Run(t, ch)) by { Steps(t); }
    LeadsOneStep(cfg, poised, t, Run(t, ch));
    LeadsOn(cfg, s, t, poised, s');
    assert |s'.mem.slots| == |cfg.catalog| by { InvariantSizes(cfg, s'); }
  }

  lemma {:induction false} InvariantSizes(cfg: Config, s: State)
    requires Invariant(cfg, s)
    ensures |s.mem.slots| == |s.locks| == |cfg.catalog|
    ensures forall t :: t in s.threads ==> PcOk(cfg, s.threads[t].pc)
  {}

  /** Nothing stands in the way of a thread's next step but an admission lock, a pause or a child's name. */
  lemma {:induction false} PoisedRuns(cfg: Config, s: State, t: ThreadId, ch: Choice)
    requires Alone(cfg, s, t) && !s.threads[t].pc.Rest? && !s.threads[t].pc.Wiping?
    requires s.threads[t].pc.Queue? ==> s.admission.None?
    requires s.threads[t].pc.Sleep? ==> s.mem.now >= s.threads[t].pc.until
    requires s.threads[t].pc.Load? && ch.ok ==> ch.child !in s.home
    ensures PcOk(cfg, s.threads[t].pc) && CanRun(cfg, Poised(cfg, s, t), t, ch)
  {
    hide Invariant;
    InvariantSizes(cfg, s);
    NeedsAreInRange(cfg, s.threads[t].pc);
  }

  lemma {:induction false} NeedsAreInRange(cfg: Config, pc: Pc)
    requires PcOk(cfg, pc)
    ensures Needs(cfg, pc).Some? ==> Needs(cfg, pc).value < |cfg.catalog|
  {
    assert pc.Evict? && pc.ids != [] ==> pc.ids[0] in pc.ids;
    assert pc.Cull? && pc.ids != [] ==> pc.ids[0] in pc.ids;
    assert pc.Wipe? && pc.ids != [] ==> pc.ids[0] in pc.ids;
  }

  // ---------------------------------------------------------------------- from the ask to the decision

  /** The rest of the system has not moved. */
  ghost predicate OnlyMoved(s: State, t: ThreadId, s': State, pc: Pc) {
    t in s.threads && s'.threads == s.threads[t := Thread(pc, None, None)]
  }

  /** A request for a live child is handed it. */
  lemma {:induction false} HandedOut(cfg: Config, s: State, t: ThreadId, e: EntryId, ch: Choice) returns (s': State)
    requires Alone(cfg, s, t) && s.threads[t].pc == Fast(e) && e < |cfg.catalog| && Slots.Live(s.mem, e)
    ensures Leads(cfg, s, t, s') && Alone(cfg, s', t)
    ensures OnlyMoved(s, t, s', Serve(e, s.mem.slots[e].value.child)) && s'.mem == Affect(s.mem, Clone(e))
  {
    hide Leads, Invariant, Affect, ScanCode, AdmitCode, ServeCode, ReapCode, ClearCode;
    PoisedRuns(cfg, s, t, ch);
    s' := TakesAStep(cfg, s, t, ch, Clone(e), Serve(e, s.mem.slots[e].value.child));
  }

  /** Any other goes on to the admission lock, a dead child it found there discarded. */
  lemma {:induction false} Queues(cfg: Config, s: State, t: ThreadId, e: EntryId, ch: Choice) returns (s': State)
    requires Alone(cfg, s, t) && s.threads[t].pc == Fast(e) && e < |cfg.catalog| && !Slots.Live(s.mem, e)
    ensures Leads(cfg, s, t, s') && Alone(cfg, s', t) && s'.home == s.home && s'.admission.None?
    ensures OnlyMoved(s, t, s', Queue(e)) && s'.mem == Affect(s.mem, Discard(e))
  {
    hide Leads, Invariant, ScanCode, AdmitCode, ServeCode, ReapCode, ClearCode;
    PoisedRuns(cfg, s, t, ch);
    var fx := if s.mem.slots[e].Some? then Discard(e) else Nothing;
    s' := TakesAStep(cfg, s, t, ch, fx, Queue(e));
  }

  /** With the admission lock, an empty slot, and the file there, it looks at what is loaded. */
  lemma {:induction false} SetsOut(cfg: Config, s: State, t: ThreadId, e: EntryId, ch: Choice) returns (s': State)
    requires Alone(cfg, s, t) && s.threads[t].pc == Queue(e) && s.admission.None?
    requires e < |cfg.catalog| && s.mem.slots[e].None? && ch.ok
    ensures Leads(cfg, s, t, s') && Alone(cfg, s', t) && s'.home == s.home
    ensures OnlyMoved(s, t, s', Scan(e, s.mem.now + cfg.wait, [])) && s'.mem == s.mem
  {
    hide Leads, Invariant, ScanCode, AdmitCode, ServeCode, ReapCode, ClearCode;
    PoisedRuns(cfg, s, t, ch);
    var a := TakesAStep(cfg, s, t, ch, Nothing, Again(e));
    PoisedRuns(cfg, a, t, ch);
    var b := TakesAStep(cfg, a, t, ch, Nothing, Check(e));
    LeadsOn(cfg, s, t, a, b);
    PoisedRuns(cfg, b, t, ch);
    s' := TakesAStep(cfg, b, t, ch, Nothing, Scan(e, s.mem.now + cfg.wait, []));
    LeadsOn(cfg, s, t, b, s');
  }

  /** Without its file it is answered before anything is unloaded. */
  lemma {:induction false} WithoutItsFile(cfg: Config, s: State, t: ThreadId, e: EntryId, ch: Choice)
    returns (s': State)
    requires Alone(cfg, s, t) && s.threads[t].pc == Queue(e) && s.admission.None?
    requires e < |cfg.catalog| && s.mem.slots[e].None? && !ch.ok
    ensures Leads(cfg, s, t, s') && Alone(cfg, s', t) && s'.home == s.home && s'.admission.None?
    ensures OnlyMoved(s, t, s', Rest) && s'.mem == s.mem
  {
    hide Leads, Invariant, ScanCode, AdmitCode, ServeCode, ReapCode, ClearCode;
    PoisedRuns(cfg, s, t, ch);
    var a := TakesAStep(cfg, s, t, ch, Nothing, Again(e));
    PoisedRuns(cfg, a, t, ch);
    var b := TakesAStep(cfg, a, t, ch, Nothing, Check(e));
    LeadsOn(cfg, s, t, a, b);
    PoisedRuns(cfg, b, t, ch);
    s' := TakesAStep(cfg, b, t, ch, Nothing, Rest);
    LeadsOn(cfg, s, t, b, s');
  }

  /** Its snapshot is of the slots as they are. */
  lemma {:induction false} Looks(
    cfg: Config, s: State, t: ThreadId, e: EntryId, deadline: nat, n: nat, ch: Choice) returns (s': State)
    requires Alone(cfg, s, t) && n <= |cfg.catalog|
    requires s.threads[t].pc == Scan(e, deadline, Slots.RowsNow(cfg.catalog, s.mem)[..n])
    ensures Leads(cfg, s, t, s') && Alone(cfg, s', t) && s'.home == s.home
    ensures OnlyMoved(s, t, s', Scan(e, deadline, Slots.RowsNow(cfg.catalog, s.mem))) && s'.mem == s.mem
    decreases |cfg.catalog| - n
  {
    hide Leads, Invariant, RequestCode, AdmitCode, ServeCode, ReapCode, ClearCode, Decide;
    var rows := Slots.RowsNow(cfg.catalog, s.mem);
    if n == |cfg.catalog| {
      assert rows[..n] == rows;
      LeadsNowhere(cfg, s, t);
      s' := s;
      assert s.threads == s.threads[t := Thread(s.threads[t].pc, None, None)];
    } else {
      PoisedRuns(cfg, s, t, ch);
      assert rows[..n + 1] == rows[..n] + [rows[n]];
      var a := TakesAStep(cfg, s, t, ch, Nothing, Scan(e, deadline, rows[..n + 1]));
      s' := Looks(cfg, a, t, e, deadline, n + 1, ch);
      LeadsOn(cfg, s, t, a, s');
    }
  }

  /** The decision on a complete snapshot: load, evict, hold or give up. */
  lemma {:induction false} Decides(
    cfg: Config, s: State, t: ThreadId, e: EntryId, deadline: nat, ch: Choice) returns (s': State)
    requires Alone(cfg, s, t) && e < |cfg.catalog| && s.mem.slots[e].None?
    requires s.threads[t].pc == Scan(e, deadline, Slots.RowsNow(cfg.catalog, s.mem))
    ensures Leads(cfg, s, t, s') && Alone(cfg, s', t) && s'.home == s.home && s'.mem == s.mem
    ensures t in s'.threads && OnlyMoved(s, t, s', s'.threads[t].pc)
    ensures var rows, pc := Slots.RowsNow(cfg.catalog, s.mem), s'.threads[t].pc;
            var able := CanMakeRoom(cfg.limit, Compact(rows), WantedOf(e, cfg.catalog[e]), ch.free);
            var over := cfg.limit.Some? && cfg.catalog[e].estimateMib > cfg.limit.value;
            if Suffices(cfg.limit, WantedOf(e, cfg.catalog[e]), ch.free, [], Compact(rows)) then pc == Load(e)
            else if able
            then pc.Evict? && pc == Evict(e, deadline, pc.ids) && AllIdle(s.mem, pc.ids) && OnDemandIds(cfg, pc.ids)
            else if over || !Slots.SomebodyReads(rows, e) then pc == Rest
            else pc == Hold(e, deadline)
  {
    hide Leads, Invariant, RequestCode, AdmitCode, ServeCode, ReapCode, ClearCode, CanMakeRoom, Slots.SomebodyReads;
    PoisedRuns(cfg, s, t, ch);
    var rows := Slots.RowsNow(cfg.catalog, s.mem);
    Slots.AnswerOnRows(cfg.limit, cfg.catalog, rows, e, ch.free);
    Slots.NamedWereIdle(cfg.limit, cfg.catalog, rows, e, ch.free);
    DecisionIsOnDemand(cfg, rows, WantedOf(e, cfg.catalog[e]), ch.free);
    var pc := match Decide(cfg.limit, Compact(rows), WantedOf(e, cfg.catalog[e]), ch.free)
              case Fits => Load(e)
              case Unload(ids) => Evict(e, deadline, ids)
              case Blocked(_) => Hold(e, deadline)
              case Refuse(_) => Rest;
    s' := TakesAStep(cfg, s, t, ch, Nothing, pc);
  }

  /** In each of these slots is no child, or one nobody reads from. */
  ghost predicate AllIdle(m: Memory, ids: seq<EntryId>) {
    forall id :: id in ids ==> id < |m.slots| && (m.slots[id].Some? ==> !m.Busy(id))
  }

  // ---------------------------------------------------------------- from the decision to the child

  /** What was to go goes, and nothing else. */
  lemma {:induction false} MakesRoom(
    cfg: Config, s: State, t: ThreadId, e: EntryId, deadline: nat, ids: seq<EntryId>, ch: Choice) returns (s': State)
    requires Alone(cfg, s, t) && s.threads[t].pc == Evict(e, deadline, ids) && AllIdle(s.mem, ids)
    ensures Leads(cfg, s, t, s') && Alone(cfg, s', t) && s'.home == s.home
    ensures OnlyMoved(s, t, s', Load(e)) && Slots.Without(s.mem, s'.mem, ids) && s'.mem.now == s.mem.now
    decreases |ids|
  {
    hide Leads, Invariant, RequestCode, ScanCode, ServeCode, ReapCode, ClearCode;
    PoisedRuns(cfg, s, t, ch);
    if ids == [] {
      s' := TakesAStep(cfg, s, t, ch, Nothing, Load(e));
    } else {
      assert ids[0] in ids && forall id :: id in ids <==> id == ids[0] || id in ids[1..];
      var b := EvictsOne(cfg, s, t, e, deadline, ids, ch);
      s' := MakesRoom(cfg, b, t, e, deadline, ids[1..], ch);
      LeadsOn(cfg, s, t, b, s');
    }
  }

  lemma {:induction false} EvictsOne(
    cfg: Config, s: State, t: ThreadId, e: EntryId, deadline: nat, ids: seq<EntryId>, ch: Choice) returns (b: State)
    requires Alone(cfg, s, t) && s.threads[t].pc == Evict(e, deadline, ids) && AllIdle(s.mem, ids) && ids != []
    ensures Leads(cfg, s, t, b) && Alone(cfg, b, t) && b.home == s.home
    ensures OnlyMoved(s, t, b, Evict(e, deadline, ids[1..])) && b.mem.now == s.mem.now
    ensures ids[0] < |s.mem.slots| && b.mem.slots == s.mem.slots[ids[0] := None]
    ensures forall c: ChildId :: b.mem.Count(c) <= s.mem.Count(c)
  {
    hide Leads, Invariant, Affect, RequestCode, ScanCode, ServeCode, ReapCode, ClearCode;
    PoisedRuns(cfg, s, t, ch);
    var i := ids[0];
    assert i in ids;
    assert Affect(s.mem, Nothing) == s.mem by { NothingHappens(s.mem); }
    if s.mem.slots[i].Some? { TakeAndRelease(s.mem, i, s.mem.slots[i].value.child); }
    if s.mem.slots[i].None? {
      b := TakesAStep(cfg, s, t, ch, Nothing, Evict(e, deadline, ids[1..]));
    } else {
      var c := s.mem.slots[i].value.child;
      var a := TakesAStep(cfg, s, t, ch, Take(i), Evicting(e, deadline, c, ids[1..]));
      PoisedRuns(cfg, a, t, ch);
      b := TakesAStep(cfg, a, t, ch, Release(c), Evict(e, deadline, ids[1..]));
      LeadsOn(cfg, s, t, a, b);
    }
  }

  lemma {:induction false} SpawnAndPut(m: Memory, e: EntryId, held: Held)
    ensures Affect(m, Spawn(held.child, e)).slots == m.slots
    ensures e < |m.slots| ==>
              Affect(Affect(m, Spawn(held.child, e)), Put(e, held)).slots == m.slots[e := Some(held)]
  {}

  lemma {:induction false} TakeAndRelease(m: Memory, i: EntryId, c: ChildId)
    requires i < |m.slots|
    ensures var after := Affect(Affect(m, Take(i)), Release(c));
            && after.slots == m.slots[i := None] && after.now == m.now
            && forall d: ChildId :: after.Count(d) <= m.Count(d)
    ensures Affect(m, Take(i)).slots == m.slots[i := None] && Affect(m, Take(i)).now == m.now
  {}

  lemma {:induction false} NothingHappens(m: Memory)
    ensures Affect(m, Nothing) == m
  {}

  /** And the child is started and put in its slot. */
  lemma {:induction false} Starts(cfg: Config, s: State, t: ThreadId, e: EntryId, ch: Choice) returns (s': State)
    requires Alone(cfg, s, t) && s.threads[t].pc == Load(e) && ch.ok && ch.child !in s.home
    ensures Leads(cfg, s, t, s') && Alone(cfg, s', t) && e < |s.mem.slots|
    ensures OnlyMoved(s, t, s', Serve(e, ch.child)) && s'.admission.None?
    ensures s'.mem.slots == s.mem.slots[e := Some(Held(ch.child, s.mem.now, ch.measured))]
  {
    hide Leads, Invariant, Affect, RequestCode, ScanCode, ServeCode, ReapCode, ClearCode;
    SpawnAndPut(s.mem, e, Held(ch.child, s.mem.now, ch.measured));
    PoisedRuns(cfg, s, t, ch);
    var held := Held(ch.child, s.mem.now, ch.measured);
    var a := TakesAStep(cfg, s, t, ch, Spawn(ch.child, e), Place(e, held));
    PoisedRuns(cfg, a, t, ch);
    s' := TakesAStep(cfg, a, t, ch, Put(e, held), Serve(e, held.child));
    LeadsOn(cfg, s, t, a, s');
  }

  /** A start that fails leaves everything as it was, and the admission lock free. */
  lemma {:induction false} FailsToStart(cfg: Config, s: State, t: ThreadId, e: EntryId, ch: Choice) returns (s': State)
    requires Alone(cfg, s, t) && s.threads[t].pc == Load(e) && !ch.ok
    ensures Leads(cfg, s, t, s') && Alone(cfg, s', t) && s'.admission.None?
    ensures OnlyMoved(s, t, s', Rest) && s'.mem == s.mem
  {
    hide Leads, Invariant, RequestCode, ScanCode, ServeCode, ReapCode, ClearCode;
    PoisedRuns(cfg, s, t, ch);
    s' := TakesAStep(cfg, s, t, ch, Nothing, Rest);
  }

  // ----------------------------------------------------------------------------------- the whole

  /** Every other slot holds what it held, or did hold an on-demand child nobody was reading from. */
  ghost predicate AtMostIdleWent(cfg: Config, before: Memory, after: Memory, e: EntryId) {
    && |after.slots| == |before.slots| == |cfg.catalog|
    && forall i :: 0 <= i < |after.slots| && i != e && after.slots[i] != before.slots[i] ==>
         && after.slots[i].None? && before.slots[i].Some?
         && cfg.catalog[i].residency.OnDemand? && !before.Busy(i)
  }

  /**
   A request left alone, its file there and its start a success: it is served
   with the child that is live; or else with one started for it exactly when
   room can be made, unloading nothing when there is room already and idle
   on-demand children alone when there is not; or else it gives up when it is
   too large for the budget or nobody reads from an on-demand child, and waits
   when somebody does.  In these two cases nothing is unloaded.
   */
  lemma {:induction false} ARequestAlone(cfg: Config, s: State, t: ThreadId, e: EntryId, ch: Choice)
    returns (s': State)
    requires Alone(cfg, s, t) && s.threads[t].pc == Fast(e) && e < |cfg.catalog| && s.admission.None?
    requires ch.ok && ch.child !in s.home
    ensures Leads(cfg, s, t, s') && Alone(cfg, s', t)
    ensures Slots.Live(s.mem, e) ==>
              OnlyMoved(s, t, s', Serve(e, s.mem.slots[e].value.child)) && s'.mem == Affect(s.mem, Clone(e))
    ensures !Slots.Live(s.mem, e) ==>
              var m := Affect(s.mem, Discard(e));
              var rows, wanted := Slots.RowsNow(cfg.catalog, m), WantedOf(e, cfg.catalog[e]);
              var over := cfg.limit.Some? && cfg.catalog[e].estimateMib > cfg.limit.value;
              if CanMakeRoom(cfg.limit, Compact(rows), wanted, ch.free)
              then && OnlyMoved(s, t, s', Serve(e, ch.child))
                   && s'.mem.slots[e] == Some(Held(ch.child, m.now, ch.measured))
                   && AtMostIdleWent(cfg, m, s'.mem, e)
                   && (Suffices(cfg.limit, wanted, ch.free, [], Compact(rows)) ==>
                         s'.mem.slots == m.slots[e := Some(Held(ch.child, m.now, ch.measured))])
              else if over || !Slots.SomebodyReads(rows, e) then OnlyMoved(s, t, s', Rest) && s'.mem == m
              else OnlyMoved(s, t, s', Hold(e, m.now + cfg.wait)) && s'.mem == m
  {
    hide Leads, Invariant, CanMakeRoom, Suffices, Slots.SomebodyReads, Compact, WantedOf;
    if Slots.Live(s.mem, e) {
      s' := HandedOut(cfg, s, t, e, ch);
      return;
    }
    var a := Queues(cfg, s, t, e, ch);
    var b := SetsOut(cfg, a, t, e, ch);
    LeadsOn(cfg, s, t, a, b);
    var deadline := a.mem.now + cfg.wait;
    assert Slots.RowsNow(cfg.catalog, b.mem)[..0] == [];
    var c := Looks(cfg, b, t, e, deadline, 0, ch);
    LeadsOn(cfg, s, t, b, c);
    var d := Decides(cfg, c, t, e, deadline, ch);
    LeadsOn(cfg, s, t, c, d);
    s' := d;
    RoomAsItIs(cfg, d.mem, e, ch.free);
    if d.threads[t].pc.Evict? || d.threads[t].pc.Load? {
      var g := d;
      if d.threads[t].pc.Evict? {
        g := MakesRoom(cfg, d, t, e, deadline, d.threads[t].pc.ids, ch);
        LeadsOn(cfg, s, t, d, g);
      }
      s' := Starts(cfg, g, t, e, ch);
      LeadsOn(cfg, s, t, g, s');
    }
  }

  lemma {:induction false} RoomAsItIs(cfg: Config, m: Memory, e: EntryId, free: Option<nat>)
    requires |m.slots| == |cfg.catalog| && e < |cfg.catalog|
    ensures var loaded, wanted := Compact(Slots.RowsNow(cfg.catalog, m)), WantedOf(e, cfg.catalog[e]);
            Suffices(cfg.limit, wanted, free, [], loaded) ==> CanMakeRoom(cfg.limit, loaded, wanted, free)
  {
    var loaded, wanted := Compact(Slots.RowsNow(cfg.catalog, m)), WantedOf(e, cfg.catalog[e]);
    var none: seq<Loaded> := [];
    assert Splits(loaded, wanted, none, loaded);
  }

  /** Who waits gives up at the deadline, and until then looks again every quarter of a second. */
  lemma {:induction false} AHeldRequest(cfg: Config, s: State, t: ThreadId, e: EntryId, deadline: nat, ch: Choice)
    returns (a: State, s': State)
    requires Alone(cfg, s, t) && s.threads[t].pc == Hold(e, deadline)
    ensures Leads(cfg, s, t, a) && Alone(cfg, a, t) && a.mem == s.mem
    ensures s.mem.now >= deadline ==> OnlyMoved(s, t, a, Rest)
    ensures s.mem.now < deadline ==>
              && OnlyMoved(s, t, a, Sleep(e, deadline, s.mem.now + 250_000_000))
              && Enabled(cfg, a, Tick(250_000_000)) && Leads(cfg, Apply(cfg, a, Tick(250_000_000)), t, s')
              && OnlyMoved(s, t, s', Scan(e, deadline, [])) && s'.mem == s.mem.(now := s.mem.now + 250_000_000)
  {
    hide Leads, Invariant, RequestCode, ScanCode, ServeCode, ReapCode, ClearCode;
    PoisedRuns(cfg, s, t, ch);
    s' := s;
    if s.mem.now >= deadline {
      a := TakesAStep(cfg, s, t, ch, Nothing, Rest);
    } else {
      a := TakesAStep(cfg, s, t, ch, Nothing, Sleep(e, deadline, s.mem.now + 250_000_000));
      var later := Apply(cfg, a, Tick(250_000_000));
      assert Invariant(cfg, later) by { StepKeepsInvariant(cfg, a, Tick(250_000_000)); }
      PoisedRuns(cfg, later, t, ch);
      s' := TakesAStep(cfg, later, t, ch, Nothing, Scan(e, deadline, []));
    }
  }

  lemma {:induction false} Relays(cfg: Config, s: State, t: ThreadId, e: EntryId, c: ChildId, ch: Choice)
    returns (b: State)
    requires Alone(cfg, s, t) && s.threads[t].pc == Serve(e, c) && ch.ok
    ensures Leads(cfg, s, t, b) && Alone(cfg, b, t) && OnlyMoved(s, t, b, Touch(e, c, s.mem.now))
    ensures e < |s.mem.slots| && b.mem == s.mem
  {
    hide Leads, Invariant, RequestCode, ScanCode, AdmitCode, ReapCode, ClearCode;
    PoisedRuns(cfg, s, t, ch);
    var a := TakesAStep(cfg, s, t, ch, Nothing, Relay(e, c));
    PoisedRuns(cfg, a, t, ch);
    b := TakesAStep(cfg, a, t, ch, Nothing, Touch(e, c, s.mem.now));
    LeadsOn(cfg, s, t, a, b);
  }

  lemma {:induction false} StampAndRelease(m: Memory, e: EntryId, c: ChildId)
    requires e < |m.slots|
    ensures var after := Affect(Affect(m, Stamp(e)), Release(c));
            && after.slots == (if m.slots[e].None? then m.slots
                               else m.slots[e := Some(m.slots[e].value.(lastUsed := m.now))])
            && (m.Count(c) > 0 ==> after.Count(c) == m.Count(c) - 1)
  {}

  /** A request that was served relays, marks its slot as used then, and lets go of its handle. */
  lemma {:induction false} ARelayAlone(cfg: Config, s: State, t: ThreadId, e: EntryId, c: ChildId, ch: Choice)
    returns (s': State)
    requires Alone(cfg, s, t) && s.threads[t].pc == Serve(e, c) && ch.ok
    ensures Leads(cfg, s, t, s') && Alone(cfg, s', t) && OnlyMoved(s, t, s', Rest)
    ensures e < |s.mem.slots| && s'.mem == Affect(Affect(s.mem, Stamp(e)), Release(c))
    ensures s'.mem.slots == if s.mem.slots[e].None? then s.mem.slots
                            else s.mem.slots[e := Some(s.mem.slots[e].value.(lastUsed := s.mem.now))]
    ensures s.mem.Count(c) > 0 ==> s'.mem.Count(c) == s.mem.Count(c) - 1
  {
    hide Leads, Invariant, Affect, RequestCode, ScanCode, AdmitCode, ReapCode, ClearCode;
    var b := Relays(cfg, s, t, e, c, ch);
    StampAndRelease(s.mem, e, c);
    PoisedRuns(cfg, b, t, ch);
    var d := TakesAStep(cfg, b, t, ch, Stamp(e), Done(e, c, Some(s.mem.now)));
    LeadsOn(cfg, s, t, b, d);
    PoisedRuns(cfg, d, t, ch);
    s' := TakesAStep(cfg, d, t, ch, Release(c), Rest);
    LeadsOn(cfg, s, t, d, s');
  }
}

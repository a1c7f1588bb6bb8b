/** What every step of the protocol keeps. */
module ProtocolInvariant {
  import opened Wrappers
  import opened Admission
  import opened AdmissionLaws
  import opened Idle
  import opened SlotTable
  import opened Protocol

  // ------------------------------------------------------------------------- the invariant

  ghost predicate OnDemandIds(cfg: Config, ids: seq<EntryId>) {
    forall id :: id in ids ==> id < |cfg.catalog| && cfg.catalog[id].residency.OnDemand?
  }

  /** A program counter's own data are well formed. */
  ghost predicate PcOk(cfg: Config, pc: Pc) {
    && (Admitting(pc).Some? ==> Admitting(pc).value < |cfg.catalog|)
    && match pc
       case Fast(e) => e < |cfg.catalog|
       case Queue(e) => e < |cfg.catalog|
       case Scan(_, _, rows) => RowsOf(cfg.catalog, rows)
       case Evict(_, _, ids) => OnDemandIds(cfg, ids)
       case Evicting(_, _, _, ids) => OnDemandIds(cfg, ids)
       case Serve(e, _) => e < |cfg.catalog|
       case Relay(e, _) => e < |cfg.catalog|
       case Touch(e, _, _) => e < |cfg.catalog|
       case Done(e, _, _) => e < |cfg.catalog|
       case Survey(_, rows) => RowsOf(cfg.catalog, rows)
       case Cull(_, ids) => OnDemandIds(cfg, ids)
       case Culling(_, _, ids) => OnDemandIds(cfg, ids)
       case Reap(k) => k <= |cfg.catalog|
       case Reaping(_, k) => k <= |cfg.catalog|
       case Wipe(ids, _) => forall id :: id in ids ==> id < |cfg.catalog|
       case List(k) => k <= |cfg.catalog|
       case _ => true
  }

  ghost predicate Shape(cfg: Config, s: State) {
    && |s.mem.slots| == |s.locks| == |cfg.catalog|
    && forall t :: t in s.threads ==> PcOk(cfg, s.threads[t].pc)
  }

  /** A lock has at most one holder, who holds no other and is about to use it. */
  ghost predicate Locked(cfg: Config, s: State) {
    && (forall t :: t in s.threads && s.threads[t].lock.Some? ==>
          && s.threads[t].lock.value < |s.locks|
          && s.locks[s.threads[t].lock.value] == Some(t)
          && Needs(cfg, s.threads[t].pc) == s.threads[t].lock)
    && (forall i :: 0 <= i < |s.locks| && s.locks[i].Some? ==>
          s.locks[i].value in s.threads && s.threads[s.locks[i].value].lock == Some(i))
    && (forall t :: t in s.threads && s.threads[t].idle.Some? ==>
          && s.threads[t].lock.Some? && AsksIdle(s.threads[t].pc)
          && s.threads[t].lock.value < |s.mem.slots|
          && s.mem.slots[s.threads[t].lock.value].Some?)
  }

  ghost predicate OneAdmission(s: State) {
    && (forall t :: t in s.threads ==> (HoldsAdmission(s.threads[t].pc) <==> s.admission == Some(t)))
    && (s.admission.Some? ==> s.admission.value in s.threads)
  }

  /** Every child belongs to the one entry it was started for. */
  ghost predicate Homes(s: State) {
    && (forall i :: 0 <= i < |s.mem.slots| && s.mem.slots[i].Some? ==>
          s.mem.slots[i].value.child in s.home && s.home[s.mem.slots[i].value.child] == i)
    && (forall t, c :: t in s.threads && c in Owns(s.threads[t].pc) ==> c in s.home)
    && (forall t, e, c :: t in s.threads && Reads(s.threads[t].pc, e, c) ==> c in s.home && s.home[c] == e)
    && (forall t :: t in s.threads && s.threads[t].pc.Place? ==>
          s.threads[t].pc.held.child in s.home && s.home[s.threads[t].pc.held.child] == s.threads[t].pc.e)
  }

  ghost function Holders(threads: map<ThreadId, Thread>, c: ChildId): set<ThreadId> {
    set t | t in threads && c in Owns(threads[t].pc)
  }

  ghost predicate InSlot(s: State, c: ChildId) {
    && c in s.home && s.home[c] < |s.mem.slots|
    && s.mem.slots[s.home[c]].Some? && s.mem.slots[s.home[c]].value.child == c
  }

  /** The strong count is exact: one for the slot, one for every thread with a handle. */
  ghost predicate Counted(s: State) {
    forall c :: c in s.home ==> s.mem.Count(c) == |Holders(s.threads, c)| + if InSlot(s, c) then 1 else 0
  }

  /** A handle that is not a reader's is to a child no slot holds. */
  ghost predicate Unslotted(s: State) {
    forall t, c :: t in s.threads && !IsReader(s.threads[t].pc) && c in Owns(s.threads[t].pc) ==> !InSlot(s, c)
  }

  /** A child that was just started is known to its starter alone. */
  ghost predicate Fresh(s: State) {
    forall t :: t in s.threads && s.threads[t].pc.Place? ==>
      Holders(s.threads, s.threads[t].pc.held.child) == {t}
  }

  /** What a reader reads from is still in its entry's slot. */
  ghost predicate Safe(s: State) {
    !s.cut ==> forall t, e, c :: t in s.threads && Reads(s.threads[t].pc, e, c) ==> InSlot(s, c)
  }

  ghost predicate SeesIdle(s: State, th: Thread) {
    && th.idle == Some(true)
    && th.lock.Some? && th.lock.value < |s.mem.slots| && s.mem.slots[th.lock.value].Some?
  }

  /** A child seen idle under the slot's lock stays unread for as long as the lock is held. */
  ghost predicate Seen(s: State) {
    forall t :: t in s.threads && SeesIdle(s, s.threads[t]) ==>
      Holders(s.threads, s.mem.slots[s.threads[t].lock.value].value.child) == {}
  }

  ghost predicate VacantFor(s: State, pc: Pc) {
    var e := Admitting(pc);
    e.Some? && e.value < |s.mem.slots| && !pc.Again? ==> s.mem.slots[e.value].None?
  }

  /** From the recheck to the insertion, the entry being admitted has an empty slot. */
  ghost predicate Vacant(s: State) {
    forall t :: t in s.threads ==> VacantFor(s, s.threads[t].pc)
  }

  // --------------------------------------------------------------- what a step may do, by effect

  /** The relation between where a thread was, its effect, and where it goes next. */
  ghost predicate Permitted(cfg: Config, s: State, th: Thread, fx: Effect, pc: Pc) {
    && PcOk(cfg, pc)
    && (HoldsAdmission(pc) ==> HoldsAdmission(th.pc) || (th.pc.Queue? && s.admission.None?))
    && (Admitting(pc).Some? && !pc.Again? ==> Admitting(th.pc) == Admitting(pc))
    && (th.pc.Again? && Admitting(pc).Some? ==> FoundEmpty(s, th.pc.e, fx))
    && match fx
       case Nothing =>
         && Owns(pc) == Owns(th.pc)
         && (IsReader(pc) <==> IsReader(th.pc))
         && (forall e, c :: Reads(pc, e, c) ==> Reads(th.pc, e, c))
         && (pc.Place? ==> false)
       case Clone(i) =>
         && th.lock == Some(i) && i < |s.mem.slots| && s.mem.slots[i].Some?
         && Owns(th.pc) == {} && pc == Serve(i, s.mem.slots[i].value.child)
       case Discard(i) =>
         && th.lock == Some(i) && i < |s.mem.slots| && s.mem.slots[i].Some?
         && th.idle == Some(true) && s.mem.slots[i].value.child in s.mem.dead
         && Owns(th.pc) == {} && Owns(pc) == {}
       case Take(i) =>
         && th.lock == Some(i) && i < |s.mem.slots| && s.mem.slots[i].Some?
         && !IsReader(th.pc) && !IsReader(pc) && !pc.Place?
         && Owns(pc) == Owns(th.pc) + {s.mem.slots[i].value.child}
         && (th.idle == Some(true) || th.pc.Wipe?)
       case Put(i, held) =>
         && th.pc == Place(i, held) && pc == Serve(i, held.child)
         && th.lock == Some(i) && i < |s.mem.slots|
       case Stamp(i) =>
         && th.pc.Touch? && th.pc.e == i && pc == Done(th.pc.e, th.pc.c, Some(th.pc.end))
         && th.lock == Some(i) && i < |s.mem.slots|
       case Release(c) =>
         && c in Owns(th.pc) && Owns(pc) == Owns(th.pc) - {c}
         && !IsReader(pc) && !pc.Place?
       case Spawn(c, e) =>
         && c !in s.home && e < |s.mem.slots|
         && Owns(th.pc) == {} && pc.Place? && pc.e == e && pc.held.child == c
  }

  ghost predicate FoundEmpty(s: State, e: EntryId, fx: Effect) {
    e < |s.mem.slots| && (s.mem.slots[e].None? || fx == Discard(e))
  }

  lemma {:induction false} RequestIsPermitted(cfg: Config, s: State, t: ThreadId, ch: Choice)
    requires Shape(cfg, s) && CanRun(cfg, s, t, ch) && InRequest(s.threads[t].pc)
    ensures var (fx, pc) := RequestCode(cfg, s, s.threads[t], ch); Permitted(cfg, s, s.threads[t], fx, pc)
  {
    hide OnDemandIds;
  }

  lemma {:induction false} ScanIsPermitted(cfg: Config, s: State, t: ThreadId, ch: Choice)
    requires Shape(cfg, s) && CanRun(cfg, s, t, ch) && s.threads[t].pc.Scan?
    ensures var (fx, pc) := ScanCode(cfg, s, s.threads[t], ch); Permitted(cfg, s, s.threads[t], fx, pc)
  {
    hide OnDemandIds, Decide, Compact;
    var pc := s.threads[t].pc;
    assert PcOk(cfg, pc);
    if |pc.rows| == |cfg.catalog| {
      DecisionIsOnDemand(cfg, pc.rows, WantedOf(pc.e, cfg.catalog[pc.e]), ch.free);
    }
  }

  lemma {:induction false} EvictingIsPermitted(cfg: Config, s: State, t: ThreadId, ch: Choice)
    requires Shape(cfg, s) && CanRun(cfg, s, t, ch) && s.threads[t].pc.Evict?
    ensures var (fx, pc) := AdmitCode(cfg, s, s.threads[t], ch); Permitted(cfg, s, s.threads[t], fx, pc)
  {
    hide OnDemandIds, RowsOf;
    var pc := s.threads[t].pc;
    assert PcOk(cfg, pc);
    if pc.ids != [] { RestIsOnDemand(cfg, pc.ids); }
  }

  lemma {:induction false} AdmissionIsPermitted(cfg: Config, s: State, t: ThreadId, ch: Choice)
    requires Shape(cfg, s) && CanRun(cfg, s, t, ch)
    requires InAdmission(s.threads[t].pc) && !s.threads[t].pc.Evict?
    ensures var (fx, pc) := AdmitCode(cfg, s, s.threads[t], ch); Permitted(cfg, s, s.threads[t], fx, pc)
  {
    hide OnDemandIds;
  }

  lemma {:induction false} RestIsOnDemand(cfg: Config, ids: seq<EntryId>)
    requires ids != [] && OnDemandIds(cfg, ids)
    ensures OnDemandIds(cfg, ids[1..])
  {
    forall id | id in ids[1..] ensures id in ids {}
  }

  lemma {:induction false} ServingIsPermitted(cfg: Config, s: State, t: ThreadId, ch: Choice)
    requires Shape(cfg, s) && CanRun(cfg, s, t, ch) && IsReader(s.threads[t].pc)
    ensures var (fx, pc) := ServeCode(s, s.threads[t], ch); Permitted(cfg, s, s.threads[t], fx, pc)
  {
    hide OnDemandIds, RowsOf;
  }

  lemma {:induction false} CullingIsPermitted(cfg: Config, s: State, t: ThreadId, ch: Choice)
    requires Shape(cfg, s) && CanRun(cfg, s, t, ch) && s.threads[t].pc.Cull?
    ensures var (fx, pc) := ReapCode(cfg, s, s.threads[t]); Permitted(cfg, s, s.threads[t], fx, pc)
  {
    hide OnDemandIds, RowsOf;
    var pc := s.threads[t].pc;
    assert PcOk(cfg, pc);
    if pc.ids != [] { RestIsOnDemand(cfg, pc.ids); }
  }

  lemma {:induction false} ReapingIsPermitted(cfg: Config, s: State, t: ThreadId, ch: Choice)
    requires Shape(cfg, s) && CanRun(cfg, s, t, ch) && s.threads[t].pc.Reap?
    ensures var (fx, pc) := ReapCode(cfg, s, s.threads[t]); Permitted(cfg, s, s.threads[t], fx, pc)
  {
    hide OnDemandIds;
  }

  lemma {:induction false} DroppingIsPermitted(cfg: Config, s: State, t: ThreadId, ch: Choice)
    requires Shape(cfg, s) && CanRun(cfg, s, t, ch) && (s.threads[t].pc.Reaping? || s.threads[t].pc.Culling?)
    ensures var (fx, pc) := ReapCode(cfg, s, s.threads[t]); Permitted(cfg, s, s.threads[t], fx, pc)
  {
    hide OnDemandIds, RowsOf;
  }

  lemma {:induction false} SurveyIsPermitted(cfg: Config, s: State, t: ThreadId, ch: Choice)
    requires Shape(cfg, s) && CanRun(cfg, s, t, ch) && s.threads[t].pc.Survey?
    ensures var (fx, pc) := ReapCode(cfg, s, s.threads[t]); Permitted(cfg, s, s.threads[t], fx, pc)
  {
    var pc := s.threads[t].pc;
    assert PcOk(cfg, pc);
    if |pc.rows| == |cfg.catalog| { ExpiredIsOnDemand(cfg, pc.rows, pc.now); }
  }

  lemma {:induction false} WipingIsPermitted(cfg: Config, s: State, t: ThreadId, ch: Choice)
    requires Shape(cfg, s) && CanRun(cfg, s, t, ch) && s.threads[t].pc.Wipe?
    ensures var (fx, pc) := ClearCode(cfg, s, s.threads[t], ch); Permitted(cfg, s, s.threads[t], fx, pc)
  {
    hide OnDemandIds, RowsOf, AsksIdle;
    var ids := s.threads[t].pc.ids;
    assert PcOk(cfg, s.threads[t].pc);
    assert ids != [] ==> forall id :: id in ids[1..] ==> id in ids;
  }

  lemma {:induction false} ClearIsPermitted(cfg: Config, s: State, t: ThreadId, ch: Choice)
    requires Shape(cfg, s) && CanRun(cfg, s, t, ch) && (s.threads[t].pc.Wiping? || s.threads[t].pc.List?)
    ensures var (fx, pc) := ClearCode(cfg, s, s.threads[t], ch); Permitted(cfg, s, s.threads[t], fx, pc)
  {
    hide OnDemandIds, RowsOf;
  }

  /** Every step of the program keeps to what its effect permits. */
  lemma {:induction false} CodeIsPermitted(cfg: Config, s: State, t: ThreadId, ch: Choice)
    requires Shape(cfg, s) && CanRun(cfg, s, t, ch)
    ensures var (fx, pc) := Code(cfg, s, t, ch); Permitted(cfg, s, s.threads[t], fx, pc)
  {
    var pc := s.threads[t].pc;
    if InRequest(pc) { RequestIsPermitted(cfg, s, t, ch); }
    else if pc.Scan? { ScanIsPermitted(cfg, s, t, ch); }
    else if pc.Evict? { EvictingIsPermitted(cfg, s, t, ch); }
    else if InAdmission(pc) { AdmissionIsPermitted(cfg, s, t, ch); }
    else if IsReader(pc) { ServingIsPermitted(cfg, s, t, ch); }
    else if pc.Cull? { CullingIsPermitted(cfg, s, t, ch); }
    else if pc.Survey? { SurveyIsPermitted(cfg, s, t, ch); }
    else if pc.Reap? { ReapingIsPermitted(cfg, s, t, ch); }
    else if InReaper(pc) { DroppingIsPermitted(cfg, s, t, ch); }
    else if pc.Wipe? { WipingIsPermitted(cfg, s, t, ch); }
    else { ClearIsPermitted(cfg, s, t, ch); }
  }

  lemma {:induction false} DecisionIsOnDemand(cfg: Config, rows: seq<Option<Loaded>>, wanted: Wanted, free: Option<nat>)
    requires RowsOf(cfg.catalog, rows)
    ensures var d := Decide(cfg.limit, Compact(rows), wanted, free); d.Unload? ==> OnDemandIds(cfg, d.ids)
  {
    var d := Decide(cfg.limit, Compact(rows), wanted, free);
    if d.Unload? {
      UnloadIsLeastColdPrefix(cfg.limit, Compact(rows), wanted, free);
      CompactMembers(cfg.catalog, rows);
    }
  }

  lemma {:induction false} ExpiredIsOnDemand(cfg: Config, rows: seq<Option<Loaded>>, now: nat)
    requires RowsOf(cfg.catalog, rows)
    ensures OnDemandIds(cfg, Expired(cfg.window, Compact(rows), now))
  {
    if cfg.window.Some? {
      CompactMembers(cfg.catalog, rows);
      forall id | id in Expired(cfg.window, Compact(rows), now)
        ensures id < |cfg.catalog| && cfg.catalog[id].residency.OnDemand?
      {
        ExpiredNamesTheStale(cfg.window.value, Compact(rows), now, id);
      }
    }
  }
}

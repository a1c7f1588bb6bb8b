/**
 The protocol the router's threads run (src/proxy/slots/mod.rs, room.rs,
 sweep.rs, view.rs; src/proxy/answer.rs from the child to the touch).

 Any number of threads interleave.  A thread's program is `Code`: one step of
 it either takes no lock or ends the critical section the thread is in.  Inside
 a critical section taking the slot's lock, reading the child's strong count
 and acting on what was read are three separate steps, so other threads run
 between them; so do clock ticks and the deaths of child processes.
 */
module Protocol {
  import opened Wrappers
  import opened Admission
  import opened Idle
  import opened SlotTable

  type ThreadId = nat

  /** The pause between two decisions of a waiting admission: 250 ms.  All times are in nanoseconds. */
  const SWEEP: nat := 250_000_000

  datatype Config = Config(catalog: seq<Entry>, limit: Option<nat>, wait: nat, window: Option<nat>)

  datatype Pc =
    | Rest                                              // no request, no sweep
    // a request for entry e
    | Fast(e: EntryId)                                  // live_child, no admission lock
    | Queue(e: EntryId)                                 // at the admission lock
    | Again(e: EntryId)                                 // live_child under the admission lock
    | Check(e: EntryId)                                 // is the model file there
    | Scan(e: EntryId, deadline: nat, rows: seq<Option<Loaded>>) // snapshot, then decide
    | Evict(e: EntryId, deadline: nat, ids: seq<EntryId>)        // unload, in order
    | Evicting(e: EntryId, deadline: nat, c: ChildId, ids: seq<EntryId>) // killing one
    | Hold(e: EntryId, deadline: nat)                   // no room: give up, or wait
    | Sleep(e: EntryId, deadline: nat, until: nat)
    | Load(e: EntryId)                                  // start the child
    | Place(e: EntryId, held: Held)                     // fill the slot
    | Serve(e: EntryId, c: ChildId)                     // a handle in hand, admission released
    | Relay(e: EntryId, c: ChildId)
    | Touch(e: EntryId, c: ChildId, end: nat)           // the relay ended at `end`
    | Done(e: EntryId, c: ChildId, relayed: Option<nat>)    // about to drop the handle
    // a tick of the reaper
    | Reap(k: nat)                                      // sweep_exited, entry by entry
    | Reaping(c: ChildId, k: nat)
    | Survey(now: nat, rows: seq<Option<Loaded>>)       // sweep_idle's snapshot
    | Cull(now: nat, ids: seq<EntryId>)
    | Culling(now: nat, c: ChildId, ids: seq<EntryId>)
    // Slots::clear, and the listings
    | Wipe(ids: seq<EntryId>, taken: set<ChildId>) // the slots in some order
    | Wiping(taken: set<ChildId>)
    | List(k: nat)

  /** `lock` is the slot lock held, `idle` what reading the strong count under it said. */
  datatype Thread = Thread(pc: Pc, lock: Option<EntryId>, idle: Option<bool>)

  /**
   `home`, `cut` and `ended` are history: the entry each child was started for,
   whether `clear` has taken a child somebody was reading from, and when the
   last finished relay of each child ended.
   */
  datatype State = State(
    mem: Memory, admission: Option<ThreadId>, locks: seq<Option<ThreadId>>,
    threads: map<ThreadId, Thread>,
    home: map<ChildId, EntryId>, cut: bool, ended: map<ChildId, nat>)

  // ------------------------------------------------------------- reading a program counter

  /** The slot a step at `pc` works on, whose lock it must hold. */
  function Needs(cfg: Config, pc: Pc): Option<EntryId> {
    match pc
    case Fast(e) => Some(e)
    case Again(e) => Some(e)
    case Place(e, _) => Some(e)
    case Touch(e, _, _) => Some(e)
    case Scan(_, _, rows) => if |rows| < |cfg.catalog| then Some(|rows|) else None
    case Survey(_, rows) => if |rows| < |cfg.catalog| then Some(|rows|) else None
    case Evict(_, _, ids) => if ids == [] then None else Some(ids[0])
    case Cull(_, ids) => if ids == [] then None else Some(ids[0])
    case Reap(k) => if k < |cfg.catalog| then Some(k) else None
    case Wipe(ids, _) => if ids == [] then None else Some(ids[0])
    case List(k) => if k < |cfg.catalog| then Some(k) else None
    case _ => None
  }

  /** Whether a step at `pc` acts on the busy signal. */
  predicate AsksIdle(pc: Pc) {
    pc.Fast? || pc.Again? || pc.Scan? || pc.Survey? || pc.Evict? || pc.Cull? || pc.Reap?
  }

  /** The entry an admission is under way for, from the recheck to the insertion. */
  function Admitting(pc: Pc): Option<EntryId> {
    match pc
    case Again(e) => Some(e)
    case Check(e) => Some(e)
    case Scan(e, _, _) => Some(e)
    case Evict(e, _, _) => Some(e)
    case Evicting(e, _, _, _) => Some(e)
    case Hold(e, _) => Some(e)
    case Sleep(e, _, _) => Some(e)
    case Load(e) => Some(e)
    case Place(e, _) => Some(e)
    case _ => None
  }

  predicate HoldsAdmission(pc: Pc) { Admitting(pc).Some? }

  /** The handles a thread at `pc` owns. */
  function Owns(pc: Pc): set<ChildId> {
    match pc
    case Place(_, held) => {held.child}
    case Evicting(_, _, c, _) => {c}
    case Serve(_, c) => {c}
    case Relay(_, c) => {c}
    case Touch(_, c, _) => {c}
    case Done(_, c, _) => {c}
    case Reaping(c, _) => {c}
    case Culling(_, c, _) => {c}
    case Wipe(_, taken) => taken
    case Wiping(taken) => taken
    case _ => {}
  }

  /** A reader: it was handed a reference for entry `e` and has not let go of it. */
  predicate Reads(pc: Pc, e: EntryId, c: ChildId) {
    match pc
    case Serve(e', c') => e' == e && c' == c
    case Relay(e', c') => e' == e && c' == c
    case Touch(e', c', _) => e' == e && c' == c
    case Done(e', c', _) => e' == e && c' == c
    case _ => false
  }

  // ---------------------------------------------------------------------------- the program

  /** What the world decides at a step: success, a fresh child, its measurement, the device. */
  datatype Choice = Choice(ok: bool, child: ChildId, measured: Measurement, free: Option<nat>)

  predicate CanRun(cfg: Config, s: State, t: ThreadId, ch: Choice) {
    && t in s.threads
    && |s.mem.slots| == |s.locks| == |cfg.catalog|
    && var th := s.threads[t];
       var need := Needs(cfg, th.pc);
    && !th.pc.Rest?
    && (need.Some? ==>
          && need.value < |cfg.catalog| && th.lock == need
          && (AsksIdle(th.pc) && s.mem.slots[need.value].Some? ==> th.idle.Some?))
    && (th.pc.Queue? ==> s.admission.None? && th.pc.e < |cfg.catalog|)
    && (th.pc.Scan? ==> th.pc.e < |cfg.catalog|)
    && (th.pc.Sleep? ==> s.mem.now >= th.pc.until)
    && (th.pc.Load? && ch.ok ==> ch.child !in s.home && th.pc.e < |cfg.catalog|)
    && (th.pc.Wiping? && th.pc.taken != {} ==> ch.child in th.pc.taken)
  }

  /** `child` and the first half of `admit`, up to the model file. */
  function RequestCode(cfg: Config, s: State, th: Thread, ch: Choice): (Effect, Pc)
    requires InRequest(th.pc) && (Needs(cfg, th.pc).Some? ==> th.pc.e < |s.mem.slots|)
  {
    var m, idle := s.mem, th.idle == Some(true);
    match th.pc
    case Fast(e) =>
      var (fx, child) := LiveChild(m, e, idle);
      (fx, if child.Some? then Serve(e, child.value) else Queue(e))
    case Queue(e) => (Nothing, Again(e))
    case Again(e) =>
      var (fx, child) := LiveChild(m, e, idle);
      (fx, if child.Some? then Serve(e, child.value) else Check(e))
    case Check(e) => (Nothing, if ch.ok then Scan(e, m.now + cfg.wait, []) else Rest)
  }

  /** `held` row by row, then the decision. */
  function ScanCode(cfg: Config, s: State, th: Thread, ch: Choice): (Effect, Pc)
    requires th.pc.Scan? && th.pc.e < |cfg.catalog| == |s.mem.slots|
  {
    var Scan(e, deadline, rows) := th.pc;
    if |rows| < |cfg.catalog| then
      (Nothing, Scan(e, deadline, rows + [Row(cfg.catalog, s.mem, |rows|, th.idle == Some(true))]))
    else
      match Decide(cfg.limit, Compact(rows), WantedOf(e, cfg.catalog[e]), ch.free)
      case Fits => (Nothing, Load(e))
      case Unload(ids) => (Nothing, Evict(e, deadline, ids))
      case Blocked(_) => (Nothing, Hold(e, deadline))
      case Refuse(_) => (Nothing, Rest)
  }

  /** The rest of `make_room` and of `admit`. */
  function AdmitCode(cfg: Config, s: State, th: Thread, ch: Choice): (Effect, Pc)
    requires InAdmission(th.pc) && (th.pc.Evict? && th.pc.ids != [] ==> th.pc.ids[0] < |s.mem.slots|)
  {
    var m, idle := s.mem, th.idle == Some(true);
    match th.pc
    case Evict(e, deadline, ids) =>
      if ids == [] then (Nothing, Load(e))
      else
        var (fx, taking) := TakeIfIdle(m, ids[0], idle, Always);
        (match taking
         case Taken(c) => (fx, Evicting(e, deadline, c, ids[1..]))
         case IsBusy => (fx, Hold(e, deadline))
         case Empty => (fx, Evict(e, deadline, ids[1..])))
    case Evicting(e, deadline, c, ids) => (Release(c), Evict(e, deadline, ids))
    case Hold(e, deadline) =>
      (Nothing, if m.now >= deadline then Rest else Sleep(e, deadline, m.now + SWEEP))
    case Sleep(e, deadline, _) => (Nothing, Scan(e, deadline, []))
    case Load(e) =>
      if ch.ok then (Spawn(ch.child, e), Place(e, Held(ch.child, m.now, ch.measured))) else (Nothing, Rest)
    case Place(e, held) => (Put(e, held), Serve(e, held.child))
  }

  /** A connection with its child in hand: relay, touch, let go. */
  function ServeCode(s: State, th: Thread, ch: Choice): (Effect, Pc)
    requires IsReader(th.pc)
  {
    match th.pc
    case Serve(e, c) => (Nothing, if ch.ok then Relay(e, c) else Done(e, c, None))
    case Relay(e, c) => (Nothing, Touch(e, c, s.mem.now))
    case Touch(e, c, end) => (Stamp(e), Done(e, c, Some(end)))
    case Done(_, c, _) => (Release(c), Rest)
  }

  /** One tick of the reaper: `sweep_exited`, then `sweep_idle`. */
  function ReapCode(cfg: Config, s: State, th: Thread): (Effect, Pc)
    requires InReaper(th.pc) && |cfg.catalog| == |s.mem.slots|
    requires th.pc.Cull? && th.pc.ids != [] ==> th.pc.ids[0] < |s.mem.slots|
  {
    var m, idle := s.mem, th.idle == Some(true);
    match th.pc
    case Reap(k) =>
      if k < |cfg.catalog| then
        var (fx, dead) := TakeIfExited(m, k, idle);
        (fx, if dead.Some? then Reaping(dead.value, k + 1) else Reap(k + 1))
      else (Nothing, Survey(m.now, []))
    case Reaping(c, k) => (Release(c), Reap(k))
    case Survey(now, rows) =>
      if |rows| < |cfg.catalog|
      then (Nothing, Survey(now, rows + [Row(cfg.catalog, m, |rows|, idle)]))
      else (Nothing, Cull(now, Expired(cfg.window, Compact(rows), now)))
    case Cull(now, ids) =>
      if ids == [] then (Nothing, Rest)
      else
        var (fx, taking) := TakeIfIdle(m, ids[0], idle, Stale(cfg.window, now));
        (fx, if taking.Taken? then Culling(now, taking.child, ids[1..]) else Cull(now, ids[1..]))
    case Culling(now, c, ids) => (Release(c), Cull(now, ids))
  }

  /** `clear`, and the listings, which only look. */
  function ClearCode(cfg: Config, s: State, th: Thread, ch: Choice): (Effect, Pc)
    requires InClear(th.pc) && |cfg.catalog| == |s.mem.slots|
    requires th.pc.Wipe? && th.pc.ids != [] ==> th.pc.ids[0] < |s.mem.slots|
  {
    match th.pc
    case Wipe(ids, taken) =>
      if ids == [] then (Nothing, Wiping(taken))
      else if s.mem.slots[ids[0]].None? then (Nothing, Wipe(ids[1..], taken))
      else (Take(ids[0]), Wipe(ids[1..], taken + {s.mem.slots[ids[0]].value.child}))
    case Wiping(taken) =>
      if taken == {} then (Nothing, Rest) else (Release(ch.child), Wiping(taken - {ch.child}))
    case List(k) => (Nothing, if k < |cfg.catalog| then List(k + 1) else Rest)
  }

  predicate InRequest(pc: Pc) { pc.Fast? || pc.Queue? || pc.Again? || pc.Check? }
  predicate InAdmission(pc: Pc) {
    pc.Evict? || pc.Evicting? || pc.Hold? || pc.Sleep? || pc.Load? || pc.Place?
  }
  predicate IsReader(pc: Pc) { pc.Serve? || pc.Relay? || pc.Touch? || pc.Done? }
  predicate InReaper(pc: Pc) { pc.Reap? || pc.Reaping? || pc.Survey? || pc.Cull? || pc.Culling? }
  predicate InClear(pc: Pc) { pc.Wipe? || pc.Wiping? || pc.List? }

  /** One step of the program: its effect on the memory, and where the thread goes next. */
  function Code(cfg: Config, s: State, t: ThreadId, ch: Choice): (Effect, Pc)
    requires CanRun(cfg, s, t, ch)
  {
    var th := s.threads[t];
    if InRequest(th.pc) then RequestCode(cfg, s, th, ch)
    else if th.pc.Scan? then ScanCode(cfg, s, th, ch)
    else if InAdmission(th.pc) then AdmitCode(cfg, s, th, ch)
    else if IsReader(th.pc) then ServeCode(s, th, ch)
    else if InReaper(th.pc) then ReapCode(cfg, s, th)
    else ClearCode(cfg, s, th, ch)
  }

  /** `stale`, against the configured window. */
  function Stale(window: Option<nat>, now: nat): Held -> bool {
    (held: Held) => window.Some? && Elapsed(now, held.lastUsed) >= window.value
  }

  // ----------------------------------------------------------------------------- the steps

  datatype Event =
    | Tick(d: nat)                  // time passes
    | Die(c: ChildId)               // a child process exits
    | Begin(t: ThreadId, role: Pc)  // a connection, a reaper tick, a stop, a listing
    | Lock(t: ThreadId)             // take the slot lock the next step needs
    | Look(t: ThreadId)             // read the strong count under it
    | Run(t: ThreadId, ch: Choice)  // act, and let go of the slot lock

  /** Every entry once, in whatever order a hash map gives them. */
  predicate Everyone(cfg: Config, ids: seq<EntryId>) {
    && |ids| == |cfg.catalog|
    && (forall id :: id in ids ==> id < |cfg.catalog|)
    && forall i :: 0 <= i < |cfg.catalog| ==> i in ids
  }

  predicate Role(cfg: Config, pc: Pc) {
    || (pc.Fast? && pc.e < |cfg.catalog|)
    || (pc.Reap? && pc.k == 0 && cfg.window.Some?)
    || (pc.Wipe? && pc.taken == {} && Everyone(cfg, pc.ids))
    || pc == List(0)
  }

  predicate Enabled(cfg: Config, s: State, ev: Event) {
    match ev
    case Tick(_) => true
    case Die(_) => true
    case Begin(t, role) => t in s.threads && s.threads[t].pc.Rest? && Role(cfg, role)
    case Lock(t) =>
      && t in s.threads && s.threads[t].lock.None?
      && var need := Needs(cfg, s.threads[t].pc);
         need.Some? && need.value < |s.locks| && s.locks[need.value].None?
    case Look(t) =>
      && t in s.threads
      && var th := s.threads[t];
         && th.lock.Some? && th.idle.None? && AsksIdle(th.pc)
         && th.lock.value < |s.mem.slots| && s.mem.slots[th.lock.value].Some?
    case Run(t, ch) => CanRun(cfg, s, t, ch)
  }

  function Apply(cfg: Config, s: State, ev: Event): State
    requires Enabled(cfg, s, ev)
  {
    match ev
    case Tick(d) => s.(mem := s.mem.(now := s.mem.now + d))
    case Die(c) => s.(mem := s.mem.(dead := s.mem.dead + {c}))
    case Begin(t, role) => s.(threads := s.threads[t := Thread(role, None, None)])
    case Lock(t) =>
      var i := Needs(cfg, s.threads[t].pc).value;
      s.(locks := s.locks[i := Some(t)], threads := s.threads[t := s.threads[t].(lock := Some(i))])
    case Look(t) =>
      var th := s.threads[t];
      s.(threads := s.threads[t := th.(idle := Some(!s.mem.Busy(th.lock.value)))])
    case Run(t, ch) => Act(cfg, s, t, ch)
  }

  function Act(cfg: Config, s: State, t: ThreadId, ch: Choice): State
    requires CanRun(cfg, s, t, ch)
  {
    var (fx, pc) := Code(cfg, s, t, ch);
    Commit(s, t, fx, pc)
  }

  /** A step's outcome: the effect lands, the slot lock goes, and the admission lock is kept or not. */
  function Commit(s: State, t: ThreadId, fx: Effect, pc: Pc): State
    requires t in s.threads
  {
    var th := s.threads[t];
    State(
      Affect(s.mem, fx),
      if HoldsAdmission(pc) then Some(t) else if s.admission == Some(t) then None else s.admission,
      if th.lock.Some? && th.lock.value < |s.locks| then s.locks[th.lock.value := None] else s.locks,
      s.threads[t := Thread(pc, None, None)],
      if fx.Spawn? then s.home[fx.c := fx.e] else s.home,
      s.cut || (th.pc.Wipe? && fx.Take? && CutsReader(s.mem, fx.i)),
      if th.pc.Done? && th.pc.relayed.Some?
      then s.ended[th.pc.c := Max(EndOf(s, th.pc.c), th.pc.relayed.value)] else s.ended)
  }

  predicate CutsReader(m: Memory, i: EntryId) { i < |m.slots| && m.slots[i].Some? && m.Busy(i) }

  function EndOf(s: State, c: ChildId): nat { if c in s.ended then s.ended[c] else 0 }

  // ------------------------------------------------------------------------------ the runs

  /** `Slots::new`: every slot empty, no child, no lock held; any number of threads. */
  ghost predicate Initial(cfg: Config, s: State) {
    && s.mem.slots == seq(|cfg.catalog|, _ => None)
    && s.mem.strong == map[]
    && s.admission.None?
    && s.locks == seq(|cfg.catalog|, _ => None)
    && (forall t :: t in s.threads ==> s.threads[t] == Thread(Rest, None, None))
    && s.home == map[] && !s.cut && s.ended == map[]
  }

  ghost predicate Next(cfg: Config, s: State, s': State) {
    exists ev :: Enabled(cfg, s, ev) && s' == Apply(cfg, s, ev)
  }

  /** A run of the whole system: any interleaving, from the start. */
  ghost predicate IsRun(cfg: Config, run: seq<State>) {
    && run != []
    && Initial(cfg, run[0])
    && forall i :: 0 < i < |run| ==> Next(cfg, run[i - 1], run[i])
  }

  ghost predicate Reachable(cfg: Config, s: State) {
    exists run :: IsRun(cfg, run) && run[|run| - 1] == s
  }
}

/** Each part of the invariant is kept by every step. */
module ProtocolKeeps {
  import opened Wrappers
  import opened Admission
  import opened SlotTable
  import opened Protocol
  import opened ProtocolInvariant

  /** Everything about locks, handles and slots; the budget and the clock come on top. */
  ghost predicate Core(cfg: Config, s: State) {
    && Shape(cfg, s) && Locked(cfg, s) && OneAdmission(s) && Homes(s) && Counted(s)
    && Unslotted(s) && Fresh(s) && Safe(s) && Seen(s) && Vacant(s)
  }

  lemma {:induction false} HoldersAfter(threads: map<ThreadId, Thread>, t: ThreadId, th: Thread, c: ChildId)
    requires t in threads
    ensures Holders(threads[t := th], c) ==
            if c in Owns(th.pc) then Holders(threads, c) + {t} else Holders(threads, c) - {t}
    ensures |Holders(threads[t := th], c)| == |Holders(threads, c)|
            + (if c in Owns(th.pc) then 1 else 0) - (if c in Owns(threads[t].pc) then 1 else 0)
  {}

  lemma {:induction false} NobodyHolds(s: State, c: ChildId)
    requires Homes(s) && c !in s.home
    ensures Holders(s.threads, c) == {}
  {}

  // ---------------------------------------------- what the invariant says of a step about to happen

  /** The child of an occupied slot is at home there. */
  ghost predicate AtHome(s: State, i: EntryId) {
    && i < |s.mem.slots| && s.mem.slots[i].Some?
    && var c := s.mem.slots[i].value.child;
       c in s.home && s.home[c] == i && InSlot(s, c)
  }

  ghost predicate Sound(s: State, t: ThreadId, fx: Effect)
    requires t in s.threads
  {
    match fx
    case Nothing => true
    case Stamp(_) => true
    case Clone(i) => AtHome(s, i)
    case Discard(i) =>
      && AtHome(s, i) && Holders(s.threads, s.mem.slots[i].value.child) == {}
      && s.mem.Count(s.mem.slots[i].value.child) == 1
    case Take(i) =>
      && AtHome(s, i) && t !in Holders(s.threads, s.mem.slots[i].value.child)
      && (!CutsReader(s.mem, i) ==> Holders(s.threads, s.mem.slots[i].value.child) == {})
      && (s.threads[t].idle == Some(true) ==> Holders(s.threads, s.mem.slots[i].value.child) == {})
    case Put(i, held) =>
      && i < |s.mem.slots| && s.mem.slots[i].None? && Holders(s.threads, held.child) == {t}
      && held.child in s.home && s.home[held.child] == i && s.mem.Count(held.child) == 1
    case Release(c) => c in s.home && s.mem.Count(c) > 0
    case Spawn(c, _) => c !in s.home && Holders(s.threads, c) == {}
  }

  lemma {:induction false} TakingIsSound(cfg: Config, s: State, t: ThreadId, fx: Effect, pc: Pc)
    requires Core(cfg, s) && t in s.threads && Permitted(cfg, s, s.threads[t], fx, pc)
    requires fx.Take? || fx.Discard? || fx.Clone?
    ensures Sound(s, t, fx)
  {}

  lemma {:induction false} StepIsSound(cfg: Config, s: State, t: ThreadId, fx: Effect, pc: Pc)
    requires Core(cfg, s) && t in s.threads && Permitted(cfg, s, s.threads[t], fx, pc)
    ensures Sound(s, t, fx)
  {
    match fx {
      case Nothing =>
      case Stamp(_) =>
      case Clone(_) => TakingIsSound(cfg, s, t, fx, pc);
      case Discard(_) => TakingIsSound(cfg, s, t, fx, pc);
      case Take(_) => TakingIsSound(cfg, s, t, fx, pc);
      case Put(i, held) =>
        assert VacantFor(s, s.threads[t].pc);
        assert Holders(s.threads, held.child) == {t};
        assert s.mem.Count(held.child) == |Holders(s.threads, held.child)|;
      case Release(c) =>
        assert t in Holders(s.threads, c);
        assert s.mem.Count(c) >= |Holders(s.threads, c)|;
      case Spawn(c, _) => NobodyHolds(s, c);
    }
  }

  // ------------------------------------------------------------------------ acting (`Run`)

  lemma {:induction false} ShapeKept(cfg: Config, s: State, t: ThreadId, fx: Effect, pc: Pc)
    requires Shape(cfg, s) && t in s.threads && Permitted(cfg, s, s.threads[t], fx, pc)
    ensures Shape(cfg, Commit(s, t, fx, pc))
  {}

  /** A step changes no slot but the one whose lock it holds. */
  lemma {:induction false} OtherSlotsStay(cfg: Config, s: State, t: ThreadId, fx: Effect, pc: Pc, i: EntryId)
    requires t in s.threads && Permitted(cfg, s, s.threads[t], fx, pc)
    requires i < |s.mem.slots| && s.threads[t].lock != Some(i)
    ensures |Commit(s, t, fx, pc).mem.slots| == |s.mem.slots|
    ensures Commit(s, t, fx, pc).mem.slots[i] == s.mem.slots[i]
  {}

  lemma {:induction false} LooksKept(cfg: Config, s: State, t: ThreadId, fx: Effect, pc: Pc, u: ThreadId)
    requires Shape(cfg, s) && Locked(cfg, s) && t in s.threads && Permitted(cfg, s, s.threads[t], fx, pc)
    requires u in s.threads && u != t && s.threads[u].idle.Some?
    ensures var s' := Commit(s, t, fx, pc);
            && s.threads[u].lock.Some? && AsksIdle(s.threads[u].pc)
            && s.threads[u].lock.value < |s'.mem.slots| && s'.mem.slots[s.threads[u].lock.value].Some?
  {
    hide PcOk, Permitted;
    OtherSlotsStay(cfg, s, t, fx, pc, s.threads[u].lock.value);
  }

  lemma {:induction false} LockedKept(cfg: Config, s: State, t: ThreadId, fx: Effect, pc: Pc)
    requires Shape(cfg, s) && Locked(cfg, s) && t in s.threads && Permitted(cfg, s, s.threads[t], fx, pc)
    ensures Locked(cfg, Commit(s, t, fx, pc))
  {
    hide PcOk, Permitted, Affect, Needs, HoldsAdmission;
    var s' := Commit(s, t, fx, pc);
    forall u | u in s'.threads && s'.threads[u].lock.Some?
      ensures u != t && s.locks[s.threads[u].lock.value] == Some(u)
    {
    }
    forall u | u in s'.threads && s'.threads[u].idle.Some?
      ensures
        && s'.threads[u].lock.Some? && AsksIdle(s'.threads[u].pc)
        && s'.threads[u].lock.value < |s'.mem.slots|
        && s'.mem.slots[s'.threads[u].lock.value].Some?
    {
      LooksKept(cfg, s, t, fx, pc, u);
    }
  }

  lemma {:induction false} OneAdmissionKept(cfg: Config, s: State, t: ThreadId, fx: Effect, pc: Pc)
    requires OneAdmission(s) && t in s.threads && Permitted(cfg, s, s.threads[t], fx, pc)
    ensures OneAdmission(Commit(s, t, fx, pc))
  {}

  lemma {:induction false} ReadersStayHome(cfg: Config, s: State, t: ThreadId, fx: Effect, pc: Pc)
    requires Homes(s) && t in s.threads && Permitted(cfg, s, s.threads[t], fx, pc)
    ensures var s' := Commit(s, t, fx, pc);
            forall u, e, c :: u in s'.threads && Reads(s'.threads[u].pc, e, c) ==> c in s'.home && s'.home[c] == e
  {
    hide PcOk;
    var s' := Commit(s, t, fx, pc);
    forall u, e, c | u in s'.threads && Reads(s'.threads[u].pc, e, c) ensures c in s'.home && s'.home[c] == e {
      if u != t || fx.Nothing? || fx.Stamp? { assert Reads(s.threads[u].pc, e, c); }
    }
  }

  lemma {:induction false} SlotsStayHome(cfg: Config, s: State, t: ThreadId, fx: Effect, pc: Pc)
    requires Shape(cfg, s) && Homes(s) && t in s.threads && Permitted(cfg, s, s.threads[t], fx, pc)
    ensures var s' := Commit(s, t, fx, pc);
            forall i :: 0 <= i < |s'.mem.slots| && s'.mem.slots[i].Some? ==>
              s'.mem.slots[i].value.child in s'.home && s'.home[s'.mem.slots[i].value.child] == i
  {
    hide PcOk, Reads, HoldsAdmission, IsReader, Admitting, FoundEmpty;
  }

  lemma {:induction false} HomesKept(cfg: Config, s: State, t: ThreadId, fx: Effect, pc: Pc)
    requires Shape(cfg, s) && Homes(s) && t in s.threads && Permitted(cfg, s, s.threads[t], fx, pc)
    ensures Homes(Commit(s, t, fx, pc))
  {
    hide PcOk, Reads, HoldsAdmission, IsReader, Admitting, FoundEmpty;
    SlotsStayHome(cfg, s, t, fx, pc);
    ReadersStayHome(cfg, s, t, fx, pc);
  }

  /** Where a child sits after a step, in terms of where it sat before. */
  lemma {:induction false} InSlotAfter(cfg: Config, s: State, t: ThreadId, fx: Effect, pc: Pc, c: ChildId)
    requires Shape(cfg, s) && Homes(s) && t in s.threads && Permitted(cfg, s, s.threads[t], fx, pc)
    requires c in s.home && Sound(s, t, fx)
    ensures InSlot(Commit(s, t, fx, pc), c) <==>
            if (fx.Take? || fx.Discard?) && s.mem.slots[fx.i].value.child == c then false
            else if fx.Put? && fx.held.child == c then true
            else InSlot(s, c)
  {
    hide PcOk;
  }

  /** The strong count moves by exactly what the handles and the slot moved by. */
  lemma {:induction false} CountAfter(cfg: Config, s: State, t: ThreadId, fx: Effect, pc: Pc, c: ChildId)
    requires Shape(cfg, s) && Homes(s) && t in s.threads && Permitted(cfg, s, s.threads[t], fx, pc)
    requires c in s.home && Sound(s, t, fx)
    ensures Commit(s, t, fx, pc).mem.Count(c) == s.mem.Count(c)
            + (if c in Owns(pc) then 1 else 0) - (if c in Owns(s.threads[t].pc) then 1 else 0)
            + (if InSlot(Commit(s, t, fx, pc), c) then 1 else 0) - (if InSlot(s, c) then 1 else 0)
  {
    hide PcOk;
    InSlotAfter(cfg, s, t, fx, pc, c);
  }

  lemma {:induction false} CountedKept(cfg: Config, s: State, t: ThreadId, fx: Effect, pc: Pc)
    requires Shape(cfg, s) && Homes(s) && Counted(s) && t in s.threads
    requires Permitted(cfg, s, s.threads[t], fx, pc) && Sound(s, t, fx)
    ensures Counted(Commit(s, t, fx, pc))
  {
    hide PcOk, Reads, HoldsAdmission, Admitting, IsReader, FoundEmpty;
    var s' := Commit(s, t, fx, pc);
    forall c | c in s'.home
      ensures s'.mem.Count(c) == |Holders(s'.threads, c)| + if InSlot(s', c) then 1 else 0
    {
      HoldersAfter(s.threads, t, Thread(pc, None, None), c);
      if c in s.home {
        CountAfter(cfg, s, t, fx, pc, c);
      } else {
        NobodyHolds(s, c);
        NewcomersAreUnslotted(cfg, s, t, fx, pc, c);
      }
    }
  }

  lemma {:induction false} NewcomersAreUnslotted(cfg: Config, s: State, t: ThreadId, fx: Effect, pc: Pc, c: ChildId)
    requires Shape(cfg, s) && Homes(s) && t in s.threads && Permitted(cfg, s, s.threads[t], fx, pc)
    requires c !in s.home && c in Commit(s, t, fx, pc).home
    ensures fx.Spawn? && fx.c == c && !InSlot(Commit(s, t, fx, pc), c)
  {}

  lemma {:induction false} UnslottedKept(cfg: Config, s: State, t: ThreadId, fx: Effect, pc: Pc)
    requires Shape(cfg, s) && Homes(s) && Unslotted(s) && t in s.threads
    requires Permitted(cfg, s, s.threads[t], fx, pc) && Sound(s, t, fx)
    ensures Unslotted(Commit(s, t, fx, pc))
  {
    hide PcOk;
    var s' := Commit(s, t, fx, pc);
    forall u, c | u in s'.threads && !IsReader(s'.threads[u].pc) && c in Owns(s'.threads[u].pc)
      ensures !InSlot(s', c)
    {
      if c !in s.home {
        if c in s'.home { NewcomersAreUnslotted(cfg, s, t, fx, pc, c); }
      } else {
        InSlotAfter(cfg, s, t, fx, pc, c);
        if fx.Put? && fx.held.child == c { OnlyHolder(s.threads, c, t, u); }
        if u == t && fx.Release? && IsReader(s.threads[t].pc) {
          OwnsOne(s.threads[t].pc);
        }
      }
    }
  }

  lemma {:induction false} OnlyHolder(threads: map<ThreadId, Thread>, c: ChildId, t: ThreadId, u: ThreadId)
    requires Holders(threads, c) == {t} && u in threads && (u == t || c in Owns(threads[u].pc))
    ensures u == t
  {
    assert u == t || u in Holders(threads, c);
  }

  lemma {:induction false} OwnsOne(pc: Pc)
    requires IsReader(pc)
    ensures Owns(pc) == {pc.c} && Reads(pc, pc.e, pc.c)
  {}

  lemma {:induction false} FreshKept(cfg: Config, s: State, t: ThreadId, fx: Effect, pc: Pc)
    requires Homes(s) && Fresh(s) && Unslotted(s) && t in s.threads
    requires Permitted(cfg, s, s.threads[t], fx, pc) && Sound(s, t, fx)
    ensures Fresh(Commit(s, t, fx, pc))
  {
    hide PcOk;
    var s' := Commit(s, t, fx, pc);
    forall u | u in s'.threads && s'.threads[u].pc.Place?
      ensures Holders(s'.threads, s'.threads[u].pc.held.child) == {u}
    {
      if u == t {
        HoldersAfter(s.threads, t, Thread(pc, None, None), pc.held.child);
      } else {
        StarterStaysAlone(cfg, s, t, fx, pc, u);
      }
    }
  }

  lemma {:induction false} StarterStaysAlone(cfg: Config, s: State, t: ThreadId, fx: Effect, pc: Pc, u: ThreadId)
    requires Homes(s) && Fresh(s) && Unslotted(s) && t in s.threads
    requires Permitted(cfg, s, s.threads[t], fx, pc) && Sound(s, t, fx)
    requires u in s.threads && u != t && s.threads[u].pc.Place?
    ensures Holders(Commit(s, t, fx, pc).threads, s.threads[u].pc.held.child) == {u}
  {}

  lemma {:induction false} StarterAlone(s: State, t: ThreadId, fx: Effect, u: ThreadId)
    requires Homes(s) && Fresh(s) && Unslotted(s) && t in s.threads && Sound(s, t, fx)
    requires u in s.threads && u != t && s.threads[u].pc.Place?
    ensures var c := s.threads[u].pc.held.child;
            && Holders(s.threads, c) == {u} && c !in Owns(s.threads[t].pc)
            && ((fx.Take? || fx.Clone?) ==> s.mem.slots[fx.i].value.child != c)
            && (fx.Spawn? ==> fx.c != c) && (fx.Put? ==> fx.held.child != c)
  {
    var c := s.threads[u].pc.held.child;
    assert c in Owns(s.threads[u].pc) && !InSlot(s, c);
    assert t !in Holders(s.threads, c) && u in Holders(s.threads, c);
  }

  lemma {:induction false} SafeKept(cfg: Config, s: State, t: ThreadId, fx: Effect, pc: Pc)
    requires Shape(cfg, s) && Homes(s) && Safe(s) && t in s.threads
    requires Permitted(cfg, s, s.threads[t], fx, pc) && Sound(s, t, fx)
    ensures Safe(Commit(s, t, fx, pc))
  {
    var s' := Commit(s, t, fx, pc);
    if !s'.cut {
      forall u, e, c | u in s'.threads && Reads(s'.threads[u].pc, e, c) ensures InSlot(s', c) {
        if u != t || fx.Nothing? || fx.Stamp? {
          assert Reads(s.threads[u].pc, e, c);
          assert InSlot(s, c) && u in Holders(s.threads, c);
          InSlotAfter(cfg, s, t, fx, pc, c);
        } else {
          assert fx.Clone? || fx.Put?;
          InSlotAfter(cfg, s, t, fx, pc, c);
        }
      }
    }
  }

  lemma {:induction false} SeenKept(cfg: Config, s: State, t: ThreadId, fx: Effect, pc: Pc)
    requires Shape(cfg, s) && Locked(cfg, s) && Homes(s) && Seen(s) && t in s.threads
    requires Permitted(cfg, s, s.threads[t], fx, pc) && Sound(s, t, fx)
    ensures Seen(Commit(s, t, fx, pc))
  {
    var s' := Commit(s, t, fx, pc);
    forall u | u in s'.threads && SeesIdle(s', s'.threads[u])
      ensures Holders(s'.threads, s'.mem.slots[s'.threads[u].lock.value].value.child) == {}
    {
      UnreadStaysUnread(cfg, s, t, fx, pc, u);
    }
  }

  /** Nobody comes to hold the child of a slot without that slot's lock. */
  lemma {:induction false} NoHandleWithoutTheLock(cfg: Config, s: State, t: ThreadId, fx: Effect, pc: Pc, i: EntryId)
    requires Homes(s) && t in s.threads && Permitted(cfg, s, s.threads[t], fx, pc)
    requires i < |s.mem.slots| && s.mem.slots[i].Some? && s.threads[t].lock != Some(i)
    ensures s.mem.slots[i].value.child in Owns(pc) ==> t in Holders(s.threads, s.mem.slots[i].value.child)
  {
    hide PcOk;
  }

  lemma {:induction false} UnreadStaysUnread(cfg: Config, s: State, t: ThreadId, fx: Effect, pc: Pc, u: ThreadId)
    requires Shape(cfg, s) && Locked(cfg, s) && Homes(s) && Seen(s) && t in s.threads
    requires Permitted(cfg, s, s.threads[t], fx, pc) && Sound(s, t, fx)
    requires u in s.threads && SeesIdle(Commit(s, t, fx, pc), Commit(s, t, fx, pc).threads[u])
    ensures var s' := Commit(s, t, fx, pc);
            Holders(s'.threads, s'.mem.slots[s'.threads[u].lock.value].value.child) == {}
  {
    hide Permitted, Affect, Needs, HoldsAdmission;
    assert u != t;
    var i := s.threads[u].lock.value;
    assert s.threads[t].lock != Some(i) by { assert s.locks[i] == Some(u); }
    OtherSlotsStay(cfg, s, t, fx, pc, i);
    assert SeesIdle(s, s.threads[u]);
    var c := s.mem.slots[i].value.child;
    NoHandleWithoutTheLock(cfg, s, t, fx, pc, i);
    HoldersAfter(s.threads, t, Thread(pc, None, None), c);
    assert t !in Holders(s.threads, c);
  }

  lemma {:induction false} VacantKept(cfg: Config, s: State, t: ThreadId, fx: Effect, pc: Pc)
    requires Vacant(s) && OneAdmission(s) && t in s.threads && Permitted(cfg, s, s.threads[t], fx, pc)
    ensures Vacant(Commit(s, t, fx, pc))
  {}

  lemma {:induction false} RunKeepsCore(cfg: Config, s: State, t: ThreadId, fx: Effect, pc: Pc)
    requires Core(cfg, s) && t in s.threads && Permitted(cfg, s, s.threads[t], fx, pc)
    ensures Core(cfg, Commit(s, t, fx, pc))
  {
    StepIsSound(cfg, s, t, fx, pc);
    ShapeKept(cfg, s, t, fx, pc);
    LockedKept(cfg, s, t, fx, pc);
    OneAdmissionKept(cfg, s, t, fx, pc);
    HomesKept(cfg, s, t, fx, pc);
    CountedKept(cfg, s, t, fx, pc);
    UnslottedKept(cfg, s, t, fx, pc);
    FreshKept(cfg, s, t, fx, pc);
    SafeKept(cfg, s, t, fx, pc);
    SeenKept(cfg, s, t, fx, pc);
    VacantKept(cfg, s, t, fx, pc);
  }

  // -------------------------------------------------------- the steps that are not the program's

  /** The clock and the dead are no part of who holds what. */
  lemma {:induction false} WorldKeepsHandles(s: State, now: nat, dead: set<ChildId>)
    requires Homes(s) && Counted(s) && Unslotted(s) && Fresh(s)
    ensures var s' := s.(mem := s.mem.(now := now, dead := dead));
            Homes(s') && Counted(s') && Unslotted(s') && Fresh(s')
  {
    hide Owns, Reads, IsReader, Holders;
    var s' := s.(mem := s.mem.(now := now, dead := dead));
    assert forall c :: InSlot(s', c) <==> InSlot(s, c);
  }

  lemma {:induction false} WorldKeepsCore(cfg: Config, s: State, now: nat, dead: set<ChildId>)
    requires Core(cfg, s)
    ensures Core(cfg, s.(mem := s.mem.(now := now, dead := dead)))
  {
    hide PcOk, Needs, Reads, HoldsAdmission, AsksIdle, Admitting, Holders, Homes, Counted, Unslotted, Fresh;
    WorldKeepsHandles(s, now, dead);
  }

  /** The state in which thread `t` has become `th`. */
  function Became(s: State, t: ThreadId, th: Thread, locks: seq<Option<ThreadId>>): State {
    s.(threads := s.threads[t := th], locks := locks)
  }

  /** A thread that begins, takes a lock or reads a count: no handle changes hands. */
  ghost predicate Steady(cfg: Config, s: State, t: ThreadId, th: Thread) {
    && t in s.threads
    && (s.threads[t].pc == th.pc || (s.threads[t].pc.Rest? && Role(cfg, th.pc)))
  }

  lemma {:induction false} SteadyHolders(cfg: Config, s: State, t: ThreadId, th: Thread, c: ChildId)
    requires Steady(cfg, s, t, th)
    ensures Holders(s.threads[t := th], c) == Holders(s.threads, c)
  {}

  lemma {:induction false} SteadyPc(cfg: Config, s: State, t: ThreadId, th: Thread)
    requires Steady(cfg, s, t, th)
    ensures t in s.threads
    ensures Owns(th.pc) == Owns(s.threads[t].pc) && IsReader(th.pc) == IsReader(s.threads[t].pc)
    ensures forall e, c :: Reads(th.pc, e, c) <==> Reads(s.threads[t].pc, e, c)
    ensures th.pc.Place? || s.threads[t].pc.Place? ==> th.pc == s.threads[t].pc
  {}

  lemma {:induction false} SteadyKeepsHandles(
    cfg: Config, s: State, t: ThreadId, th: Thread, locks: seq<Option<ThreadId>>)
    requires Steady(cfg, s, t, th) && Homes(s) && Counted(s) && Unslotted(s) && Fresh(s)
    ensures var s' := Became(s, t, th, locks); Homes(s') && Counted(s') && Unslotted(s') && Fresh(s')
  {
    hide Steady, Owns, Reads, IsReader;
    SteadyPc(cfg, s, t, th);
    var s' := Became(s, t, th, locks);
    forall c ensures Holders(s'.threads, c) == Holders(s.threads, c) { SteadyHolders(cfg, s, t, th, c); }
    assert forall c :: InSlot(s', c) <==> InSlot(s, c);
    assert forall u, e, c :: u in s'.threads && Reads(s'.threads[u].pc, e, c) ==> Reads(s.threads[u].pc, e, c);
  }

  lemma {:induction false} SteadyKeepsSafe(cfg: Config, s: State, t: ThreadId, th: Thread, locks: seq<Option<ThreadId>>)
    requires Steady(cfg, s, t, th) && Safe(s) && Vacant(s) && OneAdmission(s)
    ensures var s' := Became(s, t, th, locks); Safe(s') && Vacant(s') && OneAdmission(s')
  {}

  /** A lock is taken from nobody, and a count read only under the lock. */
  ghost predicate LocksFairly(cfg: Config, s: State, t: ThreadId, th: Thread, locks: seq<Option<ThreadId>>)
    requires t in s.threads
  {
    && (|| (th.lock == s.threads[t].lock && locks == s.locks)
        || (s.threads[t].lock.None? && th.lock.Some? && th.lock.value < |s.locks|
            && s.locks[th.lock.value].None? && locks == s.locks[th.lock.value := Some(t)]))
    && (th.lock.Some? ==> Needs(cfg, th.pc) == th.lock)
    && (th.idle.Some? ==>
          && th.lock.Some? && AsksIdle(th.pc)
          && th.lock.value < |s.mem.slots| && s.mem.slots[th.lock.value].Some?)
  }

  lemma {:induction false} SteadyKeepsLocked(
    cfg: Config, s: State, t: ThreadId, th: Thread, locks: seq<Option<ThreadId>>)
    requires t in s.threads && Shape(cfg, s) && Locked(cfg, s)
    requires PcOk(cfg, th.pc) && LocksFairly(cfg, s, t, th, locks)
    ensures var s' := Became(s, t, th, locks); Shape(cfg, s') && Locked(cfg, s')
  {
    hide PcOk, Needs, AsksIdle, HoldsAdmission, Owns;
    var s' := Became(s, t, th, locks);
    forall i | 0 <= i < |s'.locks| && s'.locks[i].Some?
      ensures s'.locks[i].value in s'.threads && s'.threads[s'.locks[i].value].lock == Some(i)
    {
      if i < |s.locks| && s.locks[i] == locks[i] { assert s.locks[i].Some?; }
    }
  }

  lemma {:induction false} SteadyKeepsCore(cfg: Config, s: State, t: ThreadId, th: Thread, locks: seq<Option<ThreadId>>)
    requires Core(cfg, s) && Steady(cfg, s, t, th)
    requires PcOk(cfg, th.pc) && LocksFairly(cfg, s, t, th, locks)
    requires SeesIdle(s, th) ==> Holders(s.threads, s.mem.slots[th.lock.value].value.child) == {}
    ensures Core(cfg, Became(s, t, th, locks))
  {
    SteadyKeepsLocked(cfg, s, t, th, locks);
    SteadyKeepsHandles(cfg, s, t, th, locks);
    SteadyKeepsSafe(cfg, s, t, th, locks);
    SteadyKeepsSeen(cfg, s, t, th, locks);
  }

  /** Reading one handle under the lock means that nobody is reading from the child. */
  lemma {:induction false} OneHandleMeansUnread(cfg: Config, s: State, i: EntryId)
    requires Core(cfg, s) && i < |s.mem.slots| && s.mem.slots[i].Some? && !s.mem.Busy(i)
    ensures Holders(s.threads, s.mem.slots[i].value.child) == {}
  {}

  lemma {:induction false} SteadyKeepsSeen(cfg: Config, s: State, t: ThreadId, th: Thread, locks: seq<Option<ThreadId>>)
    requires Steady(cfg, s, t, th) && Seen(s)
    requires SeesIdle(s, th) ==> Holders(s.threads, s.mem.slots[th.lock.value].value.child) == {}
    ensures Seen(Became(s, t, th, locks))
  {}

  lemma {:induction false} RestHoldsNoLock(cfg: Config, s: State, t: ThreadId)
    requires Locked(cfg, s) && t in s.threads && s.threads[t].pc.Rest?
    ensures s.threads[t] == Thread(Rest, None, None)
  {}

  lemma {:induction false} RunKept(cfg: Config, s: State, t: ThreadId, ch: Choice)
    requires Core(cfg, s) && CanRun(cfg, s, t, ch)
    ensures Core(cfg, Act(cfg, s, t, ch))
  {
    CodeIsPermitted(cfg, s, t, ch);
    RunKeepsCore(cfg, s, t, Code(cfg, s, t, ch).0, Code(cfg, s, t, ch).1);
  }

  lemma {:induction false} StandKept(cfg: Config, s: State, ev: Event)
    requires Core(cfg, s) && Enabled(cfg, s, ev) && (ev.Begin? || ev.Lock? || ev.Look?)
    ensures Core(cfg, Apply(cfg, s, ev))
  {
    var th := s.threads[ev.t];
    match ev {
      case Begin(t, role) =>
        RestHoldsNoLock(cfg, s, t);
        SteadyKeepsCore(cfg, s, t, Thread(role, None, None), s.locks);
      case Lock(t) =>
        var i := Needs(cfg, th.pc).value;
        SteadyKeepsCore(cfg, s, t, th.(lock := Some(i)), s.locks[i := Some(t)]);
      case Look(t) =>
        if !s.mem.Busy(th.lock.value) { OneHandleMeansUnread(cfg, s, th.lock.value); }
        SteadyKeepsCore(cfg, s, t, th.(idle := Some(!s.mem.Busy(th.lock.value))), s.locks);
    }
  }

  lemma {:induction false} CoreAtStart(cfg: Config, s: State)
    requires Initial(cfg, s)
    ensures Core(cfg, s)
  {}
}

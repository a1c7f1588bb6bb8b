/** The methods of `Slots` are the critical sections of the protocol, run without interruption. */
module Refinement {
  import opened Wrappers
  import opened Admission
  import opened SlotTable
  import opened Protocol
  import opened ProtocolInvariant
  import opened ProtocolBudget

  /** The thread takes its lock, reads the strong count if it goes by it and there is a child, and acts. */
  function Section(cfg: Config, s: State, t: ThreadId, i: EntryId): seq<Event>
    requires t in s.threads
  {
    if AsksIdle(s.threads[t].pc) && i < |s.mem.slots| && s.mem.slots[i].Some?
    then [Lock(t), Look(t), Run(t, NoChoice)]
    else [Lock(t), Run(t, NoChoice)]
  }

  const NoChoice := Choice(false, 0, Measurement(None, None), None)

  /** Playing events one after the other; `None` when one of them is not enabled. */
  function Play(cfg: Config, s: State, evs: seq<Event>): Option<State>
    decreases |evs|
  {
    if evs == [] then Some(s)
    else if !Enabled(cfg, s, evs[0]) then None
    else Play(cfg, Apply(cfg, s, evs[0]), evs[1..])
  }

  /** A thread at rest in front of slot `i`, whose lock is free. */
  ghost predicate Ready(cfg: Config, s: State, t: ThreadId, i: EntryId) {
    && Invariant(cfg, s) && t in s.threads && Needs(cfg, s.threads[t].pc) == Some(i)
    && i < |s.locks| && s.locks[i].None? && s.threads[t].lock.None?
  }

  /** What the thread knows once it has taken the lock and, if there is a child, read its count. */
  function Informed(s: State, t: ThreadId, i: EntryId): State
    requires t in s.threads && i < |s.mem.slots| == |s.locks|
  {
    var idle := if AsksIdle(s.threads[t].pc) && s.mem.slots[i].Some? then Some(!s.mem.Busy(i)) else None;
    s.(locks := s.locks[i := Some(t)], threads := s.threads[t := Thread(s.threads[t].pc, Some(i), idle)])
  }

  lemma {:induction false} LockFirst(cfg: Config, s: State, t: ThreadId, i: EntryId)
    requires Ready(cfg, s, t, i)
    ensures s.threads[t].idle.None? && |s.mem.slots| == |s.locks|
    ensures Enabled(cfg, s, Lock(t))
    ensures Apply(cfg, s, Lock(t)) == Grabbed(s, t, i)
  {}

  function Grabbed(s: State, t: ThreadId, i: EntryId): State
    requires t in s.threads && i < |s.locks|
  {
    s.(locks := s.locks[i := Some(t)], threads := s.threads[t := Thread(s.threads[t].pc, Some(i), None)])
  }

  lemma {:induction false} ThenLook(cfg: Config, s: State, t: ThreadId, i: EntryId)
    requires t in s.threads && i < |s.locks| == |s.mem.slots|
    requires AsksIdle(s.threads[t].pc) && s.mem.slots[i].Some?
    ensures Enabled(cfg, Grabbed(s, t, i), Look(t))
    ensures Apply(cfg, Grabbed(s, t, i), Look(t)) == Informed(s, t, i)
  {}

  lemma {:induction false} SectionPlays(cfg: Config, s: State, t: ThreadId, i: EntryId)
    requires Ready(cfg, s, t, i)
    requires Enabled(cfg, Informed(s, t, i), Run(t, NoChoice))
    ensures Play(cfg, s, Section(cfg, s, t, i)) == Some(Apply(cfg, Informed(s, t, i), Run(t, NoChoice)))
  {
    LockFirst(cfg, s, t, i);
    var evs := Section(cfg, s, t, i);
    var last := Run(t, NoChoice);
    var s1, s2 := Grabbed(s, t, i), Informed(s, t, i);
    PlayLast(cfg, s2, last);
    if AsksIdle(s.threads[t].pc) && s.mem.slots[i].Some? {
      ThenLook(cfg, s, t, i);
      assert evs[1..] == [Look(t), last] && evs[1..][1..] == [last];
      assert Play(cfg, s1, [Look(t), last]) == Play(cfg, s2, [last]);
    } else {
      assert evs[1..] == [last];
    }
  }

  lemma {:induction false} PlayLast(cfg: Config, s: State, ev: Event)
    requires Enabled(cfg, s, ev)
    ensures Play(cfg, s, [ev]) == Some(Apply(cfg, s, ev))
  {}

  /** Played out, a critical section has the effect its last step decides on, and leaves the lock free. */
  lemma {:induction false} SectionActs(cfg: Config, s: State, t: ThreadId, i: EntryId, fx: Effect, pc: Pc)
    requires Ready(cfg, s, t, i) && CanRun(cfg, Informed(s, t, i), t, NoChoice)
    requires Code(cfg, Informed(s, t, i), t, NoChoice) == (fx, pc)
    ensures var after := Play(cfg, s, Section(cfg, s, t, i));
            && after.Some? && t in after.value.threads && after.value.threads[t] == Thread(pc, None, None)
            && after.value.mem == Affect(s.mem, fx) && after.value.locks == s.locks
            && (s.admission == Some(t) && !HoldsAdmission(pc) ==> after.value.admission.None?)
  {
    hide Code, Play, Section, Affect;
    assert Informed(s, t, i).locks[i := None] == s.locks;
    SectionPlays(cfg, s, t, i);
  }

  /** Nothing stands in the way of the thread's step once it knows what it goes by. */
  lemma {:induction false} InformedRuns(cfg: Config, s: State, t: ThreadId, i: EntryId)
    requires Ready(cfg, s, t, i) && !s.threads[t].pc.Queue? && !s.threads[t].pc.Sleep? && !s.threads[t].pc.Load?
    ensures i < |s.mem.slots| == |cfg.catalog| == |s.locks| && PcOk(cfg, s.threads[t].pc)
    ensures CanRun(cfg, Informed(s, t, i), t, NoChoice)
  {
    hide Homes, Counted, Unslotted, Fresh, Safe, Seen, Vacant, Budgeted, Timed;
  }

  /** The fast path's critical section does to the memory what `Slots.LiveChild` does. */
  lemma {:induction false} LiveChildRefines(cfg: Config, s: State, t: ThreadId, e: EntryId)
    requires Ready(cfg, s, t, e) && s.threads[t].pc == Fast(e)
    ensures var idle := s.mem.slots[e].Some? && !s.mem.Busy(e);
            var (fx, child) := LiveChild(s.mem, e, idle);
            var after := Play(cfg, s, Section(cfg, s, t, e));
            && after.Some? && t in after.value.threads
            && after.value.mem == Affect(s.mem, fx) && after.value.locks == s.locks
            && after.value.threads[t].pc == if child.Some? then Serve(e, child.value) else Queue(e)
  {
    hide Invariant, Play, Section, ScanCode, AdmitCode, ServeCode, ReapCode, ClearCode;
    InformedRuns(cfg, s, t, e);
    var (fx, child) := LiveChild(s.mem, e, s.mem.slots[e].Some? && !s.mem.Busy(e));
    SectionActs(cfg, s, t, e, fx, if child.Some? then Serve(e, child.value) else Queue(e));
  }

  /** So does the recheck under the admission lock. */
  lemma {:induction false} RecheckRefines(cfg: Config, s: State, t: ThreadId, e: EntryId)
    requires Ready(cfg, s, t, e) && s.threads[t].pc == Again(e)
    ensures var idle := s.mem.slots[e].Some? && !s.mem.Busy(e);
            var (fx, child) := LiveChild(s.mem, e, idle);
            var after := Play(cfg, s, Section(cfg, s, t, e));
            && after.Some? && t in after.value.threads
            && after.value.mem == Affect(s.mem, fx) && after.value.locks == s.locks
            && after.value.threads[t].pc == if child.Some? then Serve(e, child.value) else Check(e)
  {
    hide Invariant, Play, Section, ScanCode, AdmitCode, ServeCode, ReapCode, ClearCode;
    InformedRuns(cfg, s, t, e);
    var (fx, child) := LiveChild(s.mem, e, s.mem.slots[e].Some? && !s.mem.Busy(e));
    SectionActs(cfg, s, t, e, fx, if child.Some? then Serve(e, child.value) else Check(e));
  }

  /** A snapshot reads what `Slots.ReadRow` reads, and changes nothing. */
  lemma {:induction false} ReadRowRefines(cfg: Config, s: State, t: ThreadId)
    requires t in s.threads && s.threads[t].pc.Scan?
    requires Ready(cfg, s, t, |s.threads[t].pc.rows|)
    ensures var Scan(e, deadline, rows) := s.threads[t].pc;
            var i := |rows|;
            var after := Play(cfg, s, Section(cfg, s, t, i));
            && i < |s.mem.slots| == |cfg.catalog|
            && after.Some? && t in after.value.threads && after.value.mem == s.mem && after.value.locks == s.locks
            && after.value.threads[t].pc
            == Scan(e, deadline, rows + [Row(cfg.catalog, s.mem, i, s.mem.slots[i].Some? && !s.mem.Busy(i))])
  {
    hide Invariant, Play, Section, RequestCode, AdmitCode, ServeCode, ReapCode, ClearCode;
    var Scan(e, deadline, rows) := s.threads[t].pc;
    var i := |rows|;
    InformedRuns(cfg, s, t, i);
    var row := Row(cfg.catalog, s.mem, i, s.mem.slots[i].Some? && !s.mem.Busy(i));
    SectionActs(cfg, s, t, i, Nothing, Scan(e, deadline, rows + [row]));
  }

  /** So does the sweep's. */
  lemma {:induction false} SurveyRowRefines(cfg: Config, s: State, t: ThreadId)
    requires t in s.threads && s.threads[t].pc.Survey?
    requires Ready(cfg, s, t, |s.threads[t].pc.rows|)
    ensures var Survey(now, rows) := s.threads[t].pc;
            var i := |rows|;
            var after := Play(cfg, s, Section(cfg, s, t, i));
            && i < |s.mem.slots| == |cfg.catalog|
            && after.Some? && t in after.value.threads && after.value.mem == s.mem && after.value.locks == s.locks
            && after.value.threads[t].pc
            == Survey(now, rows + [Row(cfg.catalog, s.mem, i, s.mem.slots[i].Some? && !s.mem.Busy(i))])
  {
    hide Invariant, Play, Section, RequestCode, ScanCode, AdmitCode, ServeCode, ClearCode;
    var Survey(now, rows) := s.threads[t].pc;
    var i := |rows|;
    InformedRuns(cfg, s, t, i);
    var row := Row(cfg.catalog, s.mem, i, s.mem.slots[i].Some? && !s.mem.Busy(i));
    SectionActs(cfg, s, t, i, Nothing, Survey(now, rows + [row]));
  }

  lemma {:induction false} InsertingAdmits(cfg: Config, s: State, t: ThreadId)
    requires Invariant(cfg, s) && t in s.threads && s.threads[t].pc.Place?
    ensures s.admission == Some(t)
  {}

  /** The insertion is `Slots.Insert`, and gives the admission lock up. */
  lemma {:induction false} InsertRefines(cfg: Config, s: State, t: ThreadId, e: EntryId, held: Held)
    requires Ready(cfg, s, t, e) && s.threads[t].pc == Place(e, held)
    ensures var after := Play(cfg, s, Section(cfg, s, t, e));
            && after.Some? && t in after.value.threads
            && after.value.mem == Affect(s.mem, Put(e, held)) && after.value.locks == s.locks
            && after.value.threads[t].pc == Serve(e, held.child) && after.value.admission.None?
  {
    hide Invariant, Play, Section, RequestCode, ScanCode, ServeCode, ReapCode, ClearCode;
    InformedRuns(cfg, s, t, e);
    assert s.admission == Some(t) by { InsertingAdmits(cfg, s, t); }
    SectionActs(cfg, s, t, e, Put(e, held), Serve(e, held.child));
  }

  /** The touch is `Slots.Touch`. */
  lemma {:induction false} TouchRefines(cfg: Config, s: State, t: ThreadId, e: EntryId, c: ChildId, end: nat)
    requires Ready(cfg, s, t, e) && s.threads[t].pc == Touch(e, c, end)
    ensures var after := Play(cfg, s, Section(cfg, s, t, e));
            && after.Some? && t in after.value.threads
            && after.value.mem == Affect(s.mem, Stamp(e)) && after.value.locks == s.locks
            && after.value.threads[t].pc == Done(e, c, Some(end))
  {
    hide Invariant, Play, Section, RequestCode, ScanCode, AdmitCode, ReapCode, ClearCode;
    InformedRuns(cfg, s, t, e);
    SectionActs(cfg, s, t, e, Stamp(e), Done(e, c, Some(end)));
  }

  /** One slot of `clear` is `Slots.WipeOne`. */
  lemma {:induction false} WipeOneRefines(cfg: Config, s: State, t: ThreadId)
    requires t in s.threads && s.threads[t].pc.Wipe? && s.threads[t].pc.ids != []
    requires Ready(cfg, s, t, s.threads[t].pc.ids[0])
    ensures var Wipe(ids, taken) := s.threads[t].pc;
            var slot := s.mem.slots[ids[0]];
            var after := Play(cfg, s, Section(cfg, s, t, ids[0]));
            && after.Some? && t in after.value.threads && after.value.locks == s.locks
            && after.value.mem == Affect(s.mem, if slot.Some? then Take(ids[0]) else Nothing)
            && after.value.threads[t].pc
            == Wipe(ids[1..], if slot.Some? then taken + {slot.value.child} else taken)
  {
    hide Invariant, Play, Section, RequestCode, ScanCode, AdmitCode, ServeCode, ReapCode;
    var Wipe(ids, taken) := s.threads[t].pc;
    InformedRuns(cfg, s, t, ids[0]);
    var slot := s.mem.slots[ids[0]];
    SectionActs(cfg, s, t, ids[0], if slot.Some? then Take(ids[0]) else Nothing,
                Wipe(ids[1..], if slot.Some? then taken + {slot.value.child} else taken));
  }

  /** Eviction's critical section does to the memory what `Slots.TakeIfIdle` does. */
  lemma {:induction false} TakeIfIdleRefines(cfg: Config, s: State, t: ThreadId)
    requires t in s.threads && s.threads[t].pc.Evict? && s.threads[t].pc.ids != []
    requires Ready(cfg, s, t, s.threads[t].pc.ids[0])
    ensures var i := s.threads[t].pc.ids[0];
            var idle := s.mem.slots[i].Some? && !s.mem.Busy(i);
            var (fx, taking) := TakeIfIdle(s.mem, i, idle, Always);
            var after := Play(cfg, s, Section(cfg, s, t, i));
            && after.Some? && t in after.value.threads
            && after.value.mem == Affect(s.mem, fx) && after.value.locks == s.locks
            && (taking.Taken? <==> after.value.threads[t].pc.Evicting?)
            && (taking.IsBusy? <==> after.value.threads[t].pc.Hold?)
  {
    hide Invariant, Play, Section, RequestCode, ScanCode, ServeCode, ReapCode, ClearCode;
    var Evict(e, deadline, ids) := s.threads[t].pc;
    var i := ids[0];
    InformedRuns(cfg, s, t, i);
    var (fx, taking) := TakeIfIdle(s.mem, i, s.mem.slots[i].Some? && !s.mem.Busy(i), Always);
    var pc := match taking
              case Taken(c) => Evicting(e, deadline, c, ids[1..])
              case IsBusy => Hold(e, deadline)
              case Empty => Evict(e, deadline, ids[1..]);
    SectionActs(cfg, s, t, i, fx, pc);
  }

  /** The exit sweep's critical section does to the memory what `Slots.TakeIfExited` does. */
  lemma {:induction false} TakeIfExitedRefines(cfg: Config, s: State, t: ThreadId, k: EntryId)
    requires Ready(cfg, s, t, k) && s.threads[t].pc == Reap(k)
    ensures var idle := s.mem.slots[k].Some? && !s.mem.Busy(k);
            var (fx, dead) := TakeIfExited(s.mem, k, idle);
            var after := Play(cfg, s, Section(cfg, s, t, k));
            && after.Some? && t in after.value.threads
            && after.value.mem == Affect(s.mem, fx) && after.value.locks == s.locks
            && after.value.threads[t].pc == if dead.Some? then Reaping(dead.value, k + 1) else Reap(k + 1)
  {
    hide Invariant, Play, Section, RequestCode, ScanCode, AdmitCode, ServeCode, ClearCode;
    InformedRuns(cfg, s, t, k);
    var (fx, dead) := TakeIfExited(s.mem, k, s.mem.slots[k].Some? && !s.mem.Busy(k));
    SectionActs(cfg, s, t, k, fx, if dead.Some? then Reaping(dead.value, k + 1) else Reap(k + 1));
  }

  /** The idle sweep's critical section is `Slots.TakeIfIdle` with the sweep's own condition. */
  lemma {:induction false} SweptIdleRefines(cfg: Config, s: State, t: ThreadId)
    requires t in s.threads && s.threads[t].pc.Cull? && s.threads[t].pc.ids != []
    requires Ready(cfg, s, t, s.threads[t].pc.ids[0])
    ensures var pc := s.threads[t].pc;
            var i := pc.ids[0];
            var idle := s.mem.slots[i].Some? && !s.mem.Busy(i);
            var (fx, taking) := TakeIfIdle(s.mem, i, idle, Stale(cfg.window, pc.now));
            var after := Play(cfg, s, Section(cfg, s, t, i));
            && after.Some? && t in after.value.threads
            && after.value.mem == Affect(s.mem, fx) && after.value.locks == s.locks
            && after.value.threads[t].pc
            == if taking.Taken? then Culling(pc.now, taking.child, pc.ids[1..]) else Cull(pc.now, pc.ids[1..])
  {
    hide Invariant, Play, Section, RequestCode, ScanCode, AdmitCode, ServeCode, ClearCode;
    var Cull(now, ids) := s.threads[t].pc;
    var i := ids[0];
    InformedRuns(cfg, s, t, i);
    var idle := s.mem.slots[i].Some? && !s.mem.Busy(i);
    var (fx, taking) := TakeIfIdle(s.mem, i, idle, Stale(cfg.window, now));
    SectionActs(cfg, s, t, i, fx, if taking.Taken? then Culling(now, taking.child, ids[1..]) else Cull(now, ids[1..]));
  }
}

/**
 A tick of the reaper nobody disturbs: the dead that nobody reads from go, then
 the stale, and nothing else does.
 */
module TickAlone {
  import opened Wrappers
  import opened Admission
  import opened Idle
  import opened SlotTable
  import opened Protocol
  import opened ProtocolInvariant
  import opened ProtocolBudget
  import opened RequestAlone
  import Slots

  /** Of these entries those that may go have gone, each with its handle, and all else is as it was. */
  ghost predicate Gone(before: Memory, after: Memory, goes: set<EntryId>) {
    && |after.slots| == |before.slots| && after.now == before.now && after.dead == before.dead
    && (forall i: EntryId :: i < |after.slots| ==>
          after.slots[i] == if i in goes then None else before.slots[i])
    && Slots.KeepsTheRest(before, after)
  }

  lemma {:induction false} NoneGone(m: Memory)
    ensures Gone(m, m, {})
  {}

  lemma {:induction false} GoneBoth(a: Memory, b: Memory, c: Memory, first: set<EntryId>, then_: set<EntryId>)
    requires Gone(a, b, first) && Gone(b, c, then_)
    ensures Gone(a, c, first + then_)
  {}

  lemma {:induction false} OneGone(cfg: Config, s: State, i: EntryId)
    requires Invariant(cfg, s) && i < |s.mem.slots| && s.mem.slots[i].Some?
    ensures Gone(s.mem, Affect(Affect(s.mem, Take(i)), Release(s.mem.slots[i].value.child)), {i})
  {
    NoChildTwice(cfg, s);
  }

  lemma {:induction false} NoChildTwice(cfg: Config, s: State)
    requires Invariant(cfg, s)
    ensures forall i, j :: 0 <= i < j < |s.mem.slots| && s.mem.slots[i].Some? && s.mem.slots[j].Some? ==>
              s.mem.slots[i].value.child != s.mem.slots[j].value.child
  {}

  /** Nobody reads from it, and it is dead. */
  ghost function TheDead(m: Memory, from: EntryId): set<EntryId> {
    set i: EntryId | from <= i < |m.slots| && Slots.ExitedAt(m, i)
  }

  ghost function TheStale(m: Memory, ids: seq<EntryId>, also: Held -> bool): set<EntryId> {
    set i | i in ids && Slots.MayGo(m, i, also)
  }

  lemma {:induction false} DeadFurtherOn(before: Memory, after: Memory, k: EntryId)
    requires k < |before.slots| && Gone(before, after, if Slots.ExitedAt(before, k) then {k} else {})
    ensures TheDead(before, k)
         == (if Slots.ExitedAt(before, k) then {k} else {}) + TheDead(after, k + 1)
  {}

  lemma {:induction false} StaleFurtherOn(before: Memory, after: Memory, ids: seq<EntryId>, also: Held -> bool)
    requires ids != [] && Gone(before, after, if Slots.MayGo(before, ids[0], also) then {ids[0]} else {})
    ensures TheStale(before, ids, also)
         == (if Slots.MayGo(before, ids[0], also) then {ids[0]} else {}) + TheStale(after, ids[1..], also)
  {
    assert forall id :: id in ids <==> id == ids[0] || id in ids[1..];
  }

  lemma {:induction false} AloneIs(cfg: Config, s: State, t: ThreadId)
    requires Alone(cfg, s, t)
    ensures t in s.threads && |s.mem.slots| == |cfg.catalog| && Invariant(cfg, s)
  {}

  lemma {:induction false} GoneKeepsTime(m: Memory)
    ensures forall after, goes :: Gone(m, after, goes) ==> after.now == m.now
  {}

  lemma {:induction false} ReapIs(cfg: Config, s: State, t: ThreadId, k: EntryId, ch: Choice)
    requires Alone(cfg, s, t) && s.threads[t].pc == Reap(k) && k < |cfg.catalog|
    requires CanRun(cfg, Poised(cfg, s, t), t, ch)
    ensures Code(cfg, Poised(cfg, s, t), t, ch)
         == if Slots.ExitedAt(s.mem, k) then (Take(k), Reaping(s.mem.slots[k].value.child, k + 1))
            else (Nothing, Reap(k + 1))
  {
    hide Invariant, RequestCode, ScanCode, AdmitCode, ServeCode, ClearCode;
  }

  lemma {:induction false} ReapingIs(cfg: Config, s: State, t: ThreadId, c: ChildId, k: EntryId, ch: Choice)
    requires Alone(cfg, s, t) && s.threads[t].pc == Reaping(c, k) && CanRun(cfg, Poised(cfg, s, t), t, ch)
    ensures Code(cfg, Poised(cfg, s, t), t, ch) == (Release(c), Reap(k))
  {
    hide Invariant, RequestCode, ScanCode, AdmitCode, ServeCode, ClearCode;
  }

  lemma {:induction false} CullIs(cfg: Config, s: State, t: ThreadId, now: nat, ids: seq<EntryId>, ch: Choice)
    requires Alone(cfg, s, t) && s.threads[t].pc == Cull(now, ids) && ids != [] && ids[0] < |cfg.catalog|
    requires CanRun(cfg, Poised(cfg, s, t), t, ch)
    ensures Code(cfg, Poised(cfg, s, t), t, ch)
         == if Slots.MayGo(s.mem, ids[0], Stale(cfg.window, now))
            then (Take(ids[0]), Culling(now, s.mem.slots[ids[0]].value.child, ids[1..]))
            else (Nothing, Cull(now, ids[1..]))
  {
    hide Invariant, RequestCode, ScanCode, AdmitCode, ServeCode, ClearCode, Stale;
  }

  lemma {:induction false} CullingIs(
    cfg: Config, s: State, t: ThreadId, now: nat, c: ChildId, ids: seq<EntryId>, ch: Choice)
    requires Alone(cfg, s, t) && s.threads[t].pc == Culling(now, c, ids) && CanRun(cfg, Poised(cfg, s, t), t, ch)
    ensures Code(cfg, Poised(cfg, s, t), t, ch) == (Release(c), Cull(now, ids))
  {
    hide Invariant, RequestCode, ScanCode, AdmitCode, ServeCode, ClearCode;
  }

  /** One slot of the exit sweep. */
  lemma {:induction false} ReapsOne(cfg: Config, s: State, t: ThreadId, k: EntryId, ch: Choice) returns (s': State)
    requires Alone(cfg, s, t) && s.threads[t].pc == Reap(k) && k < |cfg.catalog|
    ensures Leads(cfg, s, t, s') && Alone(cfg, s', t) && OnlyMoved(s, t, s', Reap(k + 1))
    ensures Gone(s.mem, s'.mem, if Slots.ExitedAt(s.mem, k) then {k} else {}) && s'.mem.now == s.mem.now
  {
    hide Leads, Invariant, Affect, Code, Poised, Gone, CanRun, PcOk, HoldsAdmission, Alone;
    assert t in s.threads && k < |s.mem.slots| && Invariant(cfg, s) by { AloneIs(cfg, s, t); }
    assert forall m :: Gone(s.mem, m, if Slots.ExitedAt(s.mem, k) then {k} else {}) ==> m.now == s.mem.now by {
      GoneKeepsTime(s.mem);
    }
    PoisedRuns(cfg, s, t, ch);
    ReapIs(cfg, s, t, k, ch);
    if Slots.ExitedAt(s.mem, k) {
      var c := s.mem.slots[k].value.child;
      OneGone(cfg, s, k);
      var a := TakesAStep(cfg, s, t, ch, Take(k), Reaping(c, k + 1));
      PoisedRuns(cfg, a, t, ch);
      ReapingIs(cfg, a, t, c, k + 1, ch);
      s' := TakesAStep(cfg, a, t, ch, Release(c), Reap(k + 1));
      LeadsOn(cfg, s, t, a, s');
    } else {
      NothingHappens(s.mem);
      NoneGone(s.mem);
      s' := TakesAStep(cfg, s, t, ch, Nothing, Reap(k + 1));
    }
  }

  lemma {:induction false} Reaps(cfg: Config, s: State, t: ThreadId, k: EntryId, ch: Choice) returns (s': State)
    requires Alone(cfg, s, t) && s.threads[t].pc == Reap(k) && k <= |cfg.catalog|
    ensures Leads(cfg, s, t, s') && Alone(cfg, s', t) && OnlyMoved(s, t, s', Survey(s.mem.now, []))
    ensures Gone(s.mem, s'.mem, TheDead(s.mem, k))
    decreases |cfg.catalog| - k
  {
    hide Leads, Invariant, Affect, RequestCode, ScanCode, AdmitCode, ServeCode, ClearCode, Gone, Slots.ExitedAt;
    if k == |cfg.catalog| {
      PoisedRuns(cfg, s, t, ch);
      NothingHappens(s.mem);
      NoneGone(s.mem);
      s' := TakesAStep(cfg, s, t, ch, Nothing, Survey(s.mem.now, []));
      assert TheDead(s.mem, k) == {};
    } else {
      var a := ReapsOne(cfg, s, t, k, ch);
      s' := Reaps(cfg, a, t, k + 1, ch);
      LeadsOn(cfg, s, t, a, s');
      var first: set<EntryId> := if Slots.ExitedAt(s.mem, k) then {k} else {};
      GoneBoth(s.mem, a.mem, s'.mem, first, TheDead(a.mem, k + 1));
      DeadFurtherOn(s.mem, a.mem, k);
    }
  }

  /** The idle sweep's snapshot is of the slots as they are. */
  lemma {:induction false} Surveys(cfg: Config, s: State, t: ThreadId, now: nat, n: nat, ch: Choice)
    returns (s': State)
    requires Alone(cfg, s, t) && n <= |cfg.catalog|
    requires s.threads[t].pc == Survey(now, Slots.RowsNow(cfg.catalog, s.mem)[..n])
    ensures Leads(cfg, s, t, s') && Alone(cfg, s', t) && s'.mem == s.mem
    ensures OnlyMoved(s, t, s', Cull(now, Expired(cfg.window, Compact(Slots.RowsNow(cfg.catalog, s.mem)), now)))
    decreases |cfg.catalog| - n
  {
    hide Leads, Invariant, RequestCode, ScanCode, AdmitCode, ServeCode, ClearCode, Expired;
    var rows := Slots.RowsNow(cfg.catalog, s.mem);
    PoisedRuns(cfg, s, t, ch);
    if n == |cfg.catalog| {
      assert rows[..n] == rows;
      s' := TakesAStep(cfg, s, t, ch, Nothing, Cull(now, Expired(cfg.window, Compact(rows), now)));
    } else {
      assert rows[..n + 1] == rows[..n] + [rows[n]];
      var a := TakesAStep(cfg, s, t, ch, Nothing, Survey(now, rows[..n + 1]));
      s' := Surveys(cfg, a, t, now, n + 1, ch);
      LeadsOn(cfg, s, t, a, s');
    }
  }

  /** One slot of the idle sweep. */
  lemma {:induction false} CullsOne(cfg: Config, s: State, t: ThreadId, now: nat, ids: seq<EntryId>, ch: Choice)
    returns (s': State)
    requires Alone(cfg, s, t) && s.threads[t].pc == Cull(now, ids) && ids != [] && ids[0] < |cfg.catalog|
    ensures Leads(cfg, s, t, s') && Alone(cfg, s', t) && OnlyMoved(s, t, s', Cull(now, ids[1..]))
    ensures Gone(s.mem, s'.mem, if Slots.MayGo(s.mem, ids[0], Stale(cfg.window, now)) then {ids[0]} else {})
  {
    hide Leads, Invariant, Affect, Code, Poised, Gone, Stale, CanRun, PcOk, HoldsAdmission, Alone;
    assert t in s.threads && ids[0] < |s.mem.slots| && Invariant(cfg, s) by { AloneIs(cfg, s, t); }
    PoisedRuns(cfg, s, t, ch);
    CullIs(cfg, s, t, now, ids, ch);
    var i := ids[0];
    if Slots.MayGo(s.mem, i, Stale(cfg.window, now)) {
      var c := s.mem.slots[i].value.child;
      OneGone(cfg, s, i);
      var a := TakesAStep(cfg, s, t, ch, Take(i), Culling(now, c, ids[1..]));
      PoisedRuns(cfg, a, t, ch);
      CullingIs(cfg, a, t, now, c, ids[1..], ch);
      s' := TakesAStep(cfg, a, t, ch, Release(c), Cull(now, ids[1..]));
      LeadsOn(cfg, s, t, a, s');
    } else {
      NothingHappens(s.mem);
      NoneGone(s.mem);
      s' := TakesAStep(cfg, s, t, ch, Nothing, Cull(now, ids[1..]));
    }
  }

  lemma {:induction false} Culls(cfg: Config, s: State, t: ThreadId, now: nat, ids: seq<EntryId>, ch: Choice)
    returns (s': State)
    requires Alone(cfg, s, t) && s.threads[t].pc == Cull(now, ids) && forall id :: id in ids ==> id < |cfg.catalog|
    ensures Leads(cfg, s, t, s') && Alone(cfg, s', t) && OnlyMoved(s, t, s', Rest)
    ensures Gone(s.mem, s'.mem, TheStale(s.mem, ids, Stale(cfg.window, now)))
    decreases |ids|
  {
    hide Leads, Invariant, Affect, RequestCode, ScanCode, AdmitCode, ServeCode, ClearCode, Stale, Gone, Slots.MayGo;
    if ids == [] {
      PoisedRuns(cfg, s, t, ch);
      NothingHappens(s.mem);
      NoneGone(s.mem);
      s' := TakesAStep(cfg, s, t, ch, Nothing, Rest);
      assert TheStale(s.mem, ids, Stale(cfg.window, now)) == {};
    } else {
      assert ids[0] in ids && forall id :: id in ids <==> id == ids[0] || id in ids[1..];
      var a := CullsOne(cfg, s, t, now, ids, ch);
      s' := Culls(cfg, a, t, now, ids[1..], ch);
      LeadsOn(cfg, s, t, a, s');
      var also := Stale(cfg.window, now);
      var first: set<EntryId> := if Slots.MayGo(s.mem, ids[0], also) then {ids[0]} else {};
      GoneBoth(s.mem, a.mem, s'.mem, first, TheStale(a.mem, ids[1..], also));
      StaleFurtherOn(s.mem, a.mem, ids, also);
    }
  }

  /**
   A whole tick left alone, from any state the system can be in: a child nobody
   reads from goes if it is dead, or on demand and unused for the window, and
   every other child stays where it is, with as many handles as it had.
   */
  lemma {:induction false} ATickAlone(cfg: Config, s: State, t: ThreadId, ch: Choice) returns (s': State)
    requires Alone(cfg, s, t) && s.threads[t].pc == Reap(0)
    ensures Leads(cfg, s, t, s') && Alone(cfg, s', t) && OnlyMoved(s, t, s', Rest)
    ensures s'.mem.now == s.mem.now && Slots.KeepsTheRest(s.mem, s'.mem)
    ensures forall i: EntryId :: i < |cfg.catalog| ==>
              s'.mem.slots[i] == if Slots.ExitedAt(s.mem, i) || Slots.StaleAt(cfg.catalog, s.mem, i, cfg.window)
                                 then None else s.mem.slots[i]
  {
    hide Leads, Invariant, Expired, Idle.Elapsed;
    var a := Reaps(cfg, s, t, 0, ch);
    var rows := Slots.RowsNow(cfg.catalog, a.mem);
    assert rows[..0] == [];
    var b := Surveys(cfg, a, t, s.mem.now, 0, ch);
    LeadsOn(cfg, s, t, a, b);
    var ids := Expired(cfg.window, Compact(rows), s.mem.now);
    forall id: EntryId ensures id in ids <==> id < |cfg.catalog| && Slots.StaleAt(cfg.catalog, a.mem, id, cfg.window) {
      Slots.ExpiredIsStale(cfg.catalog, a.mem, rows, cfg.window, id);
    }
    s' := Culls(cfg, b, t, s.mem.now, ids, ch);
    LeadsOn(cfg, s, t, b, s');
  }
}

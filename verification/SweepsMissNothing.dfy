/**
 What a sweep is sure to take while other threads run: no child that is dead, or
 stale, and stays unread in its slot from the sweep's beginning survives to its
 end.  `ProtocolTheorems.EmptyingHasAReason` says what a sweep may take; with
 that and the reaper's deadlines this bounds the hold time in every run.
 */
module SweepsMissNothing {
  import opened Wrappers
  import opened Admission
  import opened Idle
  import opened SlotTable
  import opened Protocol
  import opened ProtocolInvariant
  import opened ProtocolBudget
  import HoldTime
  import Reaper

  /** The two sweeps of a tick; the idle sweep goes by the time at which it looked at the clock. */
  datatype Sweep = ExitSweep | IdleSweep(since: nat)

  function First(sweep: Sweep): Pc {
    match sweep
    case ExitSweep => Reap(0)
    case IdleSweep(since) => Survey(since, [])
  }

  predicate Sweeping(sweep: Sweep, pc: Pc) {
    match sweep
    case ExitSweep => pc.Reap? || pc.Reaping?
    case IdleSweep(since) => (pc.Survey? || pc.Cull? || pc.Culling?) && pc.now == since
  }

  /** The slot holds this child, as used then, and nobody reads from it. */
  ghost predicate Quiet(s: State, i: EntryId, held: Held) {
    i < |s.mem.slots| && s.mem.slots[i] == Some(held) && !s.mem.Busy(i)
  }

  /** The child is quiet, and what the sweep looks for: dead, or on demand and unused for the window. */
  ghost predicate Due(cfg: Config, s: State, sweep: Sweep, i: EntryId, held: Held) {
    && i < |cfg.catalog| && Quiet(s, i, held)
    && match sweep
       case ExitSweep => held.child in s.mem.dead
       case IdleSweep(since) =>
         && cfg.catalog[i].residency.OnDemand? && cfg.window.Some?
         && held.lastUsed <= since && held.lastUsed + cfg.window.value <= since
  }

  /** Slot `i` is still ahead of the sweep, or among those it is going to take. */
  ghost predicate WillTake(cfg: Config, sweep: Sweep, pc: Pc, i: EntryId, held: Held)
    requires i < |cfg.catalog|
  {
    && Sweeping(sweep, pc)
    && match pc
       case Reap(k) => k <= i
       case Reaping(_, k) => k <= i
       case Survey(_, rows) => i < |rows| ==> rows[i] == Some(LoadedOf(i, cfg.catalog[i], false, held))
       case Cull(_, ids) => i in ids
       case Culling(_, _, ids) => i in ids
       case _ => false
  }

  /** What the thread knows of slot `i`, once it has its lock and has looked, is that it is idle. */
  ghost predicate SawIdle(th: Thread, i: EntryId) { th.lock == Some(i) && th.idle.Some? ==> th.idle == Some(true) }

  ghost predicate OnItsWay(cfg: Config, sweep: Sweep, th: Thread, i: EntryId, held: Held) {
    i < |cfg.catalog| && WillTake(cfg, sweep, th.pc, i, held) && SawIdle(th, i)
  }

  lemma {:induction false} TheSnapshotNamesIt(
    cfg: Config, s: State, rows: seq<Option<Loaded>>, since: nat, i: EntryId, held: Held)
    requires RowsOf(cfg.catalog, rows) && i < |rows| && Due(cfg, s, IdleSweep(since), i, held)
    requires rows[i] == Some(LoadedOf(i, cfg.catalog[i], false, held))
    ensures i in Expired(cfg.window, Compact(rows), since)
  {
    var e := rows[i].value;
    CompactMembers(cfg.catalog, rows);
    assert e in Compact(rows) && Expires(e, since, cfg.window.value);
    ExpiredNamesTheStale(cfg.window.value, Compact(rows), since, i);
  }

  lemma {:induction false} SurveyingOn(
    cfg: Config, s: State, t: ThreadId, ch: Choice, sweep: Sweep, i: EntryId, held: Held)
    requires Shape(cfg, s) && CanRun(cfg, s, t, ch) && Due(cfg, s, sweep, i, held) && s.threads[t].pc.Survey?
    requires OnItsWay(cfg, sweep, s.threads[t], i, held)
    ensures WillTake(cfg, sweep, ReapCode(cfg, s, s.threads[t]).1, i, held)
  {
    hide OnDemandIds, Expired;
    var pc := s.threads[t].pc;
    assert PcOk(cfg, pc);
    if |pc.rows| == |cfg.catalog| { TheSnapshotNamesIt(cfg, s, pc.rows, pc.now, i, held); }
  }

  /** The sweeping thread's own step keeps on, or takes the child. */
  lemma {:induction false} SweepingOn(
    cfg: Config, s: State, t: ThreadId, ch: Choice, sweep: Sweep, i: EntryId, held: Held)
    requires Shape(cfg, s) && CanRun(cfg, s, t, ch) && Due(cfg, s, sweep, i, held)
    requires OnItsWay(cfg, sweep, s.threads[t], i, held)
    ensures var (fx, pc) := ReapCode(cfg, s, s.threads[t]); fx == Take(i) || WillTake(cfg, sweep, pc, i, held)
  {
    var pc := s.threads[t].pc;
    if pc.Survey? {
      SurveyingOn(cfg, s, t, ch, sweep, i, held);
    } else {
      hide PcOk, Expired, Compact;
      assert pc.Cull? ==> pc.ids == [pc.ids[0]] + pc.ids[1..];
    }
  }

  lemma {:induction false} OwnStepKeepsOn(
    cfg: Config, s: State, t: ThreadId, ch: Choice, sweep: Sweep, i: EntryId, held: Held)
    requires Shape(cfg, s) && CanRun(cfg, s, t, ch)
    requires Due(cfg, s, sweep, i, held) && Quiet(Act(cfg, s, t, ch), i, held)
    requires OnItsWay(cfg, sweep, s.threads[t], i, held)
    ensures var s' := Act(cfg, s, t, ch); t in s'.threads && OnItsWay(cfg, sweep, s'.threads[t], i, held)
  {
    hide RequestCode, ScanCode, AdmitCode, ServeCode, ReapCode, ClearCode, Due, PcOk;
    SweepingOn(cfg, s, t, ch, sweep, i, held);
    assert InReaper(s.threads[t].pc);
    assert Code(cfg, s, t, ch) == ReapCode(cfg, s, s.threads[t]);
  }

  /** Steps of others leave the thread as it is; looking, it sees that the child is idle. */
  lemma {:induction false} OtherStepsKeepOn(
    cfg: Config, s: State, ev: Event, t: ThreadId, sweep: Sweep, i: EntryId, held: Held)
    requires Locked(cfg, s) && Enabled(cfg, s, ev) && t in s.threads && Quiet(s, i, held)
    requires !(ev.Run? && ev.t == t)
    requires OnItsWay(cfg, sweep, s.threads[t], i, held)
    ensures var s' := Apply(cfg, s, ev); t in s'.threads && OnItsWay(cfg, sweep, s'.threads[t], i, held)
  {
    hide Code, Affect;
    if ev.Lock? && ev.t == t { assert s.threads[t].idle.None?; }
  }

  lemma {:induction false} AnyStepKeepsOn(
    cfg: Config, s: State, ev: Event, t: ThreadId, sweep: Sweep, i: EntryId, held: Held)
    requires Invariant(cfg, s) && Enabled(cfg, s, ev) && t in s.threads
    requires Due(cfg, s, sweep, i, held) && Due(cfg, Apply(cfg, s, ev), sweep, i, held)
    requires OnItsWay(cfg, sweep, s.threads[t], i, held)
    ensures var s' := Apply(cfg, s, ev); t in s'.threads && OnItsWay(cfg, sweep, s'.threads[t], i, held)
  {
    hide OnItsWay, Shape, Locked, Act, CanRun, Homes, Counted, Unslotted, Fresh, Safe, Seen, Vacant;
    hide Budgeted, Timed, EndsAreKnown, Quiet;
    if ev.Run? && ev.t == t {
      OwnStepKeepsOn(cfg, s, t, ev.ch, sweep, i, held);
    } else {
      OtherStepsKeepOn(cfg, s, ev, t, sweep, i, held);
    }
  }

  /** For as long as the child is due, a sweep that began since is not over. */
  lemma {:induction false} TheSweepGoesOn(
    cfg: Config, run: seq<State>, a: nat, b: nat, t: ThreadId, sweep: Sweep, i: EntryId, held: Held)
    requires IsRun(cfg, run) && a <= b < |run| && t in run[a].threads
    requires run[a].threads[t] == Thread(First(sweep), None, None)
    requires forall m :: a <= m <= b ==> Due(cfg, run[m], sweep, i, held)
    ensures t in run[b].threads && OnItsWay(cfg, sweep, run[b].threads[t], i, held)
    decreases b
  {
    hide Invariant, Apply, Enabled, Quiet;
    if a < b {
      TheSweepGoesOn(cfg, run, a, b - 1, t, sweep, i, held);
      RunsKeepTheInvariant(cfg, run, b - 1);
      assert Next(cfg, run[b - 1], run[b]);
      var ev :| Enabled(cfg, run[b - 1], ev) && run[b] == Apply(cfg, run[b - 1], ev);
      AnyStepKeepsOn(cfg, run[b - 1], ev, t, sweep, i, held);
    } else {
      assert Due(cfg, run[a], sweep, i, held);
    }
  }

  /**
   In every run: a child that was due when a sweep began, once that sweep is
   over, has been taken, used or read from at some moment since.
   */
  lemma {:induction false} NoDueChildSurvivesItsSweep(
    cfg: Config, run: seq<State>, a: nat, b: nat, t: ThreadId, sweep: Sweep, i: EntryId, held: Held) returns (m: nat)
    requires IsRun(cfg, run) && a <= b < |run| && t in run[a].threads && t in run[b].threads
    requires run[a].threads[t] == Thread(First(sweep), None, None) && !Sweeping(sweep, run[b].threads[t].pc)
    ensures a <= m <= b && !Due(cfg, run[m], sweep, i, held)
  {
    hide IsRun, Due;
    if forall m :: a <= m <= b ==> Due(cfg, run[m], sweep, i, held) {
      TheSweepGoesOn(cfg, run, a, b, t, sweep, i, held);
      assert false;
    }
    m :| a <= m <= b && !Due(cfg, run[m], sweep, i, held);
  }

  // -------------------------------------------------------------------------- the hold time

  /** The reaper thread's idle sweeps in this run, each begun and over within its tick. */
  ghost predicate OnSchedule(
    cfg: Config, run: seq<State>, t: ThreadId,
    ticks: seq<Reaper.Tick>, looks: seq<nat>, begins: seq<nat>, ends: seq<nat>)
  {
    && |looks| == |begins| == |ends| == |ticks| && Reaper.LooksDuring(ticks, looks)
    && forall k :: 0 <= k < |ticks| ==>
         && begins[k] <= ends[k] < |run| && t in run[begins[k]].threads && t in run[ends[k]].threads
         && run[begins[k]].threads[t] == Thread(Survey(looks[k], []), None, None)
         && run[ends[k]].threads[t].pc.Rest? && run[ends[k]].mem.now <= ticks[k].end
  }

  lemma {:induction false} TheClockMovesOn(cfg: Config, run: seq<State>, m: nat, n: nat)
    requires IsRun(cfg, run) && m <= n < |run|
    ensures run[m].mem.now <= run[n].mem.now
    decreases n
  {
    hide Apply, Enabled;
    if m < n {
      TheClockMovesOn(cfg, run, m, n - 1);
      assert Next(cfg, run[n - 1], run[n]);
      var ev :| Enabled(cfg, run[n - 1], ev) && run[n] == Apply(cfg, run[n - 1], ev);
      NoStepTurnsTheClockBack(cfg, run[n - 1], ev);
    }
  }

  lemma {:induction false} NoStepTurnsTheClockBack(cfg: Config, s: State, ev: Event)
    requires Enabled(cfg, s, ev)
    ensures s.mem.now <= Apply(cfg, s, ev).mem.now
  {
    hide Code;
  }

  /**
   The hold time in every run, whatever the other threads do: some sweep that
   looked after the window of an on-demand child had passed does not leave it
   unused and unread in its slot from its beginning to its end, and is over a
   window after the last use, plus one gap between sweeps and one sweep.
   */
  lemma {:induction false} NobodyIsHeldLonger(
    cfg: Config, run: seq<State>, t: ThreadId, began: nat, took: seq<nat>, looks: seq<nat>,
    begins: seq<nat>, ends: seq<nat>, i: EntryId, held: Held) returns (k: nat, m: nat)
    requires IsRun(cfg, run) && cfg.window.Some? && cfg.window.value > 0 && took != []
    requires OnSchedule(cfg, run, t, Reaper.Ticks(Reaper.Interval(cfg.window.value), began, took), looks, begins, ends)
    requires i < |cfg.catalog| && cfg.catalog[i].residency.OnDemand?
    requires began <= held.lastUsed + cfg.window.value <= began + |took| * Reaper.Interval(cfg.window.value)
    ensures k < |took| && held.lastUsed + cfg.window.value <= looks[k]
    ensures begins[k] <= m <= ends[k] < |run| && !Quiet(run[m], i, held)
    ensures run[m].mem.now <= held.lastUsed + cfg.window.value + Reaper.Gap(cfg.window.value, took, k) + took[k]
  {
    hide IsRun;
    var window := cfg.window.value;
    k := HoldTime.SomeTickIsInTime(window, began, took, looks, cfg.catalog[i], held);
    m := NoDueChildSurvivesItsSweep(cfg, run, begins[k], ends[k], t, IdleSweep(looks[k]), i, held);
    TheClockMovesOn(cfg, run, m, ends[k]);
  }

  /** And so by one and a half windows and one sweep, when no sweep but the last outlasts half the window and 1 ns. */
  lemma {:induction false} NobodyIsHeldPastAWindowAndAHalf(
    cfg: Config, run: seq<State>, t: ThreadId, began: nat, took: seq<nat>, looks: seq<nat>,
    begins: seq<nat>, ends: seq<nat>, i: EntryId, held: Held) returns (k: nat, m: nat)
    requires IsRun(cfg, run) && cfg.window.Some? && took != []
    requires Reaper.NeitherHurriedNorHeldUp(cfg.window.value, took)
    requires OnSchedule(cfg, run, t, Reaper.Ticks(Reaper.Interval(cfg.window.value), began, took), looks, begins, ends)
    requires i < |cfg.catalog| && cfg.catalog[i].residency.OnDemand?
    requires began <= held.lastUsed + cfg.window.value <= began + |took| * Reaper.Interval(cfg.window.value)
    ensures k < |took| && held.lastUsed + cfg.window.value <= looks[k]
    ensures begins[k] <= m <= ends[k] < |run| && !Quiet(run[m], i, held)
    ensures run[m].mem.now <= held.lastUsed + cfg.window.value + cfg.window.value / 2 + took[k]
  {
    hide IsRun, OnSchedule, Quiet;
    k, m := NobodyIsHeldLonger(cfg, run, t, began, took, looks, begins, ends, i, held);
  }
}

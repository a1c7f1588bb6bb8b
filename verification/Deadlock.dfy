/** The lock order: nobody waits for ever on a lock. */
module Deadlock {
  import opened Wrappers
  import opened SlotTable
  import opened Protocol
  import opened ProtocolInvariant
  import opened ProtocolBudget

  /** Thread `t` cannot go on before thread `u` lets go of a lock. */
  ghost predicate WaitsFor(cfg: Config, s: State, t: ThreadId, u: ThreadId) {
    && t in s.threads && u in s.threads
    && var need := Needs(cfg, s.threads[t].pc);
       || (s.threads[t].pc.Queue? && s.admission == Some(u))
       || (need.Some? && s.threads[t].lock.None? && need.value < |s.locks| && s.locks[need.value] == Some(u))
  }

  /** How far a thread is from holding a slot lock. */
  function Rank(s: State, t: ThreadId): nat
    requires t in s.threads
  {
    if s.threads[t].lock.Some? then 0 else if HoldsAdmission(s.threads[t].pc) then 1 else 2
  }

  /** Waiting always goes down the one lock order: admission before slots, and one slot at a time. */
  lemma {:induction false} WaitingDescends(cfg: Config, s: State, t: ThreadId, u: ThreadId)
    requires Locked(cfg, s) && OneAdmission(s) && WaitsFor(cfg, s, t, u)
    ensures Rank(s, u) < Rank(s, t)
  {}

  ghost predicate WaitChain(cfg: Config, s: State, path: seq<ThreadId>) {
    && path != [] && (forall i :: 0 <= i < |path| ==> path[i] in s.threads)
    && forall i :: 0 < i < |path| ==> WaitsFor(cfg, s, path[i - 1], path[i])
  }

  lemma {:induction false} ChainsDescend(cfg: Config, s: State, path: seq<ThreadId>, k: nat)
    requires Locked(cfg, s) && OneAdmission(s) && WaitChain(cfg, s, path) && k < |path|
    ensures Rank(s, path[k]) + k <= Rank(s, path[0])
  {
    if k > 0 {
      ChainsDescend(cfg, s, path, k - 1);
      assert WaitsFor(cfg, s, path[k - 1], path[k]);
      WaitingDescends(cfg, s, path[k - 1], path[k]);
    }
  }

  /**
   The wait-for graph of any number of threads has no cycle: a chain of waits
   meets no thread twice, and holds three threads at most.
   */
  lemma {:induction false} NoCycleOfWaits(cfg: Config, run: seq<State>, n: nat, path: seq<ThreadId>)
    requires IsRun(cfg, run) && n < |run| && WaitChain(cfg, run[n], path)
    ensures |path| <= 3
    ensures forall i, j :: 0 <= i < j < |path| ==> path[i] != path[j]
  {
    RunsKeepTheInvariant(cfg, run, n);
    var s := run[n];
    ChainsDescend(cfg, s, path, |path| - 1);
    forall i, j | 0 <= i < j < |path| ensures path[i] != path[j] {
      var tail := path[i..];
      forall k | 0 < k < |tail| ensures WaitsFor(cfg, s, tail[k - 1], tail[k]) {
        assert WaitsFor(cfg, s, path[i + k - 1], path[i + k]);
      }
      ChainsDescend(cfg, s, tail, j - i);
    }
  }

  ghost predicate Waits(cfg: Config, s: State, t: ThreadId) {
    exists u :: WaitsFor(cfg, s, t, u)
  }

  /** After some time, at most, the thread has a step to take. */
  ghost predicate CanProceed(cfg: Config, s: State, t: ThreadId) {
    exists d: nat, ev: Event ::
      && (ev == Lock(t) || ev == Look(t) || (ev.Run? && ev.t == t))
      && Enabled(cfg, Apply(cfg, s, Tick(d)), ev)
  }

  /** A thread that does not wait for a lock can take its lock, read its count, or act. */
  lemma {:induction false} UnlessWaitingItProceeds(cfg: Config, s: State, t: ThreadId)
    requires Invariant(cfg, s) && t in s.threads && !s.threads[t].pc.Rest? && !Waits(cfg, s, t)
    ensures CanProceed(cfg, s, t)
  {
    hide Act, Homes, Counted, Unslotted, Fresh, Safe, Seen, Vacant, Budgeted, Timed, EndsAreKnown;
    var th := s.threads[t];
    assert PcOk(cfg, th.pc);
    var need := Needs(cfg, th.pc);
    var d := if th.pc.Sleep? then th.pc.until else 0;
    var s' := Apply(cfg, s, Tick(d));
    if need.Some? && th.lock.None? {
      NeedsAreInRange(cfg, th.pc);
      assert s.locks[need.value].Some? ==> WaitsFor(cfg, s, t, s.locks[need.value].value);
      assert Enabled(cfg, s', Lock(t));
    } else if need.Some? && AsksIdle(th.pc) && th.idle.None? && s.mem.slots[need.value].Some? {
      assert Enabled(cfg, s', Look(t));
    } else {
      assert th.pc.Queue? && s.admission.Some? ==> WaitsFor(cfg, s, t, s.admission.value);
      var c :| th.pc.Wiping? && th.pc.taken != {} ==> c in th.pc.taken;
      var ch := Choice(false, c, Measurement(None, None), None);
      assert Enabled(cfg, s', Run(t, ch));
    }
  }

  lemma {:induction false} NeedsAreInRange(cfg: Config, pc: Pc)
    requires PcOk(cfg, pc) && Needs(cfg, pc).Some?
    ensures Needs(cfg, pc).value < |cfg.catalog|
  {
    if (pc.Evict? || pc.Cull? || pc.Wipe?) && pc.ids != [] { assert pc.ids[0] in pc.ids; }
  }

  /**
   Nothing the router does can get stuck: every thread that is not at rest can
   proceed, or waits for one that can, or for one that waits for one that can.
   */
  lemma {:induction false} SomebodyCanAlwaysProceed(cfg: Config, run: seq<State>, n: nat, t: ThreadId)
    requires IsRun(cfg, run) && n < |run| && t in run[n].threads && !run[n].threads[t].pc.Rest?
    ensures var s := run[n];
            || CanProceed(cfg, s, t)
            || (exists u :: WaitsFor(cfg, s, t, u) && CanProceed(cfg, s, u))
            || (exists u, v :: WaitsFor(cfg, s, t, u) && WaitsFor(cfg, s, u, v) && CanProceed(cfg, s, v))
  {
    RunsKeepTheInvariant(cfg, run, n);
    var s := run[n];
    if !Waits(cfg, s, t) {
      UnlessWaitingItProceeds(cfg, s, t);
    } else {
      var u :| WaitsFor(cfg, s, t, u);
      WaitingDescends(cfg, s, t, u);
      HoldersAreNotAtRest(cfg, s, t, u);
      if !Waits(cfg, s, u) {
        UnlessWaitingItProceeds(cfg, s, u);
      } else {
        var v :| WaitsFor(cfg, s, u, v);
        WaitingDescends(cfg, s, u, v);
        HoldersAreNotAtRest(cfg, s, u, v);
        if w :| WaitsFor(cfg, s, v, w) { WaitingDescends(cfg, s, v, w); }
        UnlessWaitingItProceeds(cfg, s, v);
      }
    }
  }

  lemma {:induction false} HoldersAreNotAtRest(cfg: Config, s: State, t: ThreadId, u: ThreadId)
    requires Locked(cfg, s) && OneAdmission(s) && WaitsFor(cfg, s, t, u)
    ensures !s.threads[u].pc.Rest?
  {}

  /** No lock is held while a response is relayed, and admission is sought with no slot lock held. */
  lemma {:induction false} RelaysHoldNoLock(cfg: Config, run: seq<State>, n: nat, t: ThreadId)
    requires IsRun(cfg, run) && n < |run| && t in run[n].threads
    ensures var th := run[n].threads[t];
            && (th.pc.Relay? || th.pc.Queue? ==> th.lock.None? && run[n].admission != Some(t))
            && (forall i :: 0 <= i < |run[n].locks| && run[n].locks[i] == Some(t) ==> th.lock == Some(i))
  {
    RunsKeepTheInvariant(cfg, run, n);
  }
}

/**
 Exactly when a reader loses its child.  `ProtocolTheorems.ReadersKeepTheirChild`
 is one half: while `clear` has taken no busy slot, every reader's child is in
 its entry's slot.  Here is the other: taking one leaves a reader without its
 child at that very step, so the busy signal `clear` does not ask for is the
 whole condition.
 */
module ReadersAndClear {
  import opened Wrappers
  import opened Admission
  import opened Protocol
  import opened ProtocolInvariant
  import opened ProtocolBudget
  import opened ProtocolTheorems

  /** Somebody reads from a child that is not in its entry's slot. */
  ghost predicate SomeReaderIsCutOff(s: State) {
    exists t, e, c :: t in s.threads && Reads(s.threads[t].pc, e, c) && !InSlot(s, c)
  }

  /** The step of `clear` that takes slot `i`. */
  ghost predicate Wipes(cfg: Config, s: State, ev: Event, i: EntryId) {
    && ev.Run? && Enabled(cfg, s, ev) && s.threads[ev.t].pc.Wipe?
    && s.threads[ev.t].pc.ids != [] && s.threads[ev.t].pc.ids[0] == i
    && i < |s.mem.slots| && s.mem.slots[i].Some?
  }

  lemma {:induction false} WipingIs(cfg: Config, s: State, ev: Event, i: EntryId)
    requires Wipes(cfg, s, ev, i)
    ensures ev.t in s.threads && !IsReader(s.threads[ev.t].pc)
    ensures var s' := Apply(cfg, s, ev);
            && s'.mem.slots == s.mem.slots[i := None] && s'.home == s.home
            && s'.threads.Keys == s.threads.Keys && !IsReader(s'.threads[ev.t].pc)
            && (forall u :: u in s.threads && u != ev.t ==> s'.threads[u] == s.threads[u])
            && s'.cut == (s.cut || s.mem.Busy(i))
  {}

  /**
   `clear` empties the slot it has reached, and leaves a reader of that entry
   behind exactly when the slot was busy: the test the other takers make first.
   */
  lemma {:induction false} ClearCutsExactlyTheBusy(cfg: Config, run: seq<State>, n: nat, ev: Event, i: EntryId)
    requires IsRun(cfg, run) && n < |run| && Wipes(cfg, run[n], ev, i)
    ensures var s, s' := run[n], Apply(cfg, run[n], ev);
            var c := s.mem.slots[i].value.child;
            && i < |s'.mem.slots| && s'.mem.slots[i].None? && !InSlot(s', c)
            && (Readers(s', i, c) != {} <==> s.mem.Busy(i))
            && (s'.cut <==> s.cut || Readers(s', i, c) != {})
  {
    hide Apply, Enabled, Invariant;
    RunsKeepTheInvariant(cfg, run, n);
    CountIsOnePlusReaders(cfg, run, n, i);
    WipingIs(cfg, run[n], ev, i);
    SlottedIsHome(cfg, run[n], i);
    var s, s' := run[n], Apply(cfg, run[n], ev);
    var c := s.mem.slots[i].value.child;
    assert Readers(s', i, c) == Readers(s, i, c);
  }

  lemma {:induction false} SlottedIsHome(cfg: Config, s: State, i: EntryId)
    requires Invariant(cfg, s) && i < |s.mem.slots| && s.mem.slots[i].Some?
    ensures var c := s.mem.slots[i].value.child; c in s.home && s.home[c] == i
  {}

  /** Nothing but such a step records a cut. */
  lemma {:induction false} OnlyClearCuts(cfg: Config, s: State, ev: Event)
    requires Enabled(cfg, s, ev)
    ensures s.cut ==> Apply(cfg, s, ev).cut
    ensures !s.cut && Apply(cfg, s, ev).cut ==> exists i: EntryId :: Wipes(cfg, s, ev, i) && s.mem.Busy(i)
  {
    if !s.cut && Apply(cfg, s, ev).cut {
      hide RequestCode, ScanCode, AdmitCode, ServeCode, ReapCode;
      assert ev.Run? && s.threads[ev.t].pc.Wipe?;
      var i := Code(cfg, s, ev.t, ev.ch).0.i;
      assert Wipes(cfg, s, ev, i) && s.mem.Busy(i);
    }
  }

  lemma {:induction false} CutLasts(cfg: Config, run: seq<State>, m: nat, n: nat)
    requires IsRun(cfg, run) && m <= n < |run| && run[m].cut
    ensures run[n].cut
    decreases n
  {
    if m < n {
      CutLasts(cfg, run, m, n - 1);
      assert Next(cfg, run[n - 1], run[n]);
      var ev :| Enabled(cfg, run[n - 1], ev) && run[n] == Apply(cfg, run[n - 1], ev);
      OnlyClearCuts(cfg, run[n - 1], ev);
    }
  }

  /** The step that first records a cut leaves somebody without a child. */
  lemma {:induction false} CuttingLeavesAReader(cfg: Config, run: seq<State>, n: nat, ev: Event)
    requires IsRun(cfg, run) && n < |run| && Enabled(cfg, run[n], ev)
    requires !run[n].cut && Apply(cfg, run[n], ev).cut
    ensures SomeReaderIsCutOff(Apply(cfg, run[n], ev))
  {
    hide Apply, Enabled, IsRun;
    var s, s' := run[n], Apply(cfg, run[n], ev);
    OnlyClearCuts(cfg, s, ev);
    var i: EntryId :| Wipes(cfg, s, ev, i) && s.mem.Busy(i);
    ClearCutsExactlyTheBusy(cfg, run, n, ev, i);
    var c := s.mem.slots[i].value.child;
    var t :| t in Readers(s', i, c);
    assert Reads(s'.threads[t].pc, i, c);
  }

  /** A cut has a first state, in which somebody has just lost a child. */
  lemma {:induction false} CutLeavesAReader(cfg: Config, run: seq<State>, n: nat) returns (m: nat)
    requires IsRun(cfg, run) && n < |run| && run[n].cut
    ensures m <= n && SomeReaderIsCutOff(run[m])
  {
    hide Apply, Enabled, SomeReaderIsCutOff;
    assert Next(cfg, run[n - 1], run[n]);
    if run[n - 1].cut {
      m := CutLeavesAReader(cfg, run, n - 1);
    } else {
      var ev :| Enabled(cfg, run[n - 1], ev) && run[n] == Apply(cfg, run[n - 1], ev);
      CuttingLeavesAReader(cfg, run, n - 1, ev);
      m := n;
    }
  }

  /**
   In every run: `clear` has taken a busy slot by now if and only if by now some
   reader has been without its child.
   */
  lemma {:induction false} ReadersLoseTheirChildOnlyToClear(cfg: Config, run: seq<State>, n: nat)
    requires IsRun(cfg, run) && n < |run|
    ensures run[n].cut <==> exists m :: 0 <= m <= n && SomeReaderIsCutOff(run[m])
  {
    if run[n].cut {
      var m := CutLeavesAReader(cfg, run, n);
    }
    if m :| 0 <= m <= n && SomeReaderIsCutOff(run[m]) {
      var t, e, c :| t in run[m].threads && Reads(run[m].threads[t].pc, e, c) && !InSlot(run[m], c);
      if !run[m].cut {
        RunsKeepTheInvariant(cfg, run, m);
        assert false;
      }
      CutLasts(cfg, run, m, n);
    }
  }
}

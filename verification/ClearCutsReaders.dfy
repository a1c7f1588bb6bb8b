/**
 Why the readers' theorem stops at `clear`: a run in which `Router::stop` takes
 a child from under the connection that is reading from it.
 */
module ClearCutsReaders {
  import opened Wrappers
  import opened Admission
  import opened SlotTable
  import opened Protocol

  const UNSEEN := Measurement(None, None)
  const ENTRY := Entry(1, OnDemand, map[])
  const CFG := Config([ENTRY], None, 0, None)
  const YES := Choice(true, 7, UNSEEN, None)

  function Of(slot: Slot, strong: map<ChildId, nat>, admission: Option<ThreadId>, lock: Option<ThreadId>,
              a: Thread, b: Thread, home: map<ChildId, EntryId>): State
  {
    State(Memory([slot], strong, {}, 0), admission, [lock], map[0 := a, 1 := b], home, false, map[])
  }

  function Free(pc: Pc): Thread { Thread(pc, None, None) }

  function Holding(pc: Pc): Thread { Thread(pc, Some(0), None) }

  const HELD := Held(7, 0, UNSEEN)

  /** A step on from a reachable state. */
  lemma {:induction false} OneMore(a: State, ev: Event, b: State)
    requires Reachable(CFG, a) && Enabled(CFG, a, ev) && b == Apply(CFG, a, ev)
    ensures Reachable(CFG, b)
  {
    var run :| IsRun(CFG, run) && run[|run| - 1] == a;
    assert Next(CFG, a, b);
    var longer := run + [b];
    forall i | 0 < i < |longer| ensures Next(CFG, longer[i - 1], longer[i]) {
      if i < |run| { assert Next(CFG, run[i - 1], run[i]); }
    }
    assert IsRun(CFG, longer);
  }

  // One connection loads and serves the entry, then another thread clears the slots.

  const EMPTY: map<ChildId, nat> := map[]
  const S0 := Of(None, EMPTY, None, None, Free(Rest), Free(Rest), EMPTY)
  const S1 := Of(None, EMPTY, None, None, Free(Fast(0)), Free(Rest), EMPTY)
  const S2 := Of(None, EMPTY, None, Some(0), Holding(Fast(0)), Free(Rest), EMPTY)
  const S3 := Of(None, EMPTY, None, None, Free(Queue(0)), Free(Rest), EMPTY)
  const S4 := Of(None, EMPTY, Some(0), None, Free(Again(0)), Free(Rest), EMPTY)
  const S5 := Of(None, EMPTY, Some(0), Some(0), Holding(Again(0)), Free(Rest), EMPTY)
  const S6 := Of(None, EMPTY, Some(0), None, Free(Check(0)), Free(Rest), EMPTY)
  const S7 := Of(None, EMPTY, Some(0), None, Free(Scan(0, 0, [])), Free(Rest), EMPTY)
  const S8 := Of(None, EMPTY, Some(0), Some(0), Holding(Scan(0, 0, [])), Free(Rest), EMPTY)
  const S9 := Of(None, EMPTY, Some(0), None, Free(Scan(0, 0, [None])), Free(Rest), EMPTY)
  const S10 := Of(None, EMPTY, Some(0), None, Free(Load(0)), Free(Rest), EMPTY)
  const S11 := Of(None, map[7 := 1], Some(0), None, Free(Place(0, HELD)), Free(Rest), map[7 := 0])
  const S12 := Of(None, map[7 := 1], Some(0), Some(0), Holding(Place(0, HELD)), Free(Rest), map[7 := 0])
  const S13 := Of(Some(HELD), map[7 := 2], None, None, Free(Serve(0, 7)), Free(Rest), map[7 := 0])
  const S14 := Of(Some(HELD), map[7 := 2], None, None, Free(Serve(0, 7)), Free(Wipe([0], {})), map[7 := 0])
  const S15 := Of(Some(HELD), map[7 := 2], None, Some(1), Free(Serve(0, 7)), Holding(Wipe([0], {})), map[7 := 0])
  const S16 := Of(None, map[7 := 2], None, None, Free(Serve(0, 7)), Free(Wipe([], {7})), map[7 := 0]).(cut := true)

  lemma {:induction false} Asks() ensures Reachable(CFG, S2)
  {
    hide RequestCode, ScanCode, AdmitCode, ServeCode, ReapCode, ClearCode;
    assert IsRun(CFG, [S0]);
    assert [S0][0] == S0;
    OneMore(S0, Begin(0, Fast(0)), S1);
    OneMore(S1, Lock(0), S2);
  }

  lemma {:induction false} Queues() ensures Reachable(CFG, S5)
  {
    hide ScanCode, AdmitCode, ServeCode, ReapCode, ClearCode;
    Asks();
    OneMore(S2, Run(0, YES), S3);
    OneMore(S3, Run(0, YES), S4);
    OneMore(S4, Lock(0), S5);
  }

  lemma {:induction false} Checks() ensures Reachable(CFG, S7)
  {
    hide ScanCode, AdmitCode, ServeCode, ReapCode, ClearCode;
    Queues();
    OneMore(S5, Run(0, YES), S6);
    OneMore(S6, Run(0, YES), S7);
  }

  lemma {:induction false} Surveys() ensures Reachable(CFG, S9)
  {
    hide RequestCode, AdmitCode, ServeCode, ReapCode, ClearCode;
    Checks();
    OneMore(S7, Lock(0), S8);
    var rows: seq<Option<Loaded>> := [];
    assert rows + [None] == [None];
    OneMore(S8, Run(0, YES), S9);
  }

  lemma {:induction false} Decides() ensures Reachable(CFG, S10)
  {
    hide RequestCode, AdmitCode, ServeCode, ReapCode, ClearCode;
    Surveys();
    var rows: seq<Option<Loaded>> := [None];
    assert rows[..0] == [] && Compact(rows) == [];
    OneMore(S9, Run(0, YES), S10);
  }

  lemma {:induction false} Starts() ensures Reachable(CFG, S12)
  {
    hide RequestCode, ScanCode, ServeCode, ReapCode, ClearCode;
    Decides();
    OneMore(S10, Run(0, YES), S11);
    OneMore(S11, Lock(0), S12);
  }

  lemma {:induction false} PlaceFills()
    ensures AdmitCode(CFG, S12, S12.threads[0], YES) == (Put(0, HELD), Serve(0, 7))
  {}

  lemma {:induction false} PlaceCommits()
    ensures Commit(S12, 0, Put(0, HELD), Serve(0, 7)) == S13
  {}

  lemma {:induction false} Serves() ensures Reachable(CFG, S13)
  {
    hide RequestCode, ScanCode, AdmitCode, ServeCode, ReapCode, ClearCode, Commit;
    Starts();
    PlaceFills();
    PlaceCommits();
    OneMore(S12, Run(0, YES), S13);
  }

  lemma {:induction false} Stops() ensures Reachable(CFG, S15)
  {
    hide RequestCode, ScanCode, AdmitCode, ServeCode, ReapCode, ClearCode;
    Serves();
    OneMore(S13, Begin(1, Wipe([0], {})), S14);
    OneMore(S14, Lock(1), S15);
  }

  lemma {:induction false} WipeTakes()
    ensures ClearCode(CFG, S15, S15.threads[1], YES) == (Take(0), Wipe([], {7}))
  {
    assert {} + {7} == {7};
    assert [0][1..] == [];
  }

  lemma {:induction false} WipeCuts()
    ensures Commit(S15, 1, Take(0), Wipe([], {7})) == S16
  {
    assert Affect(S15.mem, Take(0)).slots == [None];
    assert S15.mem.Busy(0);
  }

  lemma {:induction false} Wipes() ensures Reachable(CFG, S16)
  {
    hide RequestCode, ScanCode, AdmitCode, ServeCode, ReapCode, ClearCode, Commit;
    Stops();
    WipeTakes();
    WipeCuts();
    OneMore(S15, Run(1, YES), S16);
  }

  /** A reader can be left holding a child its slot has lost, but only after `clear` cut it off. */
  lemma {:induction false} ClearCanCutAReader()
    ensures Reachable(CFG, S16) && S16.cut
    ensures Reads(S16.threads[0].pc, 0, 7) && S16.mem.slots == [None]
  {
    Wipes();
  }
}

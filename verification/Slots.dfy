/**
 The object the router's threads call (src/proxy/slots/mod.rs, room.rs, view.rs,
 sweep.rs), each method against what it does to the memory as a whole.

 `Protocol` says what any interleaving keeps.  Here the methods have the
 source's own loops, and what the other threads do in between is an arbitrary
 function: anything that fills no slot and does not turn the clock back.  That
 is all others can do while a thread holds the admission lock
 (`ProtocolTheorems.OnlyInsertionsGrow`).
 */
module Slots {
  import opened Wrappers
  import opened Admission
  import opened AdmissionLaws
  import opened Idle
  import opened SlotTable
  import opened Protocol
  import opened ProtocolBudget

  /** What may happen while this thread holds the admission lock. */
  ghost predicate Rely(before: Memory, after: Memory) {
    Shrinks(before.slots, after.slots) && before.now <= after.now
  }

  /** The row of a slot read at this moment. */
  function RowNow(catalog: seq<Entry>, m: Memory, i: EntryId): Option<Loaded>
    requires i < |m.slots| == |catalog|
  {
    Row(catalog, m, i, m.slots[i].Some? && !m.Busy(i))
  }

  function RowsNow(catalog: seq<Entry>, m: Memory): seq<Option<Loaded>>
    requires |m.slots| == |catalog|
  {
    seq(|catalog|, i requires 0 <= i < |catalog| => RowNow(catalog, m, i))
  }

  /** Each row is its slot's at some moment of the reading. */
  ghost predicate ReadBetween(catalog: seq<Entry>, before: Memory, after: Memory, rows: seq<Option<Loaded>>) {
    forall i :: 0 <= i < |rows| ==> ReadAtSomeMoment(catalog, before, after, rows[i], i)
  }

  ghost predicate ReadAtSomeMoment(
    catalog: seq<Entry>, before: Memory, after: Memory, row: Option<Loaded>, i: EntryId)
  {
    exists m :: Rely(before, m) && Rely(m, after) && i < |m.slots| == |catalog| && row == RowNow(catalog, m, i)
  }

  /** An on-demand entry other than the wanted one was being read from when its row was read. */
  ghost predicate SomebodyReads(rows: seq<Option<Loaded>>, e: EntryId) {
    exists i :: 0 <= i < |rows| && i != e && rows[i].Some? && rows[i].value.residency == OnDemand && rows[i].value.busy
  }

  /** An on-demand entry that was idle when its row was read has gained a reader since. */
  ghost predicate Overtaken(rows: seq<Option<Loaded>>, m: Memory) {
    exists i: EntryId ::
      && i < |rows| && i < |m.slots| && m.slots[i].Some? && m.Busy(i)
      && rows[i].Some? && rows[i].value.residency == OnDemand && !rows[i].value.busy
  }

  /** How `make_room` ends: `launch::Failure::Refused` and `Contended` are its two errors. */
  datatype RoomResult = Granted | Refused(why: Reason) | Contended

  /** What one decision, acted on, came to. */
  datatype Passed = Enough | NotYet | Never(why: Reason)

  /** What asking for room must come to, of a snapshot and of what overtook it. */
  ghost predicate AnswersRightly(
    passed: Passed, able: bool, overBudget: bool, somebodyReads: bool, overtaken: bool)
  {
    match passed
    case Enough => able
    case Never(_) => !able && (overBudget || !somebodyReads)
    case NotYet => if able then overtaken else !overBudget && somebodyReads
  }

  datatype AdmitResult = Serving(child: ChildId) | NoModelFile | NoRoom(room: RoomResult) | NotStarted

  class Slots {
    const catalog: seq<Entry>
    const limit: Option<nat>
    const wait: nat
    /** What the other threads, the processes and the clock make of the memory before each step. */
    const others: (Memory, nat) -> Memory
    var mem: Memory
    var steps: nat

    ghost predicate Valid()
      reads this
    {
      && |mem.slots| == |catalog|
      && forall m: Memory, k: nat :: Rely(m, others(m, k))
    }

    ghost function Cfg(): Config { Config(catalog, limit, wait, None) }

    /** Nobody else does anything. */
    ghost predicate Undisturbed() { forall m: Memory, k: nat :: others(m, k) == m }

    /** Room for the entry can be made, going by these rows and this reading of the device. */
    ghost predicate Able(rows: seq<Option<Loaded>>, e: EntryId, free: Option<nat>)
      requires e < |catalog|
    {
      CanMakeRoom(limit, Compact(rows), WantedOf(e, catalog[e]), free)
    }

    ghost predicate OverBudget(e: EntryId)
      requires e < |catalog|
    {
      limit.Some? && catalog[e].estimateMib > limit.value
    }

    /** `Slots::new`: one slot per entry, all of them empty. */
    constructor (catalog: seq<Entry>, limit: Option<nat>, wait: nat, others: (Memory, nat) -> Memory, now: nat)
      requires forall m: Memory, k: nat :: Rely(m, others(m, k))
      ensures Valid() && this.catalog == catalog && this.limit == limit && this.wait == wait
      ensures mem == Memory(seq(|catalog|, _ => None), map[], {}, now)
    {
      this.catalog, this.limit, this.wait, this.others := catalog, limit, wait, others;
      mem := Memory(seq(|catalog|, _ => None), map[], {}, now);
      steps := 0;
    }

    /** The others move. */
    method Interfere()
      requires Valid()
      modifies this`mem, this`steps
      ensures Valid() && Rely(old(mem), mem) && steps == old(steps) + 1
      ensures Undisturbed() ==> mem == old(mem)
    {
      mem := others(mem, steps);
      steps := steps + 1;
    }

    // ---------------------------------------------------------------- one slot, under its lock

    /** `live_child`. */
    method LiveChild(i: EntryId) returns (child: Option<ChildId>)
      requires Valid() && i < |catalog|
      modifies this`mem
      ensures Valid() && Rely(old(mem), mem)
      ensures var idle := old(mem).slots[i].Some? && !old(mem).Busy(i);
              var (fx, found) := SlotTable.LiveChild(old(mem), i, idle);
              mem == Affect(old(mem), fx) && child == found
      ensures child == if Live(old(mem), i) then Some(old(mem).slots[i].value.child) else None
      ensures mem.slots == old(mem).slots[
                i := if child.Some? then Some(old(mem).slots[i].value.(lastUsed := old(mem).now)) else None]
      ensures forall c: ChildId :: mem.Count(c) == if child == Some(c) then old(mem).Count(c) + 1
                                          else if old(mem).slots[i].Some? && child.None?
                                                  && c == old(mem).slots[i].value.child then 0
                                          else old(mem).Count(c)
    {
      if mem.slots[i].None? {
        return None;
      }
      var held := mem.slots[i].value;
      if !mem.Busy(i) && held.child in mem.dead {
        mem := mem.(slots := mem.slots[i := None], strong := mem.strong[held.child := 0]);
        return None;
      }
      mem := mem.(slots := mem.slots[i := Some(held.(lastUsed := mem.now))]);
      mem := mem.(strong := mem.strong[held.child := mem.Count(held.child) + 1]);
      child := Some(held.child);
    }

    /** `take_if_idle`. */
    method TakeIfIdle(i: EntryId, also: Held -> bool) returns (taking: Taking)
      requires Valid() && i < |catalog|
      modifies this`mem
      ensures Valid() && Rely(old(mem), mem)
      ensures var idle := old(mem).slots[i].Some? && !old(mem).Busy(i);
              var (fx, came) := SlotTable.TakeIfIdle(old(mem), i, idle, also);
              mem == Affect(old(mem), fx) && taking == came
      ensures mem.slots == if MayGo(old(mem), i, also) then old(mem).slots[i := None] else old(mem).slots
      ensures taking == if MayGo(old(mem), i, also) then Taken(old(mem).slots[i].value.child)
                        else if old(mem).slots[i].Some? then IsBusy else Empty
      ensures mem.strong == old(mem).strong
    {
      match mem.slots[i]
      case Some(held) =>
        if mem.Busy(i) || !also(held) {
          taking := IsBusy;
        } else {
          mem := mem.(slots := mem.slots[i := None]);
          taking := Taken(held.child);
        }
      case None =>
        taking := Empty;
    }

    /** Dropping a handle; the last one ends the process. */
    method Drop(c: ChildId)
      requires Valid()
      modifies this`mem
      ensures Valid() && mem == Affect(old(mem), Release(c)) && Rely(old(mem), mem)
      ensures mem.slots == old(mem).slots
      ensures forall d: ChildId :: mem.Count(d) ==
                if d == c && old(mem).Count(c) > 0 then old(mem).Count(c) - 1 else old(mem).Count(d)
    {
      mem := mem.(strong := mem.strong[c := if mem.Count(c) > 0 then mem.Count(c) - 1 else 0]);
    }

    /** `touch`. */
    method Touch(i: EntryId)
      requires Valid() && i < |catalog|
      modifies this`mem
      ensures Valid() && mem == Affect(old(mem), Stamp(i))
      ensures mem.slots[i].Some? ==> mem.slots[i].value.lastUsed == mem.now
    {
      if mem.slots[i].Some? {
        mem := mem.(slots := mem.slots[i := Some(mem.slots[i].value.(lastUsed := mem.now))]);
      }
    }

    /** The handle of a child that was just started. */
    method Start(e: EntryId, held: Held)
      requires Valid()
      modifies this`mem
      ensures Valid() && mem == Affect(old(mem), Spawn(held.child, e)) && mem.slots == old(mem).slots
      ensures forall c: ChildId :: mem.Count(c) == if c == held.child then 1 else old(mem).Count(c)
    {
      mem := mem.(strong := mem.strong[held.child := 1]);
    }

    /** The insertion at the end of `admit`: a clone of the handle goes into the slot. */
    method Insert(e: EntryId, held: Held)
      requires Valid() && e < |catalog|
      modifies this`mem
      ensures Valid() && mem == Affect(old(mem), Put(e, held))
      ensures mem.slots == old(mem).slots[e := Some(held)]
      ensures forall c: ChildId :: mem.Count(c) == old(mem).Count(c) + if c == held.child then 1 else 0
    {
      mem := mem.(strong := mem.strong[held.child := mem.Count(held.child) + 1]);
      mem := mem.(slots := mem.slots[e := Some(held)]);
    }

    /** One slot of a snapshot: what `held` projects of it. */
    method ReadRow(i: EntryId) returns (row: Option<Loaded>)
      requires Valid() && i < |catalog|
      ensures row == Row(catalog, mem, i, mem.slots[i].Some? && !mem.Busy(i))
      ensures row.Some? <==> mem.slots[i].Some?
      ensures row.Some? ==> row.value.id == i && (row.value.busy <==> mem.Busy(i))
    {
      if mem.slots[i].None? {
        return None;
      }
      row := Some(LoadedOf(i, catalog[i], mem.Busy(i), mem.slots[i].value));
    }

    /** One slot of `clear`: emptied, read or not. */
    method WipeOne(i: EntryId) returns (child: Option<ChildId>)
      requires Valid() && i < |catalog|
      modifies this`mem
      ensures Valid() && Rely(old(mem), mem) && mem.slots[i].None?
      ensures child == if old(mem).slots[i].Some? then Some(old(mem).slots[i].value.child) else None
      ensures mem == Affect(old(mem), if child.Some? then Take(i) else Nothing)
    {
      if mem.slots[i].None? {
        return None;
      }
      child := Some(mem.slots[i].value.child);
      mem := mem.(slots := mem.slots[i := None]);
    }

    // --------------------------------------------------------------------------- make_room

    /** `held`: the slots read one by one, while the others move between any two. */
    method Held() returns (rows: seq<Option<Loaded>>)
      requires Valid()
      modifies this`mem, this`steps
      ensures Valid() && Rely(old(mem), mem)
      ensures |rows| == |catalog| && RowsOf(catalog, rows) && Covers(catalog, mem.slots, rows)
      ensures forall i :: 0 <= i < |rows| && old(mem).slots[i].None? ==> rows[i].None?
      ensures ReadBetween(catalog, old(mem), mem, rows) && steps == old(steps) + |catalog|
      ensures Undisturbed() ==> mem == old(mem) && rows == RowsNow(catalog, mem)
    {
      hide ReadBetween;
      rows := [];
      NothingRead(catalog, mem);
      for i := 0 to |catalog|
        invariant Valid() && Rely(old(mem), mem) && steps == old(steps) + i
        invariant |rows| == i && RowsOf(catalog, rows) && Covers(catalog, mem.slots, rows)
        invariant forall k :: 0 <= k < i && old(mem).slots[k].None? ==> rows[k].None?
        invariant ReadBetween(catalog, old(mem), mem, rows)
        invariant Undisturbed() ==> mem == old(mem)
        invariant Undisturbed() ==> forall k :: 0 <= k < i ==> rows[k] == RowNow(catalog, mem, k)
      {
        ghost var before := mem;
        Interfere();
        var row := ReadRow(i);
        ReadOneMore(catalog, old(mem), before, mem, rows);
        rows := rows + [row];
      }
    }

    /** `unload`: stops at the first entry that has gained a reader, and names it. */
    method Unload(ids: seq<EntryId>) returns (blocker: Option<EntryId>)
      requires Valid() && forall id :: id in ids ==> id < |catalog|
      modifies this`mem, this`steps
      ensures Valid() && Rely(old(mem), mem) && steps >= old(steps)
      ensures blocker.None? ==> forall id :: id in ids ==> mem.slots[id].None?
      ensures blocker.Some? ==>
                blocker.value in ids && mem.slots[blocker.value].Some? && mem.Busy(blocker.value)
      ensures Undisturbed() && (forall id :: id in ids && old(mem).slots[id].Some? ==> !old(mem).Busy(id)) ==>
                blocker.None? && mem.now == old(mem).now && Without(old(mem), mem, ids)
      ensures Undisturbed() && old(Unshared()) && blocker.None? ==> GivenBack(old(mem), mem, ids)
    {
      hide HeldIn, GivenBack, Affect;
      ghost var calm := Undisturbed() && Unshared();
      NobodyGone(mem);
      for k := 0 to |ids|
        invariant Valid() && Rely(old(mem), mem) && steps == old(steps) + k
        invariant forall j :: 0 <= j < k ==> ids[j] < |mem.slots| && mem.slots[ids[j]].None?
        invariant Undisturbed() ==> mem.now == old(mem).now && Without(old(mem), mem, ids[..k])
        invariant Undisturbed() ==> forall c :: mem.Count(c) <= old(mem).Count(c)
        invariant calm ==> GivenBack(old(mem), mem, ids[..k])
      {
        Interfere();
        assert ids[k] in ids && ids[..k + 1] == ids[..k] + [ids[k]];
        if calm { OneMoreGivenBack(old(mem), mem, ids[..k], ids[k]); }
        var busy := Evict(ids[k]);
        if busy {
          return Some(ids[k]);
        }
      }
      assert ids[..|ids|] == ids;
      blocker := None;
    }

    /** One turn of `unload`: the child is taken out and dropped, unless it has a reader. */
    method Evict(i: EntryId) returns (busy: bool)
      requires Valid() && i < |catalog|
      modifies this`mem
      ensures Valid() && Rely(old(mem), mem) && mem.now == old(mem).now
      ensures busy <==> old(mem).slots[i].Some? && old(mem).Busy(i)
      ensures mem == if busy || old(mem).slots[i].None? then old(mem)
                     else Affect(Affect(old(mem), Take(i)), Release(old(mem).slots[i].value.child))
      ensures mem.slots == if busy then old(mem).slots else old(mem).slots[i := None]
      ensures forall c: ChildId :: mem.Count(c) <= old(mem).Count(c)
    {
      var taking := TakeIfIdle(i, Always);
      busy := taking.IsBusy?;
      if taking.Taken? {
        Drop(taking.child);
      }
    }

    /**
     One pass of `make_room`'s loop: decide on a snapshot, and unload what the
     decision names.  Room is granted whenever it can be made and no reader gets
     there first, it is refused only for good, and nothing goes but for room.
     */
    method Pass(e: EntryId, free: Option<nat>) returns (passed: Passed, ghost rows: seq<Option<Loaded>>)
      requires Valid() && e < |catalog| && mem.slots[e].None?
      modifies this`mem, this`steps
      ensures Valid() && Rely(old(mem), mem) && steps > old(steps)
      ensures passed.Enough? ==> RoomFor(Cfg(), mem.slots, e, [])
      ensures |rows| == |catalog| && RowsOf(catalog, rows) && Covers(catalog, mem.slots, rows)
      ensures ReadBetween(catalog, old(mem), mem, rows)
      ensures AnswersRightly(passed, Able(rows, e, free), OverBudget(e), SomebodyReads(rows, e), Overtaken(rows, mem))
      ensures passed.Never? ==> Decide(limit, Compact(rows), WantedOf(e, catalog[e]), free) == Refuse(passed.why)
      ensures Undisturbed() ==> rows == RowsNow(catalog, old(mem)) && (passed.Enough? <==> Able(rows, e, free))
      ensures Undisturbed() && !passed.Enough? ==> mem == old(mem)
      ensures Undisturbed() && passed.Enough? ==> mem.now == old(mem).now
      ensures Undisturbed() && passed.Enough? ==> Without(old(mem), mem, Named(rows, e, free))
    {
      hide CanMakeRoom, RoomFor, Covers, SomebodyReads, Overtaken, Without, ReadBetween;
      hide Decide, RowsOf, Compact, WantedOf, GivenBack;
      rows := [];
      var held := Held();
      rows := held;
      ghost var seen := mem;
      ghost var wanted := WantedOf(e, catalog[e]);
      AnswerOnRows(limit, catalog, rows, e, free);
      DecisionLeavesRoom(Cfg(), mem.slots, e, rows, free);
      var decision := Admit(limit, Compact(held), WantedOf(e, catalog[e]), free);
      match decision
      case Fits =>
        NobodyGone(mem);
        passed := Enough;
      case Unload(ids) =>
        NamedWereIdle(limit, catalog, rows, e, free);
        ghost var before := mem.slots;
        var blocker := Unload(ids);
        StillCovered(catalog, before, mem.slots, rows);
        ReadOnwards(catalog, old(mem), seen, mem, rows);
        if blocker.None? {
          UnloadedRoomStays(Cfg(), before, mem.slots, e, ids);
          passed := Enough;
        } else {
          assert Overtaken(rows, mem) by { GainedAReader(rows, mem, blocker.value); }
          passed := NotYet;
        }
      case Blocked(_) => passed := NotYet;
      case Refuse(why) => passed := Never(why);
    }

    /** The entries the decision on these rows unloads. */
    ghost function Named(rows: seq<Option<Loaded>>, e: EntryId, free: Option<nat>): seq<EntryId>
      requires e < |catalog|
    {
      var d := Decide(limit, Compact(rows), WantedOf(e, catalog[e]), free);
      if d.Unload? then d.ids else []
    }

    /**
     `make_room`: decide, unload, or wait and decide again, until there is room
     or the deadline has passed.  Whatever the others do, it ends after at most
     one decision more than there are pauses in the wait, and it gives up only
     if room could not be made at the last decision, or a reader got there first.
     Left alone, it finds room exactly when room can be made.
     */
    method MakeRoom(e: EntryId, device: nat -> Option<nat>)
      returns (result: RoomResult, ghost asked: seq<nat>, ghost rows: seq<Option<Loaded>>, ghost last: Memory)
      requires Valid() && e < |catalog| && mem.slots[e].None?
      modifies this`mem, this`steps
      ensures Valid() && Rely(old(mem), last) && Rely(last, mem)
      ensures result.Granted? ==> RoomFor(Cfg(), mem.slots, e, [])
      ensures result.Contended? ==> mem.now >= old(mem).now + wait
      ensures 1 <= |asked| <= (wait + 249_999_999) / 250_000_000 + 1 && (wait == 0 ==> |asked| == 1)
      ensures asked[0] == old(steps) && forall k :: 0 < k < |asked| ==> asked[k - 1] < asked[k]
      ensures |rows| == |catalog| && RowsOf(catalog, rows) && Covers(catalog, last.slots, rows)
      ensures ReadBetween(catalog, old(mem), last, rows)
      ensures AnswersRightly(AsPassed(result), Able(rows, e, device(asked[|asked| - 1])),
                             OverBudget(e), SomebodyReads(rows, e), Overtaken(rows, last))
      ensures result.Refused? ==>
                Decide(limit, Compact(rows), WantedOf(e, catalog[e]), device(asked[|asked| - 1])) == Refuse(result.why)
      ensures Undisturbed() ==>
                && rows == RowsNow(catalog, old(mem))
                && (result.Granted? <==> Able(rows, e, device(asked[|asked| - 1])))
                && forall k :: 0 <= k < |asked| - 1 ==> !Able(rows, e, device(asked[k]))
      ensures Undisturbed() && result.Contended? ==> |asked| == (wait + 249_999_999) / 250_000_000 + 1
      ensures Undisturbed() && !result.Granted? ==> mem == old(mem).(now := mem.now)
      ensures Undisturbed() && result.Granted? ==>
                Without(old(mem), mem, Named(rows, e, device(asked[|asked| - 1])))
    {
      hide CanMakeRoom, RoomFor, Covers, SomebodyReads, Overtaken, Without, ReadBetween;
      hide Decide, RowsOf, Compact, WantedOf;
      var deadline := mem.now + wait;
      asked, rows, last := [], [], mem;
      while true
        invariant Valid() && Rely(old(mem), mem)
        invariant asked == [] ==> steps == old(steps) && mem == old(mem)
        invariant asked != [] ==> asked[0] == old(steps) && asked[|asked| - 1] < steps
        invariant forall k :: 0 < k < |asked| ==> asked[k - 1] < asked[k]
        invariant old(mem).now + |asked| * SWEEP <= mem.now
        invariant Undisturbed() ==> mem.now == old(mem).now + |asked| * SWEEP
        invariant |asked| > 0 ==> (|asked| - 1) * SWEEP < wait
        invariant Undisturbed() ==> mem == old(mem).(now := mem.now)
        invariant Undisturbed() ==> forall k :: 0 <= k < |asked| ==>
                    !Able(RowsNow(catalog, old(mem)), e, device(asked[k]))
        decreases deadline - mem.now
      {
        ghost var before := mem;
        asked := asked + [steps];
        var passed;
        passed, rows := Pass(e, device(steps));
        last := mem;
        ReadEarlier(catalog, old(mem), before, mem, rows);
        if Undisturbed() {
          assert RowsNow(catalog, before) == RowsNow(catalog, old(mem));
        }
        match passed {
          case Enough =>
            if Undisturbed() { WithoutLater(old(mem), before, mem, Named(rows, e, device(asked[|asked| - 1]))); }
            return Granted, asked, rows, last;
          case Never(why) =>
            return Refused(why), asked, rows, last;
          case NotYet =>
        }
        var over := Pause(deadline);
        if over {
          return Contended, asked, rows, last;
        }
      }
    }

    /** The end of a pass that found no room: the wait is over, or it goes on for a quarter of a second. */
    method Pause(deadline: nat) returns (over: bool)
      requires Valid()
      modifies this`mem, this`steps
      ensures Valid() && Rely(old(mem), mem) && steps > old(steps)
      ensures if over then mem.now >= deadline else old(mem).now < deadline && mem.now >= old(mem).now + 250_000_000
      ensures Undisturbed() ==>
                && (over <==> old(mem).now >= deadline)
                && mem == old(mem).(now := if over then old(mem).now else old(mem).now + 250_000_000)
    {
      Interfere();
      over := mem.now >= deadline;
      if !over {
        mem := mem.(now := mem.now + SWEEP);
        Interfere();
      }
    }

    // ------------------------------------------------------------------------------- admit

    /**
     `admit`, under the admission lock: recheck, make room, start, insert.  What
     is answered is settled by whether a live child is there, whether the file
     is, whether room was granted and whether the child starts; `room` is what
     was found out about room, and left alone it is granted exactly when it can
     be made.  The estimates of what is loaded stay within the limit, and a
     served child is in its entry's slot with a handle of its own.
     */
    method AdmitEntry(
      e: EntryId, fileThere: bool, starts: Option<Held>, device: nat -> Option<nat>)
      returns (result: AdmitResult, ghost room: RoomResult)
      requires Valid() && e < |catalog| && WithinLimit(Cfg(), mem.slots)
      requires starts.Some? && mem.slots[e].Some? ==> starts.value.child != mem.slots[e].value.child
      modifies this`mem, this`steps
      ensures Valid() && WithinLimit(Cfg(), mem.slots) && old(mem).now <= mem.now
      ensures old(OneOvershoot(Cfg(), mem.slots)) ==> OneOvershoot(Cfg(), mem.slots)
      ensures forall i :: 0 <= i < |catalog| && i != e && mem.slots[i].Some? ==>
                old(mem).slots[i].Some? && mem.slots[i].value.child == old(mem).slots[i].value.child
      ensures result.Serving? ==>
                && mem.slots[e].Some? && mem.slots[e].value.child == result.child
                && (if old(mem).slots[e].Some? && result.child == old(mem).slots[e].value.child
                    then mem.Count(result.child) == old(mem).Count(result.child) + 1
                    else mem.slots[e] == starts && mem.Count(result.child) == 2)
      ensures !result.Serving? ==> Shrinks(old(mem).slots, mem.slots)
      ensures result == if Live(old(mem), e) then Serving(old(mem).slots[e].value.child)
                        else if !fileThere then NoModelFile
                        else if !room.Granted? then NoRoom(room)
                        else if starts.None? then NotStarted else Serving(starts.value.child)
      ensures Undisturbed() && !Live(old(mem), e) && fileThere && (forall k: nat :: device(k) == device(0)) ==>
                (room.Granted? <==> Able(RowsNow(catalog, Affect(old(mem), Discard(e))), e, device(0)))
    {
      hide WithinLimit, OneOvershoot, RoomFor, CanMakeRoom, Covers, ReadBetween, SomebodyReads, Overtaken;
      hide Decide, RowsOf, Compact, WantedOf, Without, RowsNow, AnswersRightly;
      room := Contended;
      ghost var first := mem.slots;
      var running := LiveChild(e);
      ShrinkingKeepsWithinLimit(Cfg(), first, mem.slots);
      if running.Some? {
        return Serving(running.value), room;
      }
      if !fileThere {
        return NoModelFile, room;
      }
      ghost var asked, rows, last;
      var found;
      found, asked, rows, last := MakeRoom(e, device);
      room := found;
      ShrinkingKeepsWithinLimit(Cfg(), first, mem.slots);
      if !found.Granted? {
        return NoRoom(found), room;
      }
      var started := StartInto(e, starts);
      if !started {
        ShrinkingKeepsWithinLimit(Cfg(), first, mem.slots);
        return NotStarted, room;
      }
      result := Serving(starts.value.child);
    }

    /** `start`, and the insertion of what it started into the slot for which room was made. */
    method StartInto(e: EntryId, starts: Option<Held>) returns (started: bool)
      requires Valid() && e < |catalog| && mem.slots[e].None? && RoomFor(Cfg(), mem.slots, e, [])
      modifies this`mem, this`steps
      ensures Valid() && old(mem).now <= mem.now && started == starts.Some?
      ensures !started ==> Shrinks(old(mem).slots, mem.slots)
      ensures started ==>
                && WithinLimit(Cfg(), mem.slots) && OneOvershoot(Cfg(), mem.slots)
                && mem.slots[e] == starts && mem.Count(starts.value.child) == 2
                && forall i :: 0 <= i < |catalog| && i != e && mem.slots[i].Some? ==>
                     old(mem).slots[i].Some? && mem.slots[i].value.child == old(mem).slots[i].value.child
    {
      ghost var before := mem.slots;
      Interfere();
      ShrinkingLowersTheLedger(catalog, before, mem.slots, [], |catalog|);
      started := starts.Some?;
      if started {
        FillingLeavesOneOvershoot(Cfg(), mem.slots, e, starts.value);
        OneOvershootKeepsEstimates(Cfg(), mem.slots[e := starts]);
        Start(e, starts.value);
        Insert(e, starts.value);
      }
    }

    // ---------------------------------------------------------------------- sweeping, clearing

    /** No two slots hold the same child, as `ProtocolInvariant.Homes` has it. */
    ghost predicate Unshared()
      reads this
    {
      forall i, j :: 0 <= i < j < |mem.slots| && mem.slots[i].Some? && mem.slots[j].Some? ==>
        mem.slots[i].value.child != mem.slots[j].value.child
    }

    /** `take_if_exited`. */
    method TakeIfExited(i: EntryId) returns (dead: Option<ChildId>)
      requires Valid() && i < |catalog|
      modifies this`mem
      ensures Valid() && Rely(old(mem), mem)
      ensures var idle := old(mem).slots[i].Some? && !old(mem).Busy(i);
              var (fx, found) := SlotTable.TakeIfExited(old(mem), i, idle);
              mem == Affect(old(mem), fx) && dead == found
      ensures dead == if ExitedAt(old(mem), i) then Some(old(mem).slots[i].value.child) else None
      ensures mem.slots == if dead.Some? then old(mem).slots[i := None] else old(mem).slots
      ensures mem.strong == old(mem).strong
    {
      if mem.slots[i].Some? && !mem.Busy(i) && mem.slots[i].value.child in mem.dead {
        dead := Some(mem.slots[i].value.child);
        mem := mem.(slots := mem.slots[i := None]);
      } else {
        dead := None;
      }
    }

    /** `sweep_exited`, undisturbed: exactly the dead children nobody reads from are reaped. */
    method SweepExited() returns (reaped: seq<EntryId>)
      requires Valid() && Unshared()
      modifies this`mem
      ensures Valid() && Unshared() && mem.now == old(mem).now && mem.dead == old(mem).dead
      ensures forall i :: 0 <= i < |catalog| ==>
                mem.slots[i] == if ExitedAt(old(mem), i) then None else old(mem).slots[i]
      ensures forall i: EntryId :: i in reaped <==> i < |catalog| && ExitedAt(old(mem), i)
      ensures KeepsTheRest(old(mem), mem)
    {
      reaped := [];
      for k := 0 to |catalog|
        invariant Valid() && mem.now == old(mem).now && mem.dead == old(mem).dead
        invariant forall i :: 0 <= i < |catalog| ==>
                    mem.slots[i] == if i < k && ExitedAt(old(mem), i) then None else old(mem).slots[i]
        invariant forall i: EntryId :: i in reaped <==> i < k && ExitedAt(old(mem), i)
        invariant KeepsTheRest(old(mem), mem)
      {
        assert mem.slots[k].Some? ==> mem.Busy(k) == old(mem).Busy(k);
        var dead := TakeIfExited(k);
        if dead.Some? {
          Drop(dead.value);
          reaped := reaped + [k];
        }
      }
    }

    /** A snapshot nobody disturbs. */
    method Snapshot() returns (rows: seq<Option<Loaded>>)
      requires Valid()
      ensures |rows| == |catalog| && RowsOf(catalog, rows)
      ensures forall i :: 0 <= i < |rows| ==>
                rows[i] == Row(catalog, mem, i, mem.slots[i].Some? && !mem.Busy(i))
    {
      rows := [];
      for i := 0 to |catalog|
        invariant |rows| == i
        invariant forall k :: 0 <= k < i ==>
                    rows[k] == Row(catalog, mem, k, mem.slots[k].Some? && !mem.Busy(k))
      {
        var row := ReadRow(i);
        rows := rows + [row];
      }
    }

    /** One round of `swept`: take the child if it may be taken, and drop what came out. */
    method SweptOne(i: EntryId, also: Held -> bool) returns (gone: bool)
      requires Valid() && Unshared() && i < |catalog|
      modifies this`mem
      ensures Valid() && Unshared() && mem.now == old(mem).now && mem.dead == old(mem).dead
      ensures gone <==> MayGo(old(mem), i, also)
      ensures mem.slots == if gone then old(mem).slots[i := None] else old(mem).slots
      ensures KeepsTheRest(old(mem), mem)
    {
      var taking := TakeIfIdle(i, also);
      gone := taking.Taken?;
      if gone {
        Drop(taking.child);
      }
    }

    /** `swept` with `take_if_idle`: of the named entries, those that may go do, and are named. */
    method Swept(ids: seq<EntryId>, also: Held -> bool) returns (gone: seq<EntryId>)
      requires Valid() && Unshared() && forall id :: id in ids ==> id < |catalog|
      modifies this`mem
      ensures Valid() && Unshared() && mem.now == old(mem).now && mem.dead == old(mem).dead
      ensures forall i :: 0 <= i < |catalog| ==>
                mem.slots[i] == if i in ids && MayGo(old(mem), i, also) then None else old(mem).slots[i]
      ensures forall i: EntryId :: i in gone <==> i in ids && MayGo(old(mem), i, also)
      ensures KeepsTheRest(old(mem), mem)
    {
      gone := [];
      for k := 0 to |ids|
        invariant Valid() && Unshared() && mem.now == old(mem).now && mem.dead == old(mem).dead
        invariant forall i :: 0 <= i < |catalog| ==>
                    mem.slots[i] == if i in ids[..k] && MayGo(old(mem), i, also) then None else old(mem).slots[i]
        invariant forall i: EntryId :: i in gone <==> i in ids[..k] && MayGo(old(mem), i, also)
        invariant KeepsTheRest(old(mem), mem)
      {
        var id := ids[k];
        assert id in ids && ids[..k + 1] == ids[..k] + [id];
        assert MayGo(mem, id, also) <==> MayGo(old(mem), id, also) && id !in ids[..k];
        var went := SweptOne(id, also);
        if went {
          gone := gone + [id];
        }
      }
      assert ids[..|ids|] == ids;
    }

    /**
     `sweep_idle`, undisturbed: exactly the on-demand children nobody reads from
     and unused for the window are unloaded, and named.
     */
    method SweepIdle(window: Option<nat>) returns (unloaded: seq<EntryId>)
      requires Valid() && Unshared()
      modifies this`mem
      ensures Valid() && Unshared() && mem.now == old(mem).now && mem.dead == old(mem).dead
      ensures forall i :: 0 <= i < |catalog| ==>
                mem.slots[i] == if StaleAt(catalog, old(mem), i, window) then None else old(mem).slots[i]
      ensures forall i: EntryId :: i in unloaded <==> i < |catalog| && StaleAt(catalog, old(mem), i, window)
      ensures KeepsTheRest(old(mem), mem)
    {
      if window.None? {
        return [];
      }
      var rows := Snapshot();
      var ids := Expired(window, Compact(rows), mem.now);
      forall id: EntryId ensures id in ids <==> id < |catalog| && StaleAt(catalog, mem, id, window) {
        ExpiredIsStale(catalog, mem, rows, window, id);
      }
      unloaded := Swept(ids, Stale(window, mem.now));
    }

    /** The children taken out of the slots, in whatever order the map of slots gives them. */
    method WipeAll(order: seq<EntryId>) returns (taken: seq<ChildId>)
      requires Valid() && Unshared() && Everyone(Cfg(), order)
      modifies this`mem
      ensures Valid() && mem.slots == seq(|catalog|, _ => None) && mem.strong == old(mem).strong
      ensures forall c :: c in taken <==> HeldIn(old(mem).slots, order, c)
      ensures forall a, b :: 0 <= a < b < |taken| ==> taken[a] != taken[b]
    {
      taken := [];
      for k := 0 to |order|
        invariant Valid() && mem.strong == old(mem).strong
        invariant forall i :: 0 <= i < |catalog| ==>
                    mem.slots[i] == if i in order[..k] then None else old(mem).slots[i]
        invariant forall c :: c in taken <==> HeldIn(old(mem).slots, order[..k], c)
        invariant forall a, b :: 0 <= a < b < |taken| ==> taken[a] != taken[b]
      {
        assert order[k] in order && order[..k + 1] == order[..k] + [order[k]];
        var child := WipeOne(order[k]);
        OneMoreHeld(old(mem).slots, order[..k], order[k]);
        if child.Some? {
          assert !HeldIn(old(mem).slots, order[..k], child.value);
          taken := taken + [child.value];
        }
      }
      assert order[..|order|] == order;
    }

    /** `clear`: every slot is emptied, read or not, and each child loses the slot's handle. */
    method Clear(order: seq<EntryId>)
      requires Valid() && Unshared() && Everyone(Cfg(), order)
      modifies this`mem
      ensures Valid() && mem.slots == seq(|catalog|, _ => None)
      ensures forall c ::
                mem.Count(c) == if HeldIn(old(mem).slots, order, c) && old(mem).Count(c) > 0
                                then old(mem).Count(c) - 1 else old(mem).Count(c)
    {
      var taken := WipeAll(order);
      for k := 0 to |taken|
        invariant Valid() && mem.slots == seq(|catalog|, _ => None)
        invariant forall c :: mem.Count(c) ==
                    if c in taken[..k] && old(mem).Count(c) > 0 then old(mem).Count(c) - 1 else old(mem).Count(c)
      {
        Drop(taken[k]);
        assert taken[..k + 1] == taken[..k] + [taken[k]];
      }
      assert taken[..|taken|] == taken;
    }
  }

  /** The slots that went are these, and no child gained a handle. */
  ghost predicate Without(before: Memory, after: Memory, ids: seq<EntryId>) {
    && |after.slots| == |before.slots|
    && forall i :: 0 <= i < |after.slots| ==> after.slots[i] == if i in ids then None else before.slots[i]
  }

  /** Each child in one of these slots has lost one handle, and no other child any. */
  ghost predicate GivenBack(before: Memory, after: Memory, ids: seq<EntryId>) {
    forall c :: after.Count(c) == if HeldIn(before.slots, ids, c) && before.Count(c) > 0
                                  then before.Count(c) - 1 else before.Count(c)
  }

  /** There is a child to hand out: alive, or still being read from. */
  ghost predicate Live(m: Memory, i: EntryId)
    requires i < |m.slots|
  {
    m.slots[i].Some? && (m.Busy(i) || m.slots[i].value.child !in m.dead)
  }

  ghost function AsPassed(result: RoomResult): Passed {
    match result
    case Granted => Enough
    case Refused(why) => Never(why)
    case Contended => NotYet
  }

  lemma {:induction false} NobodyGone(m: Memory)
    ensures Without(m, m, []) && GivenBack(m, m, [])
  {}

  lemma {:induction false} WithoutLater(before: Memory, from: Memory, after: Memory, ids: seq<EntryId>)
    requires from.slots == before.slots && Without(from, after, ids)
    ensures Without(before, after, ids)
  {}

  /** Taking the child of one more slot, if it still has one, and dropping it. */
  lemma {:induction false} OneMoreGivenBack(before: Memory, m: Memory, ids: seq<EntryId>, id: EntryId)
    requires Without(before, m, ids) && GivenBack(before, m, ids) && id < |m.slots|
    requires forall i, j :: 0 <= i < j < |before.slots| && before.slots[i].Some? && before.slots[j].Some? ==>
               before.slots[i].value.child != before.slots[j].value.child
    ensures m.slots[id].None? ==> GivenBack(before, m, ids + [id])
    ensures m.slots[id].Some? ==>
              GivenBack(before, Affect(Affect(m, Take(id)), Release(m.slots[id].value.child)), ids + [id])
  {
    OneMoreHeld(before.slots, ids, id);
  }

  lemma {:induction false} ReadOnwards(
    catalog: seq<Entry>, before: Memory, seen: Memory, after: Memory, rows: seq<Option<Loaded>>)
    requires ReadBetween(catalog, before, seen, rows) && Rely(seen, after)
    ensures ReadBetween(catalog, before, after, rows)
  {
    forall i | 0 <= i < |rows| ensures ReadAtSomeMoment(catalog, before, after, rows[i], i) {
      assert ReadAtSomeMoment(catalog, before, seen, rows[i], i);
      var m :| Rely(before, m) && Rely(m, seen) && i < |m.slots| == |catalog| && rows[i] == RowNow(catalog, m, i);
      assert Rely(m, after);
    }
  }

  lemma {:induction false} NothingRead(catalog: seq<Entry>, m: Memory)
    ensures ReadBetween(catalog, m, m, [])
  {}

  lemma {:induction false} ReadOneMore(
    catalog: seq<Entry>, before: Memory, seen: Memory, after: Memory, rows: seq<Option<Loaded>>)
    requires ReadBetween(catalog, before, seen, rows) && Rely(before, after) && Rely(seen, after)
    requires |rows| < |after.slots| == |catalog|
    ensures ReadBetween(catalog, before, after, rows + [RowNow(catalog, after, |rows|)])
  {
    ReadOnwards(catalog, before, seen, after, rows);
    assert Rely(after, after);
    assert ReadAtSomeMoment(catalog, before, after, RowNow(catalog, after, |rows|), |rows|);
  }

  lemma {:induction false} ReadEarlier(
    catalog: seq<Entry>, before: Memory, from: Memory, after: Memory, rows: seq<Option<Loaded>>)
    requires Rely(before, from) && ReadBetween(catalog, from, after, rows)
    ensures ReadBetween(catalog, before, after, rows)
  {
    forall i | 0 <= i < |rows| ensures ReadAtSomeMoment(catalog, before, after, rows[i], i) {
      assert ReadAtSomeMoment(catalog, from, after, rows[i], i);
      var m :| Rely(from, m) && Rely(m, after) && i < |m.slots| == |catalog| && rows[i] == RowNow(catalog, m, i);
      assert Rely(before, m);
    }
  }

  lemma {:induction false} StillCovered(
    catalog: seq<Entry>, before: seq<Slot>, after: seq<Slot>, rows: seq<Option<Loaded>>)
    requires Covers(catalog, before, rows) && Shrinks(before, after)
    ensures Covers(catalog, after, rows)
  {}

  /** What the decision on a snapshot is, told from its rows. */
  lemma {:induction false} AnswerOnRows(
    limit: Option<nat>, catalog: seq<Entry>, rows: seq<Option<Loaded>>, e: EntryId, free: Option<nat>)
    requires |rows| == |catalog| && RowsOf(catalog, rows) && e < |rows| && rows[e].None?
    ensures var wanted := WantedOf(e, catalog[e]);
            var d := Decide(limit, Compact(rows), wanted, free);
            var able := CanMakeRoom(limit, Compact(rows), wanted, free);
            var over := limit.Some? && catalog[e].estimateMib > limit.value;
            && (d.Fits? || d.Unload? <==> able) && (d.Fits? <==> Suffices(limit, wanted, free, [], Compact(rows)))
            && (d.Blocked? ==> !over && SomebodyReads(rows, e))
            && (d.Refuse? ==> over || !SomebodyReads(rows, e))
  {
    var wanted := WantedOf(e, catalog[e]);
    var loaded := Compact(rows);
    CompactMembers(catalog, rows);
    TheAnswer(limit, loaded, wanted, free);
    var none: seq<Loaded> := [];
    assert Splits(loaded, wanted, none, loaded);
    if SomebodyReads(rows, e) {
      var i :| 0 <= i < |rows| && i != e && rows[i].Some? && rows[i].value.residency == OnDemand && rows[i].value.busy;
      assert rows[i].value in loaded;
    }
    if x :| x in loaded && x.residency == OnDemand && x.busy && x.id != e {
      assert rows[x.id] == Some(x);
    }
  }

  /** What the decision names was on demand and idle when its row was read. */
  lemma {:induction false} NamedWereIdle(
    limit: Option<nat>, catalog: seq<Entry>, rows: seq<Option<Loaded>>, e: EntryId, free: Option<nat>)
    requires |rows| == |catalog| && RowsOf(catalog, rows) && e < |catalog|
    ensures var d := Decide(limit, Compact(rows), WantedOf(e, catalog[e]), free);
            d.Unload? ==> forall id :: id in d.ids ==>
              id < |rows| && rows[id].Some? && rows[id].value.residency == OnDemand && !rows[id].value.busy
  {
    var wanted := WantedOf(e, catalog[e]);
    var d := Decide(limit, Compact(rows), wanted, free);
    if d.Unload? {
      UnloadIsLeastColdPrefix(limit, Compact(rows), wanted, free);
      CompactMembers(catalog, rows);
    }
  }

  lemma {:induction false} GainedAReader(rows: seq<Option<Loaded>>, m: Memory, i: EntryId)
    requires i < |rows| && i < |m.slots| && m.slots[i].Some? && m.Busy(i)
    requires rows[i].Some? && rows[i].value.residency == OnDemand && !rows[i].value.busy
    ensures Overtaken(rows, m)
  {}

  /** One of these slots holds the child. */
  ghost predicate HeldIn(slots: seq<Slot>, ids: seq<EntryId>, c: ChildId) {
    exists i :: 0 <= i < |slots| && i in ids && slots[i].Some? && slots[i].value.child == c
  }

  lemma {:induction false} OneMoreHeld(slots: seq<Slot>, ids: seq<EntryId>, id: EntryId)
    requires id < |slots|
    ensures forall c :: HeldIn(slots, ids + [id], c) <==>
              HeldIn(slots, ids, c) || (slots[id].Some? && slots[id].value.child == c)
  {
    assert id in ids + [id];
  }

  ghost predicate MayGo(m: Memory, i: EntryId, also: Held -> bool) {
    i < |m.slots| && m.slots[i].Some? && !m.Busy(i) && also(m.slots[i].value)
  }

  ghost predicate ExitedAt(m: Memory, i: EntryId)
    requires i < |m.slots|
  {
    m.slots[i].Some? && !m.Busy(i) && m.slots[i].value.child in m.dead
  }

  ghost predicate StaleAt(catalog: seq<Entry>, m: Memory, i: EntryId, window: Option<nat>)
    requires i < |m.slots| == |catalog|
  {
    && window.Some? && m.slots[i].Some? && catalog[i].residency.OnDemand? && !m.Busy(i)
    && Elapsed(m.now, m.slots[i].value.lastUsed) >= window.value
  }

  /** What is still loaded is read from by as many as before. */
  ghost predicate KeepsTheRest(before: Memory, after: Memory) {
    && |before.slots| == |after.slots|
    && forall i :: 0 <= i < |after.slots| && after.slots[i].Some? ==>
         after.Count(after.slots[i].value.child) == before.Count(after.slots[i].value.child)
  }

  lemma {:induction false} ExpiredIsStale(
    catalog: seq<Entry>, m: Memory, rows: seq<Option<Loaded>>, window: Option<nat>, id: EntryId)
    requires |m.slots| == |catalog| == |rows| && RowsOf(catalog, rows)
    requires forall i :: 0 <= i < |rows| ==> rows[i] == Row(catalog, m, i, m.slots[i].Some? && !m.Busy(i))
    ensures id in Expired(window, Compact(rows), m.now) <==>
            id < |catalog| && StaleAt(catalog, m, id, window)
  {
    if window.Some? {
      ExpiredNamesTheStale(window.value, Compact(rows), m.now, id);
      CompactMembers(catalog, rows);
      if id < |catalog| && StaleAt(catalog, m, id, window) {
        var e := rows[id].value;
        assert e in Compact(rows) && e.id == id && Expires(e, m.now, window.value);
      }
    }
  }

  /** Once every named slot is empty, the planned room is there. */
  lemma {:induction false} UnloadedRoomStays(
    cfg: Config, before: seq<Slot>, after: seq<Slot>, e: EntryId, ids: seq<EntryId>)
    requires |before| == |cfg.catalog| && Shrinks(before, after) && RoomFor(cfg, before, e, ids)
    requires forall id :: id in ids && id < |after| ==> after[id].None?
    ensures RoomFor(cfg, after, e, [])
    decreases |ids|
  {
    ShrinkingLowersTheLedger(cfg.catalog, before, after, ids, |before|);
    if ids != [] {
      EmptySlotCostsNothing(cfg.catalog, after, ids, |after|) by {
        assert ids[0] in ids;
      }
      forall id | id in ids[1..] ensures id in ids {}
      UnloadedRoomStays(cfg, after, after, e, ids[1..]);
    }
  }
}

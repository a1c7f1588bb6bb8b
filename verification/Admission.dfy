/**
 The admission decision (src/admission.rs, src/admission/room.rs).

 It is pure: a ceiling, what is loaded, what is wanted and what the
 device has free go in, a decision comes out.  `Decide` is that function and
 `Admit` the loop that computes it; `AdmissionLaws` says what it means.

 Entries are identified by their position in the catalog.
 */
module Admission {
  import opened Wrappers

  type EntryId = nat

  datatype Residency = Resident | OnDemand

  /** One loaded model, as admission sees it. */
  datatype Loaded = Loaded(
    id: EntryId, costMib: nat, deviceMib: nat,
    residency: Residency, busy: bool, lastUsed: nat)

  datatype Wanted = Wanted(id: EntryId, costMib: nat, deviceMib: nat)

  /** What unloading would give back, on the ledger and on the device. */
  datatype Freed = Freed(cost: nat, device: nat)

  datatype Short = LedgerShort | DeviceShort

  /** Which refusal is worded; only the figure that explains it is kept. */
  datatype Reason =
    | OverBudget            // larger than the whole budget
    | NeverLoads(left: nat) // the residents leave this much of the budget
    | LedgerHeld            // held by what is loaded now
    | DeviceHeld            // the device has too little free

  datatype Decision =
    | Fits
    | Unload(ids: seq<EntryId>)
    | Blocked(why: Reason)
    | Refuse(why: Reason)

  datatype Room = Room(limit: Option<nat>, held: nat, deviceFree: Option<nat>) {

    /** `None` exactly when both sums fit; the ledger is named first. */
    function Short(wanted: Wanted, freed: Freed): Option<Short> {
      var left := if freed.cost <= held then held - freed.cost else 0; // saturating_sub
      var ledgerFits := limit.None? || left + wanted.costMib <= limit.value;
      var deviceFits := deviceFree.None? || deviceFree.value + freed.device >= wanted.deviceMib;
      if !ledgerFits then Some(LedgerShort)
      else if !deviceFits then Some(DeviceShort)
      else None
    }

    /** The wording chosen; the 64-bit subtraction wraps as a release build's does. */
    function Refusal(short: Short, wanted: Wanted, loaded: seq<Loaded>): Reason {
      match short
      case DeviceShort => DeviceHeld
      case LedgerShort =>
        var ceiling := if limit.Some? then limit.value else 0;
        var reserved := Share(Keep(loaded, IsResident)).cost;
        if wanted.costMib + reserved > ceiling
        then NeverLoads((ceiling - reserved) % U64_RANGE)
        else LedgerHeld
    }
  }

  const IsResident: Loaded -> bool := (e: Loaded) => e.residency.Resident?

  /** What may be in a `gone` half of a split: see `AdmissionLaws.Splits`. */
  predicate Candidate(e: Loaded, wanted: Wanted) {
    e.residency.OnDemand? && !e.busy && e.id != wanted.id
  }

  function Candidates(wanted: Wanted): Loaded -> bool { e => Candidate(e, wanted) }

  /** On-demand and read from: what becomes a candidate once its readers finish. */
  predicate FreesItself(e: Loaded, wanted: Wanted) {
    e.residency.OnDemand? && e.busy && e.id != wanted.id
  }

  /** `filter`: those that satisfy `p`, in order. */
  function Keep(s: seq<Loaded>, p: Loaded -> bool): seq<Loaded> {
    if s == [] then [] else (if p(s[0]) then [s[0]] else []) + Keep(s[1..], p)
  }

  /** The two sums over a list: what it costs, and what it holds on the device. */
  function Share(s: seq<Loaded>): Freed {
    if s == [] then Freed(0, 0)
    else
      var rest := Share(s[1..]);
      Freed(s[0].costMib + rest.cost, s[0].deviceMib + rest.device)
  }

  /** The library's stable `sort_by_key(last_used)`. */
  function ColdestFirst(s: seq<Loaded>): seq<Loaded> {
    if s == [] then [] else Insert(s[0], ColdestFirst(s[1..]))
  }

  function Insert(e: Loaded, sorted: seq<Loaded>): seq<Loaded> {
    if sorted == [] || e.lastUsed <= sorted[0].lastUsed then [e] + sorted
    else [sorted[0]] + Insert(e, sorted[1..])
  }

  function Ids(s: seq<Loaded>): seq<EntryId> { seq(|s|, i requires 0 <= i < |s| => s[i].id) }

  /** How many of `order`, from `n` on, go before the room suffices or none is left. */
  function Needed(room: Room, wanted: Wanted, order: seq<Loaded>, n: nat): (r: nat)
    requires n <= |order|
    ensures n <= r <= |order|
    ensures forall k :: n <= k < r ==> room.Short(wanted, Share(order[..k])).Some?
    ensures r < |order| ==> room.Short(wanted, Share(order[..r])).None?
    decreases |order| - n
  {
    if n == |order| || room.Short(wanted, Share(order[..n])).None? then n
    else Needed(room, wanted, order, n + 1)
  }

  function RoomOf(limit: Option<nat>, loaded: seq<Loaded>, deviceFree: Option<nat>): Room {
    Room(limit, Share(loaded).cost, deviceFree)
  }

  predicate AlreadyLoaded(loaded: seq<Loaded>, wanted: Wanted) {
    exists i :: 0 <= i < |loaded| && loaded[i].id == wanted.id
  }

  predicate SomeFreesItself(loaded: seq<Loaded>, wanted: Wanted) {
    exists i :: 0 <= i < |loaded| && FreesItself(loaded[i], wanted)
  }

  function Order(loaded: seq<Loaded>, wanted: Wanted): seq<Loaded> {
    ColdestFirst(Keep(loaded, Candidates(wanted)))
  }

  function Decide(limit: Option<nat>, loaded: seq<Loaded>, wanted: Wanted, deviceFree: Option<nat>): Decision
  {
    if AlreadyLoaded(loaded, wanted) then Fits
    else if limit.Some? && wanted.costMib > limit.value then Refuse(OverBudget)
    else
      var room := RoomOf(limit, loaded, deviceFree);
      if room.Short(wanted, Freed(0, 0)).None? then Fits
      else
        var order := Order(loaded, wanted);
        var n := Needed(room, wanted, order, 0);
        match room.Short(wanted, Share(order[..n]))
        case None => Unload(Ids(order[..n]))
        case Some(short) =>
          var why := room.Refusal(short, wanted, loaded);
          if SomeFreesItself(loaded, wanted) then Blocked(why) else Refuse(why)
  }

  /** `Budget::admit`: the loop that takes candidates until the room suffices. */
  method Admit(limit: Option<nat>, loaded: seq<Loaded>, wanted: Wanted, deviceFree: Option<nat>)
    returns (decision: Decision)
    ensures decision == Decide(limit, loaded, wanted, deviceFree)
  {
    if exists i :: 0 <= i < |loaded| && loaded[i].id == wanted.id {
      return Fits;
    }
    if limit.Some? && wanted.costMib > limit.value {
      return Refuse(OverBudget);
    }
    var room := RoomOf(limit, loaded, deviceFree);
    var freed := Freed(0, 0);
    if room.Short(wanted, freed).None? {
      return Fits;
    }
    var candidates := ColdestFirst(Keep(loaded, Candidates(wanted)));
    var unload: seq<EntryId> := [];
    var i := 0;
    while i < |candidates|
      invariant 0 <= i <= |candidates|
      invariant freed == Share(candidates[..i])
      invariant unload == Ids(candidates[..i])
      invariant Needed(room, wanted, candidates, i) == Needed(room, wanted, candidates, 0)
    {
      if room.Short(wanted, freed).None? {
        break;
      }
      assert candidates[..i + 1] == candidates[..i] + [candidates[i]];
      ShareAppend(candidates[..i], [candidates[i]]);
      freed := Freed(freed.cost + candidates[i].costMib, freed.device + candidates[i].deviceMib);
      unload := unload + [candidates[i].id];
      i := i + 1;
    }
    match room.Short(wanted, freed)
    case None =>
      decision := Unload(unload);
    case Some(short) =>
      var why := room.Refusal(short, wanted, loaded);
      if exists k :: 0 <= k < |loaded| && FreesItself(loaded[k], wanted) {
        decision := Blocked(why);
      } else {
        decision := Refuse(why);
      }
  }

  lemma {:induction false} ShareAppend(a: seq<Loaded>, b: seq<Loaded>)
    ensures Share(a + b).cost == Share(a).cost + Share(b).cost
    ensures Share(a + b).device == Share(a).device + Share(b).device
  {
    if a == [] {
      assert a + b == b;
    } else {
      assert (a + b)[0] == a[0] && (a + b)[1..] == a[1..] + b;
      ShareAppend(a[1..], b);
    }
  }
}

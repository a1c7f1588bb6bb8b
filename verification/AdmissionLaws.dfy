/** What a decision means: laws of `Admission.Decide`. */
module AdmissionLaws {
  import opened Wrappers
  import opened Totals
  import opened Admission

  // ---------------------------------------------------------------- sums and sorting

  /** What each entry costs, and what each holds on the device. */
  function Costs(s: seq<Loaded>): seq<nat> { seq(|s|, i requires 0 <= i < |s| => s[i].costMib) }

  function OnDevice(s: seq<Loaded>): seq<nat> { seq(|s|, i requires 0 <= i < |s| => s[i].deviceMib) }

  /** The two sums are those of the entries' own figures, each side its own. */
  lemma {:induction false} ShareIsTotals(s: seq<Loaded>)
    ensures Share(s).cost == Total(Costs(s)) && Share(s).device == Total(OnDevice(s))
  {
    if s != [] {
      ShareIsTotals(s[1..]);
      assert Costs(s)[1..] == Costs(s[1..]) && OnDevice(s)[1..] == OnDevice(s[1..]);
    }
  }

  lemma {:induction false} ShareOfPart(a: seq<Loaded>, b: seq<Loaded>)
    requires multiset(a) <= multiset(b)
    ensures Share(a).cost <= Share(b).cost && Share(a).device <= Share(b).device
    decreases |a|
  {
    if a != [] {
      assert a[0] in multiset(a);
      var j :| 0 <= j < |b| && b[j] == a[0];
      var rest := b[..j] + b[j + 1..];
      assert a == [a[0]] + a[1..];
      assert b == b[..j] + ([b[j]] + b[j + 1..]);
      assert multiset(b) == multiset(rest) + multiset{b[j]};
      assert multiset(a) == multiset(a[1..]) + multiset{a[0]};
      forall x ensures multiset(a[1..])[x] <= multiset(rest)[x] {
        assert multiset(a)[x] <= multiset(b)[x];
      }
      ShareOfPart(a[1..], rest);
      ShareAppend(b[..j], [b[j]] + b[j + 1..]);
      ShareAppend(b[..j], b[j + 1..]);
    }
  }

  lemma {:induction false} KeepCounts(s: seq<Loaded>, p: Loaded -> bool, x: Loaded)
    ensures multiset(Keep(s, p))[x] == if p(x) then multiset(s)[x] else 0
  {
    if s != [] {
      KeepCounts(s[1..], p, x);
      assert s == [s[0]] + s[1..];
    }
  }

  lemma {:induction false} InsertCounts(e: Loaded, s: seq<Loaded>)
    ensures multiset(Insert(e, s)) == multiset(s) + multiset{e}
  {
    if s != [] && e.lastUsed > s[0].lastUsed {
      InsertCounts(e, s[1..]);
      assert s == [s[0]] + s[1..];
    }
  }

  lemma {:induction false} ColdestFirstCounts(s: seq<Loaded>)
    ensures multiset(ColdestFirst(s)) == multiset(s)
  {
    if s != [] {
      ColdestFirstCounts(s[1..]);
      InsertCounts(s[0], ColdestFirst(s[1..]));
      assert s == [s[0]] + s[1..];
    }
  }

  ghost predicate Coldest(s: seq<Loaded>) {
    forall i, j :: 0 <= i < j < |s| ==> s[i].lastUsed <= s[j].lastUsed
  }

  ghost function LastUsedAt(t: nat): Loaded -> bool { (e: Loaded) => e.lastUsed == t }

  lemma {:induction false} InsertKeepsOrder(e: Loaded, s: seq<Loaded>)
    requires Coldest(s)
    ensures Coldest(Insert(e, s))
  {
    if s != [] && e.lastUsed > s[0].lastUsed {
      InsertKeepsOrder(e, s[1..]);
      InsertCounts(e, s[1..]);
      var r := Insert(e, s[1..]);
      forall i | 0 <= i < |r| ensures s[0].lastUsed <= r[i].lastUsed {
        assert r[i] in multiset(r);
        assert r[i] == e || r[i] in s[1..];
      }
    }
  }

  lemma {:induction false} InsertKeepsTies(e: Loaded, s: seq<Loaded>, t: nat)
    ensures Keep(Insert(e, s), LastUsedAt(t)) == Keep([e] + s, LastUsedAt(t))
  {
    var p := LastUsedAt(t);
    assert ([e] + s)[1..] == s;
    if s != [] && e.lastUsed > s[0].lastUsed {
      var rest, r := s[1..], Insert(e, s[1..]);
      InsertKeepsTies(e, rest, t);
      assert ([s[0]] + r)[1..] == r;
      assert ([e] + rest)[1..] == rest;
    }
  }

  /** `ColdestFirst` is the stable sort: ordered, a permutation, ties in their old order. */
  lemma {:induction false} ColdestFirstIsStable(s: seq<Loaded>, t: nat)
    ensures Coldest(ColdestFirst(s))
    ensures multiset(ColdestFirst(s)) == multiset(s)
    ensures Keep(ColdestFirst(s), LastUsedAt(t)) == Keep(s, LastUsedAt(t))
  {
    ColdestFirstCounts(s);
    if s != [] {
      ColdestFirstIsStable(s[1..], t);
      InsertKeepsOrder(s[0], ColdestFirst(s[1..]));
      InsertKeepsTies(s[0], ColdestFirst(s[1..]), t);
      var r := ColdestFirst(s[1..]);
      assert ([s[0]] + r)[1..] == r;
    }
  }

  /** What may be unloaded: an idle on-demand entry other than the wanted one. */
  ghost predicate MayBeUnloaded(e: Loaded, wanted: Wanted) {
    e.residency == OnDemand && e.busy == false && e.id != wanted.id
  }

  /** The order holds what may be unloaded, each as often as it is loaded. */
  lemma {:induction false} OrderCount(loaded: seq<Loaded>, wanted: Wanted, x: Loaded)
    ensures multiset(Order(loaded, wanted))[x] ==
            if MayBeUnloaded(x, wanted) then multiset(loaded)[x] else 0
    ensures x in Order(loaded, wanted) <==> MayBeUnloaded(x, wanted) && x in loaded
  {
    ColdestFirstCounts(Keep(loaded, Candidates(wanted)));
    KeepCounts(loaded, Candidates(wanted), x);
    assert x in Order(loaded, wanted) <==> x in multiset(Order(loaded, wanted));
    assert x in loaded <==> x in multiset(loaded);
  }

  /** And it holds them coldest first, entries last used at one time in the order they are loaded in. */
  lemma {:induction false} OrderIsColdestFirst(loaded: seq<Loaded>, wanted: Wanted, t: nat)
    ensures Coldest(Order(loaded, wanted))
    ensures Keep(Order(loaded, wanted), LastUsedAt(t))
         == Keep(loaded, (e: Loaded) => MayBeUnloaded(e, wanted) && e.lastUsed == t)
  {
    ColdestFirstIsStable(Keep(loaded, Candidates(wanted)), t);
    KeepBoth(loaded, Candidates(wanted), LastUsedAt(t), (e: Loaded) => MayBeUnloaded(e, wanted) && e.lastUsed == t);
  }

  lemma {:induction false} KeepBoth(s: seq<Loaded>, p: Loaded -> bool, q: Loaded -> bool, both: Loaded -> bool)
    requires forall e :: both(e) <==> p(e) && q(e)
    ensures Keep(Keep(s, p), q) == Keep(s, both)
  {
    if s != [] {
      KeepBoth(s[1..], p, q, both);
      assert ([s[0]] + Keep(s[1..], p))[1..] == Keep(s[1..], p);
      if !p(s[0]) { assert Keep(s, p) == Keep(s[1..], p); }
    }
  }

  lemma {:induction false} CutCount(s: seq<Loaded>, n: nat, x: Loaded)
    requires n <= |s|
    ensures multiset(s)[x] == multiset(s[..n])[x] + multiset(s[n..])[x]
    ensures x in s[..n] ==> x in s
  {
    assert s == s[..n] + s[n..];
  }

  // ------------------------------------------------------------------- exactness

  /** `gone` and `kept` are a way of splitting what is loaded that unloads only what may be unloaded. */
  ghost predicate Splits(loaded: seq<Loaded>, wanted: Wanted, gone: seq<Loaded>, kept: seq<Loaded>) {
    && multiset(gone) + multiset(kept) == multiset(loaded)
    && forall e :: e in gone ==> MayBeUnloaded(e, wanted)
  }

  /** Both sides have room: what stays plus what is wanted, and what is free plus what goes. */
  ghost predicate Suffices(
    limit: Option<nat>, wanted: Wanted, deviceFree: Option<nat>, gone: seq<Loaded>, kept: seq<Loaded>)
  {
    && (limit.Some? ==> Total(Costs(kept)) + wanted.costMib <= limit.value)
    && (deviceFree.Some? ==> deviceFree.value + Total(OnDevice(gone)) >= wanted.deviceMib)
  }

  ghost predicate CanMakeRoom(
    limit: Option<nat>, loaded: seq<Loaded>, wanted: Wanted, deviceFree: Option<nat>)
  {
    exists gone, kept :: Splits(loaded, wanted, gone, kept) && Suffices(limit, wanted, deviceFree, gone, kept)
  }

  /** A split's sums add up to the whole, so giving `gone` back never saturates. */
  lemma {:induction false} SplitShares(
    limit: Option<nat>, loaded: seq<Loaded>, wanted: Wanted, deviceFree: Option<nat>,
    gone: seq<Loaded>, kept: seq<Loaded>)
    requires Splits(loaded, wanted, gone, kept)
    ensures Share(gone).cost + Share(kept).cost == Share(loaded).cost
    ensures Suffices(limit, wanted, deviceFree, gone, kept) <==>
            RoomOf(limit, loaded, deviceFree).Short(wanted, Share(gone)).None?
  {
    ShareIsTotals(gone);
    ShareIsTotals(kept);
    ShareAppend(gone, kept);
    ShareOfPart(gone + kept, loaded);
    ShareOfPart(loaded, gone + kept);
  }

  /** Cutting the order at `n` is a split. */
  lemma {:induction false} PrefixSplits(loaded: seq<Loaded>, wanted: Wanted, n: nat) returns (kept: seq<Loaded>)
    requires n <= |Order(loaded, wanted)|
    ensures Splits(loaded, wanted, Order(loaded, wanted)[..n], kept)
  {
    hide Order, MayBeUnloaded, Keep;
    var order := Order(loaded, wanted);
    var others: Loaded -> bool := (e: Loaded) => !MayBeUnloaded(e, wanted);
    kept := order[n..] + Keep(loaded, others);
    forall x ensures (multiset(order[..n]) + multiset(kept))[x] == multiset(loaded)[x] {
      KeepCounts(loaded, others, x);
      OrderCount(loaded, wanted, x);
      CutCount(order, n, x);
    }
    forall e | e in order[..n] ensures MayBeUnloaded(e, wanted) {
      CutCount(order, n, e);
      OrderCount(loaded, wanted, e);
    }
  }

  /** What any split unloads is part of the candidates, so it frees no more than all of them. */
  lemma {:induction false} SplitWithinOrder(loaded: seq<Loaded>, wanted: Wanted, gone: seq<Loaded>, kept: seq<Loaded>)
    requires Splits(loaded, wanted, gone, kept)
    ensures Share(gone).cost <= Share(Order(loaded, wanted)).cost
    ensures Share(gone).device <= Share(Order(loaded, wanted)).device
  {
    forall x ensures multiset(gone)[x] <= multiset(Order(loaded, wanted))[x] {
      OrderCount(loaded, wanted, x);
      if x in multiset(gone) { assert x in gone; }
      assert (multiset(gone) + multiset(kept))[x] == multiset(loaded)[x];
    }
    ShareOfPart(gone, Order(loaded, wanted));
  }

  /**
   The decision is exact: an entry that is not loaded and is within the whole
   budget is admitted if and only if some set of idle on-demand entries, once
   unloaded, leaves room for it on the ledger and on the device.
   */
  lemma {:induction false} AdmitIsExact(
    limit: Option<nat>, loaded: seq<Loaded>, wanted: Wanted, deviceFree: Option<nat>)
    requires !AlreadyLoaded(loaded, wanted)
    requires limit.Some? ==> wanted.costMib <= limit.value
    ensures var d := Decide(limit, loaded, wanted, deviceFree);
            (d.Fits? || d.Unload?) <==> CanMakeRoom(limit, loaded, wanted, deviceFree)
  {
    var d := Decide(limit, loaded, wanted, deviceFree);
    var order := Order(loaded, wanted);
    var room := RoomOf(limit, loaded, deviceFree);
    if d.Fits? || d.Unload? {
      var n := if d.Fits? then 0 else Needed(room, wanted, order, 0);
      var kept := PrefixSplits(loaded, wanted, n);
      SplitShares(limit, loaded, wanted, deviceFree, order[..n], kept);
      assert Splits(loaded, wanted, order[..n], kept);
    } else {
      forall gone, kept | Splits(loaded, wanted, gone, kept)
        ensures !Suffices(limit, wanted, deviceFree, gone, kept)
      {
        SplitShares(limit, loaded, wanted, deviceFree, gone, kept);
        SplitWithinOrder(loaded, wanted, gone, kept);
        var n := Needed(room, wanted, order, 0);
        assert order[..|order|] == order;
        var all := PrefixSplits(loaded, wanted, |order|);
        SplitShares(limit, loaded, wanted, deviceFree, order, all);
        assert room.Short(wanted, Share(order[..n])).Some?;
        assert n == |order|;
      }
    }
  }

  /**
   Which of the four answers it is, told from the entries alone: fits as it is,
   fits once something goes, may fit once a reader is done, or does not.
   */
  lemma {:induction false} TheAnswer(limit: Option<nat>, loaded: seq<Loaded>, wanted: Wanted, deviceFree: Option<nat>)
    ensures var d := Decide(limit, loaded, wanted, deviceFree);
            var there := exists e :: e in loaded && e.id == wanted.id;
            var over := limit.Some? && wanted.costMib > limit.value;
            var asItIs := Suffices(limit, wanted, deviceFree, [], loaded);
            var later := exists e :: e in loaded && e.residency == OnDemand && e.busy && e.id != wanted.id;
            var able := CanMakeRoom(limit, loaded, wanted, deviceFree);
            && (d.Fits? <==> there || asItIs)
            && (d.Unload? <==> !there && !asItIs && able)
            && (d.Blocked? <==> !there && !over && !able && later)
            && (d.Refuse? <==> !there && !able && (over || !later))
  {
    hide Order, Needed;
    var none: seq<Loaded> := [];
    ShareIsTotals(loaded);
    assert Splits(loaded, wanted, none, loaded);
    SplitShares(limit, loaded, wanted, deviceFree, none, loaded);
    if limit.Some? && wanted.costMib > limit.value {
      assert forall gone, kept :: !Suffices(limit, wanted, deviceFree, gone, kept);
    } else if !AlreadyLoaded(loaded, wanted) {
      AdmitIsExact(limit, loaded, wanted, deviceFree);
    }
    assert SomeFreesItself(loaded, wanted) <==>
           exists e :: e in loaded && e.residency == OnDemand && e.busy && e.id != wanted.id;
  }

  /** What stays whatever is unloaded. */
  ghost function Staying(loaded: seq<Loaded>, wanted: Wanted): seq<Loaded> {
    Keep(loaded, (e: Loaded) => !MayBeUnloaded(e, wanted))
  }

  /** Why there is no room: which wording, told from what stays whatever is unloaded and from the residents. */
  lemma {:induction false} TheReason(limit: Option<nat>, loaded: seq<Loaded>, wanted: Wanted, deviceFree: Option<nat>)
    requires var d := Decide(limit, loaded, wanted, deviceFree); d.Blocked? || d.Refuse?
    ensures var why := Decide(limit, loaded, wanted, deviceFree).why;
            var over := limit.Some? && wanted.costMib > limit.value;
            var ledger := limit.Some? && Total(Costs(Staying(loaded, wanted))) + wanted.costMib > limit.value;
            var reserved := limit.Some? && Total(Costs(Keep(loaded, IsResident))) + wanted.costMib > limit.value;
            && (why.OverBudget? <==> over)
            && (why.NeverLoads? <==> !over && ledger && reserved)
            && (why.LedgerHeld? <==> !over && ledger && !reserved)
            && (why.DeviceHeld? <==> !over && !ledger)
  {
    hide Needed, Keep, ColdestFirst;
    if !(limit.Some? && wanted.costMib > limit.value) {
      var order, staying := Order(loaded, wanted), Staying(loaded, wanted);
      ShortAfterAll(limit, loaded, wanted, deviceFree);
      forall x ensures (multiset(order) + multiset(staying))[x] == multiset(loaded)[x] {
        KeepCounts(loaded, (e: Loaded) => !MayBeUnloaded(e, wanted), x);
        OrderCount(loaded, wanted, x);
      }
      forall e | e in order ensures MayBeUnloaded(e, wanted) { OrderCount(loaded, wanted, e); }
      SplitShares(limit, loaded, wanted, deviceFree, order, staying);
      ShareIsTotals(staying);
      ShareIsTotals(Keep(loaded, IsResident));
    }
  }

  /** One idle on-demand entry and no limit: it goes for the device's sake alone, and for its own share there. */
  lemma {:induction false} OneIdleEntry(x: Loaded, wanted: Wanted, free: nat)
    requires x.residency == OnDemand && !x.busy && x.id != wanted.id
    ensures Decide(None, [x], wanted, Some(free))
         == if wanted.deviceMib <= free then Fits
            else if wanted.deviceMib <= free + x.deviceMib then Unload([x.id])
            else Refuse(DeviceHeld)
  {
    var order := Order([x], wanted);
    assert Keep([x], Candidates(wanted)) == [x] + [] && ColdestFirst([x]) == Insert(x, []) && order == [x];
    assert Share(order[..0]) == Freed(0, 0) && order[..1] == [x] && [x][1..] == [];
    assert Share([x]) == Freed(x.costMib, x.deviceMib);
    assert Ids([x]) == [x.id];
  }

  /**
   What is unloaded is a nonempty prefix of the stable coldest-first order of
   the candidates that suffices, and no shorter prefix does: its last element
   cannot be dropped.
   */
  lemma {:induction false} UnloadIsLeastColdPrefix(
    limit: Option<nat>, loaded: seq<Loaded>, wanted: Wanted, deviceFree: Option<nat>)
    requires Decide(limit, loaded, wanted, deviceFree).Unload?
    ensures var ids := Decide(limit, loaded, wanted, deviceFree).ids;
            var order := Order(loaded, wanted);
            var room := RoomOf(limit, loaded, deviceFree);
            && 0 < |ids| <= |order|
            && ids == Ids(order[..|ids|]) && Coldest(order)
            && room.Short(wanted, Share(order[..|ids|])).None?
            && (forall k :: 0 <= k < |ids| ==> room.Short(wanted, Share(order[..k])).Some?)
            && (forall id :: id in ids ==>
                  exists e :: e in loaded && e.id == id && MayBeUnloaded(e, wanted))
  {
    var order := Order(loaded, wanted);
    var ids := Decide(limit, loaded, wanted, deviceFree).ids;
    OrderIsColdestFirst(loaded, wanted, 0);
    assert order[..0] == [];
    forall id | id in ids
      ensures exists e :: e in loaded && e.id == id && MayBeUnloaded(e, wanted)
    {
      var i :| 0 <= i < |ids| && ids[i] == id;
      OrderCount(loaded, wanted, order[i]);
    }
  }

  // --------------------------------------------------------------- acting on it

  ghost predicate DistinctIds(s: seq<Loaded>) {
    forall i, j :: 0 <= i < j < |s| ==> s[i].id != s[j].id
  }

  ghost function Outside(ids: seq<EntryId>): Loaded -> bool { (e: Loaded) => e.id !in ids }

  /** With distinct ids, filtering out the first `n` of the order leaves exactly the others. */
  lemma {:induction false} UnloadingSplits(loaded: seq<Loaded>, wanted: Wanted, n: nat)
    requires DistinctIds(loaded) && n <= |Order(loaded, wanted)|
    ensures var gone := Order(loaded, wanted)[..n];
            Splits(loaded, wanted, gone, Keep(loaded, Outside(Ids(gone))))
  {
    var gone := Order(loaded, wanted)[..n];
    var left := Keep(loaded, Outside(Ids(gone)));
    forall x ensures (multiset(gone) + multiset(left))[x] == multiset(loaded)[x] {
      UnloadingCount(loaded, wanted, n, x);
    }
    forall e | e in gone ensures MayBeUnloaded(e, wanted) {
      PrefixIsOfCandidates(loaded, wanted, n, e);
    }
  }

  lemma {:induction false} PrefixIsOfCandidates(loaded: seq<Loaded>, wanted: Wanted, n: nat, e: Loaded)
    requires n <= |Order(loaded, wanted)| && e in Order(loaded, wanted)[..n]
    ensures MayBeUnloaded(e, wanted) && e in loaded
  {
    CutCount(Order(loaded, wanted), n, e);
    OrderCount(loaded, wanted, e);
  }

  lemma {:induction false} UnloadingCount(loaded: seq<Loaded>, wanted: Wanted, n: nat, x: Loaded)
    requires DistinctIds(loaded) && n <= |Order(loaded, wanted)|
    ensures var gone := Order(loaded, wanted)[..n];
            multiset(gone)[x] + multiset(Keep(loaded, Outside(Ids(gone))))[x] == multiset(loaded)[x]
  {
    var order := Order(loaded, wanted);
    var gone := order[..n];
    KeepCounts(loaded, Outside(Ids(gone)), x);
    DistinctCounts(loaded, x);
    OrderCount(loaded, wanted, x);
    CutCount(order, n, x);
    if x in gone {
      var i :| 0 <= i < |gone| && gone[i] == x;
      assert Ids(gone)[i] == x.id;
      assert x in multiset(gone);
    } else if x.id in Ids(gone) {
      var i :| 0 <= i < |gone| && gone[i].id == x.id;
      CutCount(order, n, gone[i]);
      OrderCount(loaded, wanted, gone[i]);
      if x in loaded { SameId(loaded, gone[i], x); }
    }
  }

  /** What stays, once the named entries are gone, and what their going gives back. */
  lemma {:induction false} AfterUnloadThereIsRoom(
    limit: Option<nat>, loaded: seq<Loaded>, wanted: Wanted, deviceFree: Option<nat>)
    requires DistinctIds(loaded)
    requires Decide(limit, loaded, wanted, deviceFree).Unload?
    ensures var ids := Decide(limit, loaded, wanted, deviceFree).ids;
            var order := Order(loaded, wanted);
            && |ids| <= |order|
            && Splits(loaded, wanted, order[..|ids|], Keep(loaded, Outside(ids)))
            && Suffices(limit, wanted, deviceFree, order[..|ids|], Keep(loaded, Outside(ids)))
  {
    var ids := Decide(limit, loaded, wanted, deviceFree).ids;
    UnloadIsLeastColdPrefix(limit, loaded, wanted, deviceFree);
    UnloadingSplits(loaded, wanted, |ids|);
    SplitShares(limit, loaded, wanted, deviceFree, Order(loaded, wanted)[..|ids|], Keep(loaded, Outside(ids)));
  }

  /**
   Doing what an unload says is enough: with the named entries gone and their
   device share given back, the same request fits.
   */
  lemma {:induction false} AfterUnloadItFits(
    limit: Option<nat>, loaded: seq<Loaded>, wanted: Wanted, deviceFree: Option<nat>)
    requires DistinctIds(loaded)
    requires Decide(limit, loaded, wanted, deviceFree).Unload?
    ensures var ids := Decide(limit, loaded, wanted, deviceFree).ids;
            var freed := Share(Order(loaded, wanted)[..Min(|ids|, |Order(loaded, wanted)|)]);
            Decide(limit, Keep(loaded, Outside(ids)), wanted,
              if deviceFree.Some? then Some(deviceFree.value + freed.device) else None) == Fits
  {
    hide Order, Needed, Splits, Keep, MayBeUnloaded;
    AfterUnloadThereIsRoom(limit, loaded, wanted, deviceFree);
    var ids := Decide(limit, loaded, wanted, deviceFree).ids;
    var left := Keep(loaded, Outside(ids));
    ShareIsTotals(left);
    ShareIsTotals(Order(loaded, wanted)[..|ids|]);
    forall i | 0 <= i < |left| ensures left[i].id != wanted.id {
      KeepCounts(loaded, Outside(ids), left[i]);
      assert left[i] in multiset(left);
      assert left[i] in loaded;
    }
  }

  lemma {:induction false} DistinctCounts(s: seq<Loaded>, x: Loaded)
    requires DistinctIds(s)
    ensures multiset(s)[x] <= 1
  {
    if s != [] {
      assert s == [s[0]] + s[1..];
      assert DistinctIds(s[1..]);
      DistinctCounts(s[1..], x);
    }
  }

  lemma {:induction false} SameId(s: seq<Loaded>, a: Loaded, b: Loaded)
    requires DistinctIds(s) && a in s && b in s && a.id == b.id
    ensures a == b
  {}

  // ------------------------------------------------------- refusing and blocking

  ghost function Reserved(loaded: seq<Loaded>): nat { Share(Keep(loaded, IsResident)).cost }

  const IsOnDemand: Loaded -> bool := (e: Loaded) => e.residency.OnDemand?

  /** Residents are never unloaded, so any split leaves them all. */
  lemma {:induction false} ResidentsStay(loaded: seq<Loaded>, wanted: Wanted, gone: seq<Loaded>, kept: seq<Loaded>)
    requires Splits(loaded, wanted, gone, kept)
    ensures Reserved(loaded) <= Share(kept).cost
    ensures Share(gone).device <= Share(Keep(loaded, IsOnDemand)).device
  {
    forall x ensures multiset(Keep(loaded, IsResident))[x] <= multiset(kept)[x]
      && multiset(gone)[x] <= multiset(Keep(loaded, IsOnDemand))[x]
    {
      KeepCounts(loaded, IsResident, x);
      KeepCounts(loaded, IsOnDemand, x);
      assert (multiset(gone) + multiset(kept))[x] == multiset(loaded)[x];
      if x in multiset(gone) { assert x in gone; }
    }
    ShareOfPart(Keep(loaded, IsResident), kept);
    ShareOfPart(gone, Keep(loaded, IsOnDemand));
  }

  /** With nothing left to wait for, the candidates are all the on-demand entries. */
  lemma {:induction false} AllIdleSplit(loaded: seq<Loaded>, wanted: Wanted)
    requires !AlreadyLoaded(loaded, wanted) && !SomeFreesItself(loaded, wanted)
    ensures Splits(loaded, wanted, Keep(loaded, IsOnDemand), Keep(loaded, IsResident))
  {
    forall x ensures (multiset(Keep(loaded, IsOnDemand)) + multiset(Keep(loaded, IsResident)))[x]
                     == multiset(loaded)[x]
    {
      KeepCounts(loaded, IsResident, x);
      KeepCounts(loaded, IsOnDemand, x);
    }
    forall e | e in Keep(loaded, IsOnDemand) ensures MayBeUnloaded(e, wanted) {
      KeepCounts(loaded, IsOnDemand, e);
      assert e in multiset(Keep(loaded, IsOnDemand));
      assert e in loaded;
      var i :| 0 <= i < |loaded| && loaded[i] == e;
      assert !FreesItself(loaded[i], wanted);
    }
  }

  /** The residents and the wanted entry fit, and the device could be emptied enough. */
  ghost predicate FitsBesideResidents(
    limit: Option<nat>, loaded: seq<Loaded>, wanted: Wanted, deviceFree: Option<nat>)
  {
    && (limit.Some? ==> Reserved(loaded) + wanted.costMib <= limit.value)
    && (deviceFree.Some? ==>
          deviceFree.value + Share(Keep(loaded, IsOnDemand)).device >= wanted.deviceMib)
  }

  lemma {:induction false} IdleIsExact(limit: Option<nat>, loaded: seq<Loaded>, wanted: Wanted, deviceFree: Option<nat>)
    requires !AlreadyLoaded(loaded, wanted) && !SomeFreesItself(loaded, wanted)
    ensures CanMakeRoom(limit, loaded, wanted, deviceFree)
            <==> FitsBesideResidents(limit, loaded, wanted, deviceFree)
  {
    AllIdleSplit(loaded, wanted);
    ShareIsTotals(Keep(loaded, IsOnDemand));
    ShareIsTotals(Keep(loaded, IsResident));
    forall gone, kept | Splits(loaded, wanted, gone, kept)
      ensures Suffices(limit, wanted, deviceFree, gone, kept)
              ==> FitsBesideResidents(limit, loaded, wanted, deviceFree)
    {
      ResidentsStay(loaded, wanted, gone, kept);
      ShareIsTotals(gone);
      ShareIsTotals(kept);
    }
  }

  lemma {:induction false} OrderIsAllOnDemand(loaded: seq<Loaded>, wanted: Wanted)
    requires !AlreadyLoaded(loaded, wanted) && !SomeFreesItself(loaded, wanted)
    ensures Share(Order(loaded, wanted)).device == Share(Keep(loaded, IsOnDemand)).device
    ensures Share(loaded).cost == Share(Order(loaded, wanted)).cost + Reserved(loaded)
  {
    var onDemand, residents := Keep(loaded, IsOnDemand), Keep(loaded, IsResident);
    AllIdleSplit(loaded, wanted);
    SplitShares(None, loaded, wanted, None, onDemand, residents);
    SplitWithinOrder(loaded, wanted, onDemand, residents);
    var order := Order(loaded, wanted);
    var kept := PrefixSplits(loaded, wanted, |order|);
    assert order[..|order|] == order;
    SplitShares(None, loaded, wanted, None, order, kept);
    ResidentsStay(loaded, wanted, order, kept);
  }

  /** When the loop came up short, everything unloadable had already been given back. */
  lemma {:induction false} ShortAfterAll(
    limit: Option<nat>, loaded: seq<Loaded>, wanted: Wanted, deviceFree: Option<nat>)
    requires var d := Decide(limit, loaded, wanted, deviceFree);
             d.Blocked? || (d.Refuse? && d.why != OverBudget)
    ensures var d := Decide(limit, loaded, wanted, deviceFree);
            var room := RoomOf(limit, loaded, deviceFree);
            var short := room.Short(wanted, Share(Order(loaded, wanted)));
            short.Some? && d.why == room.Refusal(short.value, wanted, loaded)
  {
    var order := Order(loaded, wanted);
    assert order[..|order|] == order;
  }

  /**
   A refusal of the ledger is always worded as permanent, and it is: the
   residents and the wanted entry do not fit the budget together.
   */
  lemma {:induction false} LedgerRefusalIsWordedPermanent(
    limit: Option<nat>, loaded: seq<Loaded>, wanted: Wanted, deviceFree: Option<nat>)
    requires Decide(limit, loaded, wanted, deviceFree).Refuse?
    ensures var why := Decide(limit, loaded, wanted, deviceFree).why;
            && why != LedgerHeld
            && (why.NeverLoads? <==> limit.Some? && wanted.costMib <= limit.value
                                     && Reserved(loaded) + wanted.costMib > limit.value)
            && (why.DeviceHeld? ==>
                  && deviceFree.Some?
                  && deviceFree.value + Share(Keep(loaded, IsOnDemand)).device < wanted.deviceMib)
  {
    var why := Decide(limit, loaded, wanted, deviceFree).why;
    if why != OverBudget {
      ShortAfterAll(limit, loaded, wanted, deviceFree);
      OrderIsAllOnDemand(loaded, wanted);
    }
  }

  /** Every resident of `before` is still loaded in `after`, at no lower cost. */
  ghost predicate KeepsResidents(before: seq<Loaded>, after: seq<Loaded>) {
    forall e :: e in before && e.residency.Resident? ==>
      exists f :: f in after && f.id == e.id && f.residency.Resident? && e.costMib <= f.costMib
  }

  lemma {:induction false} KeptResidentsCost(before: seq<Loaded>, after: seq<Loaded>)
    requires DistinctIds(before) && DistinctIds(after) && KeepsResidents(before, after)
    ensures Reserved(before) <= Reserved(after)
  {
    if before != [] {
      var e, rest := before[0], before[1..];
      assert DistinctIds(rest) && before == [e] + rest;
      if e.residency.OnDemand? {
        assert KeepsResidents(rest, after);
        assert Keep(before, IsResident) == Keep(rest, IsResident);
        KeptResidentsCost(rest, after);
      } else {
        var f :| f in after && f.id == e.id && f.residency.Resident? && e.costMib <= f.costMib;
        var j :| 0 <= j < |after| && after[j] == f;
        var others := after[..j] + after[j + 1..];
        OthersKeepResidents(before, after, j);
        KeptResidentsCost(rest, others);
        RemoveResident(after, j);
        assert ([e] + Keep(rest, IsResident))[1..] == Keep(rest, IsResident);
      }
    }
  }

  /** Taking a resident and its later self out leaves the rest still kept. */
  lemma {:induction false} OthersKeepResidents(before: seq<Loaded>, after: seq<Loaded>, j: nat)
    requires DistinctIds(before) && DistinctIds(after) && KeepsResidents(before, after)
    requires before != [] && j < |after| && after[j].id == before[0].id
    ensures DistinctIds(after[..j] + after[j + 1..])
    ensures KeepsResidents(before[1..], after[..j] + after[j + 1..])
  {}

  lemma {:induction false} RemoveResident(s: seq<Loaded>, j: nat)
    requires j < |s| && s[j].residency.Resident?
    ensures Reserved(s) == s[j].costMib + Reserved(s[..j] + s[j + 1..])
  {
    var others := s[..j] + s[j + 1..];
    var a, b := Keep(s, IsResident), [s[j]] + Keep(others, IsResident);
    assert s == s[..j] + ([s[j]] + s[j + 1..]);
    forall x ensures multiset(a)[x] == multiset(b)[x] {
      KeepCounts(s, IsResident, x);
      KeepCounts(others, IsResident, x);
    }
    ShareOfPart(a, b);
    ShareOfPart(b, a);
  }

  /**
   A ledger refusal is permanent: as long as those residents stay, at no lower
   cost, and the wanted entry is not loaded, no set of on-demand entries, no
   busy flags and no device reading make admission answer otherwise.
   */
  lemma {:induction false} LedgerRefusalIsPermanent(
    limit: Option<nat>, loaded: seq<Loaded>, wanted: Wanted, deviceFree: Option<nat>,
    later: seq<Loaded>, laterFree: Option<nat>)
    requires var d := Decide(limit, loaded, wanted, deviceFree);
             d.Refuse? && (d.why.NeverLoads? || d.why.OverBudget?)
    requires DistinctIds(loaded) && DistinctIds(later)
    requires KeepsResidents(loaded, later) && !AlreadyLoaded(later, wanted)
    ensures var d := Decide(limit, later, wanted, laterFree);
            !d.Fits? && !d.Unload?
  {
    hide Order, Needed, DistinctIds, KeepsResidents;
    LedgerRefusalIsWordedPermanent(limit, loaded, wanted, deviceFree);
    KeptResidentsCost(loaded, later);
    if limit.Some? && wanted.costMib <= limit.value {
      AdmitIsExact(limit, later, wanted, laterFree);
      forall gone, kept | Splits(later, wanted, gone, kept)
        ensures !Suffices(limit, wanted, laterFree, gone, kept)
      {
        ShareIsTotals(kept);
        ResidentsStay(later, wanted, gone, kept);
      }
    }
  }

  /** The same entries with nothing reading from any of them. */
  function Idled(loaded: seq<Loaded>): seq<Loaded> {
    if loaded == [] then [] else [loaded[0].(busy := false)] + Idled(loaded[1..])
  }

  lemma {:induction false} IdledKeeps(loaded: seq<Loaded>, wanted: Wanted)
    ensures Share(Idled(loaded)) == Share(loaded)
    ensures Reserved(Idled(loaded)) == Reserved(loaded)
    ensures Share(Keep(Idled(loaded), IsOnDemand)) == Share(Keep(loaded, IsOnDemand))
    ensures |Idled(loaded)| == |loaded|
    ensures forall i :: 0 <= i < |loaded| ==> Idled(loaded)[i] == loaded[i].(busy := false)
  {
    if loaded != [] {
      var rest := loaded[1..];
      IdledKeeps(rest, wanted);
      var idle := [loaded[0].(busy := false)];
      assert Idled(loaded) == idle + Idled(rest) && (idle + Idled(rest))[1..] == Idled(rest);
      var r, o := Keep(Idled(rest), IsResident), Keep(Idled(rest), IsOnDemand);
      assert (idle + r)[1..] == r && (idle + o)[1..] == o;
      assert ([loaded[0]] + Keep(rest, IsResident))[1..] == Keep(rest, IsResident);
      assert ([loaded[0]] + Keep(rest, IsOnDemand))[1..] == Keep(rest, IsOnDemand);
      if loaded[0].residency.Resident? {
        assert Keep(loaded, IsOnDemand) == Keep(rest, IsOnDemand) && Keep(Idled(loaded), IsOnDemand) == o;
      } else {
        assert Keep(loaded, IsResident) == Keep(rest, IsResident) && Keep(Idled(loaded), IsResident) == r;
      }
    }
  }

  /**
   When waiting helps: after `Blocked`, the moment every reader is done the
   answer is an unload if and only if the wanted entry fits beside the
   residents and the device could be emptied enough; otherwise it is a refusal.
   */
  lemma {:induction false} BlockedIsWorthWaitingFor(
    limit: Option<nat>, loaded: seq<Loaded>, wanted: Wanted, deviceFree: Option<nat>)
    requires Decide(limit, loaded, wanted, deviceFree).Blocked?
    ensures var d := Decide(limit, Idled(loaded), wanted, deviceFree);
            if FitsBesideResidents(limit, loaded, wanted, deviceFree) then d.Unload? else d.Refuse?
  {
    var idled := Idled(loaded);
    IdledKeeps(loaded, wanted);
    assert !AlreadyLoaded(idled, wanted) && !SomeFreesItself(idled, wanted);
    IdleIsExact(limit, idled, wanted, deviceFree);
    AdmitIsExact(limit, idled, wanted, deviceFree);
  }

  /** `Blocked` alone promises nothing: here waiting can only end in a refusal. */
  lemma {:induction false} BlockedForAPermanentShortage()
    ensures var loaded := [Loaded(0, 900, 900, Resident, false, 0), Loaded(1, 50, 50, OnDemand, true, 0)];
            var wanted := Wanted(2, 200, 200);
            && Decide(Some(1000), loaded, wanted, None).Blocked?
            && Decide(Some(1000), Idled(loaded), wanted, None).Refuse?
            && !FitsBesideResidents(Some(1000), loaded, wanted, None)
  {
    var a, b := Loaded(0, 900, 900, Resident, false, 0), Loaded(1, 50, 50, OnDemand, true, 0);
    var loaded, wanted := [a, b], Wanted(2, 200, 200);
    assert loaded[1..] == [b] && [b][1..] == [];
    assert Keep([b], IsResident) == [] && Keep(loaded, IsResident) == [a];
    assert Share([b]) == Freed(50, 50) && Share(loaded) == Freed(950, 950);
    assert Keep([b], Candidates(wanted)) == [] && Keep(loaded, Candidates(wanted)) == [];
    assert Order(loaded, wanted) == [];
    assert FreesItself(loaded[1], wanted);
    assert Share([a]) == Freed(900, 900);
    BlockedIsWorthWaitingFor(Some(1000), loaded, wanted, None);
  }

  /**
   The figure the permanent wording names, in a refusal or in a wait, is what
   the residents leave exactly when they are within the budget; above it the
   subtraction wraps.
   */
  lemma {:induction false} LeftIsWhatResidentsLeave(
    limit: nat, loaded: seq<Loaded>, wanted: Wanted, deviceFree: Option<nat>)
    requires var d := Decide(Some(limit), loaded, wanted, deviceFree); (d.Refuse? || d.Blocked?) && d.why.NeverLoads?
    requires limit < 0x1_0000_0000 && Reserved(loaded) < U64_RANGE
    ensures var left := Decide(Some(limit), loaded, wanted, deviceFree).why.left;
            && (left == limit - Reserved(loaded) <==> Reserved(loaded) <= limit)
            && (Reserved(loaded) > limit ==> left == U64_RANGE - (Reserved(loaded) - limit))
  {}

  const OVERSIZED := Loaded(0, 1200, 1200, Resident, false, 0)

  /** One resident measured above the whole budget is enough for that, in a refusal and in a wait. */
  lemma {:induction false} TheFigureCanWrap()
    ensures Decide(Some(1000), [OVERSIZED], Wanted(1, 100, 100), None) == Refuse(NeverLoads(U64_RANGE - 200))
    ensures Decide(Some(1000), [OVERSIZED, Loaded(2, 50, 50, OnDemand, true, 0)], Wanted(1, 100, 100), None)
         == Blocked(NeverLoads(U64_RANGE - 200))
  {
    hide Decide;
    var busy := Loaded(2, 50, 50, OnDemand, true, 0);
    WrapsBeside([]);
    WrapsBeside([busy]);
    assert [OVERSIZED] + [] == [OVERSIZED] && [OVERSIZED] + [busy] == [OVERSIZED, busy];
  }

  lemma {:induction false} WrapsBeside(others: seq<Loaded>)
    requires |others| <= 1
    requires forall i :: 0 <= i < |others| ==> others[i].residency.OnDemand? && others[i].busy && others[i].id > 1
    ensures Decide(Some(1000), [OVERSIZED] + others, Wanted(1, 100, 100), None)
         == if others == [] then Refuse(NeverLoads(U64_RANGE - 200)) else Blocked(NeverLoads(U64_RANGE - 200))
  {
    hide Order, Keep;
    var loaded, wanted := [OVERSIZED] + others, Wanted(1, 100, 100);
    NothingToUnload(OVERSIZED, others, wanted);
    assert !AlreadyLoaded(loaded, wanted);
    assert others != [] ==> FreesItself(loaded[1], wanted);
    assert SomeFreesItself(loaded, wanted) <==> others != [];
    var order: seq<Loaded> := [];
    assert order[..0] == [];
    assert RoomOf(Some(1000), loaded, None).Refusal(LedgerShort, wanted, loaded) == NeverLoads(U64_RANGE - 200);
  }

  lemma {:induction false} NothingToUnload(resident: Loaded, others: seq<Loaded>, wanted: Wanted)
    requires resident.residency.Resident? && |others| <= 1
    requires forall i :: 0 <= i < |others| ==> others[i].residency.OnDemand? && others[i].busy
    ensures var loaded := [resident] + others;
            && Order(loaded, wanted) == [] && Reserved(loaded) == resident.costMib
            && Share(loaded).cost >= resident.costMib
  {
    var loaded := [resident] + others;
    assert loaded[1..] == others && [resident] + [] == [resident];
    assert others != [] ==> others[1..] == [];
    var none: seq<Loaded> := [];
    assert none + none == none;
    assert Keep(others, Candidates(wanted)) == none && !Candidates(wanted)(resident);
    assert Keep(loaded, Candidates(wanted)) == none + Keep(others, Candidates(wanted));
    assert Keep(others, IsResident) == none;
    assert Keep(loaded, IsResident) == [resident] + Keep(others, IsResident);
    assert Share([resident]).cost == resident.costMib by { assert [resident][1..] == []; }
  }

  /** No sum here leaves 64 bits for as many models, and as large, as a machine can hold. */
  lemma {:induction false} SumsFitIn64Bits(loaded: seq<Loaded>)
    requires forall e :: e in loaded ==> e.costMib < 0x100_0000_0000 && e.deviceMib < 0x100_0000_0000
    ensures Share(loaded).cost <= |loaded| * 0x100_0000_0000
    ensures Share(loaded).device <= |loaded| * 0x100_0000_0000
    ensures |loaded| <= 0x10_0000 ==> Share(loaded).cost < U64_RANGE && Share(loaded).device < U64_RANGE
  {
    if loaded != [] {
      SumsFitIn64Bits(loaded[1..]);
    }
  }
}

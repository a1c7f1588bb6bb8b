/**
 The idle window (src/idle.rs): `Expired` computes the names, and
 `ExpiredNamesTheStale` says that they are exactly those of the stale entries.
 */
module Idle {
  import opened Wrappers
  import opened Admission
  import opened AdmissionLaws

  /** `Instant::duration_since`, which saturates. */
  function Elapsed(now: nat, since: nat): nat { if since <= now then now - since else 0 }

  predicate Expires(e: Loaded, now: nat, window: nat) {
    e.residency.OnDemand? && !e.busy && Elapsed(now, e.lastUsed) >= window
  }

  function Expiring(now: nat, window: nat): Loaded -> bool { (e: Loaded) => Expires(e, now, window) }

  /** `IdleWindow::expired`: the identifiers to unload, coldest first. */
  function Expired(window: Option<nat>, loaded: seq<Loaded>, now: nat): seq<EntryId> {
    match window
    case None => []
    case Some(duration) => Ids(ExpiredOrder(loaded, now, duration))
  }

  function ExpiredOrder(loaded: seq<Loaded>, now: nat, window: nat): seq<Loaded> {
    ColdestFirst(Keep(loaded, Expiring(now, window)))
  }

  lemma {:induction false} ExpiredOrderMember(loaded: seq<Loaded>, now: nat, window: nat, e: Loaded)
    ensures e in ExpiredOrder(loaded, now, window) <==> e in loaded && Expires(e, now, window)
  {
    var order := ExpiredOrder(loaded, now, window);
    ColdestFirstCounts(Keep(loaded, Expiring(now, window)));
    KeepCounts(loaded, Expiring(now, window), e);
    assert e in order <==> e in multiset(order);
    assert e in loaded <==> e in multiset(loaded);
  }

  /** On demand, not read from, and last used a window ago or longer. */
  ghost predicate UnusedFor(e: Loaded, now: nat, window: nat) {
    e.residency == OnDemand && !e.busy && (e.lastUsed + window <= now || window == 0)
  }

  lemma {:induction false} UnusedExpires(now: nat, window: nat)
    ensures forall e :: UnusedFor(e, now, window) <==> Expires(e, now, window)
  {}

  /** Exactly the idle on-demand entries unused for the window are named, coldest first. */
  lemma {:induction false} ExpiredNamesTheStale(window: nat, loaded: seq<Loaded>, now: nat, id: EntryId)
    ensures Expired(Some(window), loaded, now) == Ids(ExpiredOrder(loaded, now, window))
    ensures Coldest(ExpiredOrder(loaded, now, window))
    ensures id in Expired(Some(window), loaded, now) <==>
            exists e :: e in loaded && e.id == id && UnusedFor(e, now, window)
  {
    UnusedExpires(now, window);
    var order := ExpiredOrder(loaded, now, window);
    ColdestFirstIsStable(Keep(loaded, Expiring(now, window)), 0);
    if id in Ids(order) {
      var i :| 0 <= i < |order| && order[i].id == id;
      ExpiredOrderMember(loaded, now, window, order[i]);
    }
    if e :| e in loaded && e.id == id && Expires(e, now, window) {
      ExpiredOrderMember(loaded, now, window, e);
      var i :| 0 <= i < |order| && order[i] == e;
      assert Ids(order)[i] == id;
    }
  }
}

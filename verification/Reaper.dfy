/**
 The thread that unloads what has gone idle (src/proxy/reaper.rs), with its
 deadlines, and the hold time they promise.  Times are in nanoseconds.
 */
module Reaper {
  import opened Wrappers
  import opened Admission
  import opened Idle

  const MIN_INTERVAL: nat := 100_000_000

  /** Half the window, and no less than a tenth of a second. */
  function Interval(window: nat): nat { Max(window / 2, MIN_INTERVAL) }

  /** One sweep: when it was due, when it started and when it ended. */
  datatype Tick = Tick(deadline: nat, start: nat, end: nat)

  /** The ticks of a reaper that began at `began` and whose sweeps take `took`. */
  function Ticks(interval: nat, began: nat, took: seq<nat>): (ticks: seq<Tick>)
    ensures |ticks| == |took|
  {
    if took == [] then []
    else
      var before := Ticks(interval, began, took[..|took| - 1]);
      before + [NextTick(interval, began, before, took[|took| - 1])]
  }

  /** When the sweep after these starts: at its deadline, or once the last one is over. */
  function NextStart(window: nat, began: nat, ticks: seq<Tick>): nat {
    Max(began + (|ticks| + 1) * Interval(window), if ticks == [] then began else ticks[|ticks| - 1].end)
  }

  function NextTick(interval: nat, began: nat, before: seq<Tick>, took: nat): Tick {
    var deadline, free :=
      if before == [] then began + interval else before[|before| - 1].deadline + interval,
      if before == [] then began else before[|before| - 1].end;
    var start := Max(deadline, free);
    Tick(deadline, start, start + took)
  }

  /**
   `run`: sweep at every deadline until the router is gone, or until the stop
   signal, which ends a wait at once.  `took` says how long each sweep takes,
   and the router is gone once it is used up; waking is taken to be immediate.
   Every sweep that would start before the signal is made, and none after it.
   */
  method Run(window: Option<nat>, began: nat, took: seq<nat>, stopped: Option<nat>) returns (ticks: seq<Tick>)
    ensures window.None? ==> ticks == []
    ensures window.Some? ==>
              && |ticks| <= |took| && ticks == Ticks(Interval(window.value), began, took[..|ticks|])
              && (|ticks| < |took| ==> stopped.Some? && stopped.value <= NextStart(window.value, began, ticks))
    ensures forall k :: 0 <= k < |ticks| && stopped.Some? ==> ticks[k].start < stopped.value
  {
    hide Interval;
    ticks := [];
    var now := began;
    var deadline: Option<nat> := None;
    var n := 0;
    while n < |took|
      invariant 0 <= n <= |took| && n == |ticks|
      invariant n > 0 ==> window.Some?
      invariant window.Some? ==> ticks == Ticks(Interval(window.value), began, took[..n])
      invariant now == if ticks == [] then began else ticks[|ticks| - 1].end
      invariant deadline == if ticks == [] then None else Some(ticks[|ticks| - 1].deadline)
      invariant forall k :: 0 <= k < |ticks| && stopped.Some? ==> ticks[k].start < stopped.value
    {
      if window.None? {
        return;
      }
      var interval := Interval(window.value);
      var next := (if deadline.Some? then deadline.value else now) + interval;
      var woken := Max(now, next);
      if stopped.Some? && stopped.value <= woken {
        TheNextDeadline(interval, began, took[..n]);
        return;
      }
      deadline := Some(next);
      assert took[..n + 1][..n] == took[..n];
      ticks := ticks + [Tick(next, woken, woken + took[n])];
      now := woken + took[n];
      n := n + 1;
    }
  }

  /** The deadlines do not drift, and sweeps start at most an interval, or one sweep, apart. */
  lemma {:induction false} DeadlinesDoNotDrift(interval: nat, began: nat, took: seq<nat>, k: nat)
    requires k < |took|
    ensures var ticks := Ticks(interval, began, took);
            && ticks[k].deadline == began + (k + 1) * interval
            && ticks[k].deadline <= ticks[k].start
            && ticks[k].end == ticks[k].start + took[k]
            && (k > 0 ==> ticks[k - 1].end <= ticks[k].start
                          && ticks[k].start <= ticks[k - 1].start + Max(interval, took[k - 1]))
  {
    hide Ticks;
    OneTickMore(interval, began, took);
    var before := took[..|took| - 1];
    if k < |took| - 1 {
      DeadlinesDoNotDrift(interval, began, before, k);
    } else if k > 0 {
      DeadlinesDoNotDrift(interval, began, before, k - 1);
      assert (k + 1) * interval == k * interval + interval;
    }
  }

  lemma {:induction false} TheNextDeadline(interval: nat, began: nat, took: seq<nat>)
    ensures (if took == [] then began else Ticks(interval, began, took)[|took| - 1].deadline) + interval
         == began + (|took| + 1) * interval
  {
    if took != [] { DeadlinesDoNotDrift(interval, began, took, |took| - 1); }
    assert (|took| + 1) * interval == |took| * interval + interval;
  }

  lemma {:induction false} OneTickMore(interval: nat, began: nat, took: seq<nat>)
    requires took != []
    ensures var before := Ticks(interval, began, took[..|took| - 1]);
            Ticks(interval, began, took) == before + [NextTick(interval, began, before, took[|took| - 1])]
  {}

  /** Sweeps do not overlap. */
  lemma {:induction false} SweepsFollowEachOther(interval: nat, began: nat, took: seq<nat>, k: nat)
    requires k < |took|
    ensures var ticks := Ticks(interval, began, took);
            && began <= ticks[k].start && ticks[k].end == ticks[k].start + took[k]
            && (k > 0 ==> ticks[k - 1].end <= ticks[k].start)
  {
    hide Ticks;
    DeadlinesDoNotDrift(interval, began, took, k);
  }

  /** Sweeps no longer than the interval start exactly on their deadlines. */
  lemma {:induction false} FastSweepsStartOnTime(interval: nat, began: nat, took: seq<nat>, k: nat)
    requires k < |took| && forall j :: 0 <= j < |took| ==> took[j] <= interval
    ensures Ticks(interval, began, took)[k].start == began + (k + 1) * interval
  {
    DeadlinesDoNotDrift(interval, began, took, k);
    if k == 0 {
      FirstTick(interval, began, took);
    } else {
      FastSweepsStartOnTime(interval, began, took, k - 1);
    }
  }

  lemma {:induction false} FirstTick(interval: nat, began: nat, took: seq<nat>)
    requires took != []
    ensures Ticks(interval, began, took)[0].start == began + interval
  {
    if |took| > 1 {
      FirstTick(interval, began, took[..|took| - 1]);
    }
  }

  /** Each sweep looks at the clock once, at some moment while it runs. */
  ghost predicate LooksDuring(ticks: seq<Tick>, looks: seq<nat>) {
    |looks| == |ticks| && forall k :: 0 <= k < |ticks| ==> ticks[k].start <= looks[k] <= ticks[k].end
  }

  lemma {:induction false} LooksAreInOrder(interval: nat, began: nat, took: seq<nat>, looks: seq<nat>, j: nat, k: nat)
    requires LooksDuring(Ticks(interval, began, took), looks) && j <= k < |took|
    ensures looks[j] <= looks[k]
    decreases k
  {
    if j < k {
      LooksAreInOrder(interval, began, took, looks, j, k - 1);
      SweepsFollowEachOther(interval, began, took, k);
    }
  }

  /** The longest a child whose window has passed waits for the `k`th sweep, its first chance, to start. */
  function Gap(window: nat, took: seq<nat>, k: nat): nat
    requires k < |took|
  {
    if k == 0 then Interval(window) else Max(Interval(window), took[k - 1]) - 1
  }

  /** Not used since its last request finished, and no resident. */
  predicate Unused(e: Loaded, window: nat, began: nat) {
    e.residency.OnDemand? && !e.busy && began <= e.lastUsed + window
  }

  ghost predicate FirstToSeeItExpired(e: Loaded, window: nat, looks: seq<nat>, k: nat) {
    && k < |looks| && Expires(e, looks[k], window)
    && forall j :: 0 <= j < k ==> !Expires(e, looks[j], window)
  }

  /**
   The hold time, whatever the sweeps take.  A child nobody has used since its
   last request finished is let go by the first sweep that sees it expired: not
   before a window has passed, and at most one gap between sweeps and one sweep
   after that.
   */
  lemma {:induction false} HoldTimeIsBounded(
    window: nat, began: nat, took: seq<nat>, looks: seq<nat>, e: Loaded, k: nat)
    requires LooksDuring(Ticks(Interval(window), began, took), looks) && window > 0
    requires Unused(e, window, began) && FirstToSeeItExpired(e, window, looks, k)
    ensures var end := Ticks(Interval(window), began, took)[k].end;
            e.lastUsed + window <= looks[k] <= end <= e.lastUsed + window + Gap(window, took, k) + took[k]
  {
    DeadlinesDoNotDrift(Interval(window), began, took, k);
    if k == 0 {
      FirstTick(Interval(window), began, took);
    } else {
      assert !Expires(e, looks[k - 1], window);
    }
  }

  // ------------------------------------------------------------------ the documented hold time

  /** The promise: a child is held for one and a half windows plus one sweep at most, whenever sweeps look. */
  ghost predicate HeldForAWindowAndAHalf(window: nat, began: nat, took: seq<nat>) {
    forall looks, e, k: nat :: LetsGo(window, began, took, looks, e, k) ==> InTime(window, began, took, e.lastUsed, k)
  }

  /** Of these sweeps, looking then, the `k`th is the one that lets the child go. */
  ghost predicate LetsGo(window: nat, began: nat, took: seq<nat>, looks: seq<nat>, e: Loaded, k: nat) {
    && LooksDuring(Ticks(Interval(window), began, took), looks)
    && Unused(e, window, began) && FirstToSeeItExpired(e, window, looks, k)
  }

  ghost predicate InTime(window: nat, began: nat, took: seq<nat>, lastUsed: nat, k: nat) {
    k < |took| && Ticks(Interval(window), began, took)[k].end <= lastUsed + window + window / 2 + took[k]
  }

  /** The floor under the interval is not reached, and no sweep outlasts it with another to follow. */
  predicate NeitherHurriedNorHeldUp(window: nat, took: seq<nat>) {
    window >= 200_000_000 && forall j :: 0 <= j < |took| - 1 ==> took[j] <= window / 2 + 1
  }

  /**
   When the promise is kept, on a clock that was counting a window before the
   reaper began: if no sweep is made, or if the window is at least 200 ms and
   no sweep but the last takes more than half of it and a nanosecond.
   */
  lemma {:induction false} HeldAtMostAWindowAndAHalfPlusOneSweep(window: nat, began: nat, took: seq<nat>)
    requires began >= window
    ensures HeldForAWindowAndAHalf(window, began, took) <==> took == [] || NeitherHurriedNorHeldUp(window, took)
  {
    if NeitherHurriedNorHeldUp(window, took) {
      forall looks, e, k: nat | LetsGo(window, began, took, looks, e, k)
        ensures InTime(window, began, took, e.lastUsed, k)
      {
        HoldTimeIsBounded(window, began, took, looks, e, k);
      }
    } else if took != [] {
      if window < 2 * MIN_INTERVAL {
        TheFloorHoldsLonger(window, began, took);
      } else {
        var j: nat :| j < |took| - 1 && took[j] > window / 2 + 1;
        ALongSweepHoldsTheNext(window, began, took, j);
      }
    }
  }

  /** Every sweep looks as it starts. */
  function Starts(interval: nat, began: nat, took: seq<nat>): (looks: seq<nat>)
    ensures |looks| == |took|
  {
    seq(|took|, k requires 0 <= k < |took| => Ticks(interval, began, took)[k].start)
  }

  lemma {:induction false} StartsAreLooks(interval: nat, began: nat, took: seq<nat>)
    ensures LooksDuring(Ticks(interval, began, took), Starts(interval, began, took))
  {
    forall k | 0 <= k < |took|
      ensures var tick := Ticks(interval, began, took)[k]; tick.start <= tick.end
    {
      SweepsFollowEachOther(interval, began, took, k);
    }
  }

  function LastUsedAt(lastUsed: nat): Loaded { Loaded(0, 0, 0, OnDemand, false, lastUsed) }

  /** Below 200 ms the first sweep comes later than half a window after the reaper began. */
  lemma {:induction false} TheFloorHoldsLonger(window: nat, began: nat, took: seq<nat>)
    requires began >= window && window < 2 * MIN_INTERVAL && took != []
    ensures !HeldForAWindowAndAHalf(window, began, took)
  {
    var interval := Interval(window);
    var e := LastUsedAt(began - window);
    StartsAreLooks(interval, began, took);
    FirstTick(interval, began, took);
    SweepsFollowEachOther(interval, began, took, 0);
    assert LetsGo(window, began, took, Starts(interval, began, took), e, 0);
    assert !InTime(window, began, took, e.lastUsed, 0);
  }

  /** A child whose window passes just after a long sweep has looked is held past the promise. */
  lemma {:induction false} ALongSweepHoldsTheNext(window: nat, began: nat, took: seq<nat>, j: nat)
    requires began >= window > 0 && j < |took| - 1 && took[j] > window / 2 + 1
    ensures !HeldForAWindowAndAHalf(window, began, took)
  {
    hide Ticks, Interval;
    var interval := Interval(window);
    var looks := Starts(interval, began, took);
    StartsAreLooks(interval, began, took);
    SweepsFollowEachOther(interval, began, took, j);
    SweepsFollowEachOther(interval, began, took, j + 1);
    var e := LastUsedAt(looks[j] + 1 - window);
    forall i | 0 <= i <= j ensures !Expires(e, looks[i], window) {
      LooksAreInOrder(interval, began, took, looks, i, j);
    }
    assert LetsGo(window, began, took, looks, e, j + 1);
    assert !InTime(window, began, took, e.lastUsed, j + 1);
  }

  /**
   A window of two seconds, and a sweep that hangs for three on a kill: a child
   last used one second and a nanosecond after the clock's zero is still there
   when the next sweep starts, two seconds past the promise.
   */
  lemma {:induction false} AHungKillHoldsTheNextChildLonger()
    ensures var second := 1_000_000_000;
            var ticks, e := Ticks(Interval(2 * second), 2 * second, [3 * second, 0]), LastUsedAt(second + 1);
            && Unused(e, 2 * second, 2 * second)
            && FirstToSeeItExpired(e, 2 * second, [ticks[0].start, ticks[1].start], 1)
            && ticks[1].end == e.lastUsed + 2 * second + 2 * second / 2 + 2 * second - 1
  {
    var second := 1_000_000_000;
    var took := [3 * second, 0];
    assert took[..1] == [3 * second] && took[..1][..0] == [];
    assert Ticks(second, 2 * second, [3 * second]) == [Tick(3 * second, 3 * second, 6 * second)];
  }

  /** And it is let go: once the deadlines reach past the window, some sweep is the first to see it. */
  lemma {:induction false} SomeSweepLetsItGo(
    window: nat, began: nat, took: seq<nat>, looks: seq<nat>, e: Loaded)
    returns (k: nat)
    requires LooksDuring(Ticks(Interval(window), began, took), looks)
    requires e.residency.OnDemand? && !e.busy && window > 0
    requires began + |took| * Interval(window) >= e.lastUsed + window && took != []
    ensures FirstToSeeItExpired(e, window, looks, k)
  {
    DeadlinesDoNotDrift(Interval(window), began, took, |took| - 1);
    assert Expires(e, looks[|took| - 1], window);
    k := 0;
    while !Expires(e, looks[k], window)
      invariant k < |took| && forall j :: 0 <= j < k ==> !Expires(e, looks[j], window)
      decreases |took| - k
    {
      assert k != |took| - 1;
      k := k + 1;
    }
  }
}

/**
  The quota's sampler: at every tick it refreshes the statistics, or compacts, or does neither. Time is in
  seconds. trace is what it has run so far, the oldest first; it exists for the specification.
 */
module QuotaSampler {
  import opened Options
  import opened ReliefLag

  const SETTLE: nat := 15
  const TRIES: nat := 3
  const PAUSE: nat := 600

  /** marker is the row a head marker wrote, when one did. */
  datatype Pass =
    | Refresh(start: nat, end: nat, ok: bool)
    | Relief(start: nat, end: nat, stale: bool, marker: Option<nat>)

  datatype Sampler = Sampler(revs: seq<TickRev>, refreshOwed: bool, lastDelete: Option<nat>, refreshFails: nat, refreshPaused: nat)

  /**
    What one tick meets: its time after the read of the current revision, what the two kinds of pass would
    bring, and when that pass returns. head is MAX(id) as the relief pass read it, 0 when it read none; marker is
    the row of a head marker, None when its write does not take effect.
   */
  datatype Tick = Tick(at: nat, current: nat, statsOwed: bool, full: bool, end: nat,
                       refreshed: bool, stale: bool, head: nat, compactedTo: nat, failed: bool, stillFull: bool,
                       marker: Option<nat>)

  // ------------------------------------------------------------------ one tick

  predicate Settled(s: Sampler, now: nat) {
    s.lastDelete.Some? ==> s.lastDelete.value + SETTLE <= now
  }

  predicate RefreshDue(s: Sampler, now: nat) {
    s.refreshOwed && Settled(s, now) && s.refreshPaused <= now
  }

  predicate Settling(s: Sampler, now: nat) {
    s.refreshOwed && !Settled(s, now) && s.refreshPaused <= now
  }

  /** The head marker is what keeps rows back: the pass compacted all but the newest row, and that row is a lag old. */
  predicate MarkerDue(target: nat, k: Tick) {
    0 < k.head <= target && !k.failed && k.head <= k.compactedTo + 1 && k.stillFull
  }

  function Begin(s: Sampler, k: Tick, lag: nat): Sampler {
    s.(revs := Recent(s.revs, k.at, lag) + [TickRev(k.at, k.current)], refreshOwed := s.refreshOwed || k.statsOwed)
  }

  function AfterRefresh(s: Sampler, k: Tick): Sampler {
    if k.refreshed then s.(refreshOwed := false, refreshFails := 0)
    else if s.refreshFails + 1 >= TRIES then s.(refreshFails := 0, refreshPaused := k.end + PAUSE)
    else s.(refreshFails := s.refreshFails + 1)
  }

  function AfterRelief(s: Sampler, k: Tick): Sampler {
    if k.stale then s.(refreshOwed := true, lastDelete := Some(k.end)) else s
  }

  /** The state after a tick, and what it ran. */
  function Next(s: Sampler, k: Tick, lag: nat): (Sampler, Option<Pass>) {
    var target, b := ReliefTarget(s.revs, k.at, lag), Begin(s, k, lag);
    if RefreshDue(b, k.at) then (AfterRefresh(b, k), Some(Refresh(k.at, k.end, k.refreshed)))
    else if Settling(b, k.at) then (b, None)
    else if k.full && target > 0 then
      (AfterRelief(b, k), Some(Relief(k.at, k.end, k.stale, if MarkerDue(target, k) then k.marker else None)))
    else (b, None)
  }

  // ---------------------------------------------------------------- whole runs

  /** head is MAX(id) in the database, which only grows. */
  datatype World = World(s: Sampler, trace: seq<Pass>, clock: nat, head: nat)

  /** What the tick leaves MAX(id) at. */
  datatype Event = Event(k: Tick, headRead: nat, headEnd: nat)

  function Step(w: World, e: Event, lag: nat): World {
    var (s, ran) := Next(w.s, e.k, lag);
    World(s, if ran.Some? then w.trace + [ran.value] else w.trace, e.k.end, e.headEnd)
  }

  /**
    Ticks follow one another. The cached revision is at most MAX(id) when it is read, and MAX(id) does not
    shrink; a head marker takes effect before its pass ends, with an id above all that were there.
   */
  predicate Possible(w: World, e: Event) {
    && w.clock <= e.k.at <= e.k.end
    && e.k.current <= e.headRead && w.head <= e.headRead <= e.headEnd
    && (e.k.head > 0 ==> e.headRead <= e.k.head <= e.headEnd)
    && (e.k.marker.Some? ==> e.k.head < e.k.marker.value <= e.headEnd)
  }

  function Run(w: World, events: seq<Event>, lag: nat): World
    decreases |events|
  {
    if events == [] then w else Run(Step(w, events[0], lag), events[1..], lag)
  }

  predicate PossibleRun(w: World, events: seq<Event>, lag: nat)
    decreases |events|
  {
    events == [] || (Possible(w, events[0]) && PossibleRun(Step(w, events[0], lag), events[1..], lag))
  }

  // ------------------------------------------------------- what the history tells

  predicate IsStale(p: Pass) {
    p.Relief? && p.stale
  }

  /** When the last pass that deleted rows ended. */
  function LastStale(trace: seq<Pass>): Option<nat> {
    if trace == [] then None
    else if IsStale(trace[|trace| - 1]) then Some(trace[|trace| - 1].end)
    else LastStale(trace[..|trace| - 1])
  }

  /** Rows were deleted, and no refresh has succeeded since. */
  predicate Unsettled(trace: seq<Pass>) {
    trace != []
    && var p := trace[|trace| - 1];
       IsStale(p) || (!(p.Refresh? && p.ok) && Unsettled(trace[..|trace| - 1]))
  }

  /** Failed refreshes since the last one that succeeded. */
  function FailRun(trace: seq<Pass>): nat {
    if trace == [] then 0
    else
      var p := trace[|trace| - 1];
      if p.Refresh? && p.ok then 0 else FailRun(trace[..|trace| - 1]) + if p.Refresh? then 1 else 0
  }

  /** Until when the refresh is paused: after every third failure in a row. */
  function PausedUntil(trace: seq<Pass>): nat {
    if trace == [] then 0
    else
      var p := trace[|trace| - 1];
      if p.Refresh? && !p.ok && FailRun(trace) % TRIES == 0 then p.end + PAUSE else PausedUntil(trace[..|trace| - 1])
  }

  /** What a pass found in the history before it. */
  predicate PassOk(trace: seq<Pass>, n: nat)
    requires n < |trace|
  {
    var before, p := trace[..n], trace[n];
    && (p.Refresh? ==> LastStale(before).Some? ==> LastStale(before).value + SETTLE <= p.start)
    && (p.Relief? ==> !Unsettled(before) || p.start < PausedUntil(before))
  }

  /** Passes follow one another, and none ends after the clock. */
  predicate InTurn(trace: seq<Pass>, clock: nat) {
    && (forall n :: 0 <= n < |trace| ==> trace[n].start <= trace[n].end <= clock)
    && (forall m, n :: 0 <= m < n < |trace| ==> trace[m].end <= trace[n].start)
  }

  predicate Inv(w: World, lag: nat) {
    && w.s.lastDelete == LastStale(w.trace)
    && (Unsettled(w.trace) ==> w.s.refreshOwed)
    && w.s.refreshFails == FailRun(w.trace) % TRIES
    && w.s.refreshPaused == PausedUntil(w.trace)
    && (forall n {:trigger PassOk(w.trace, n)} :: 0 <= n < |w.trace| ==> PassOk(w.trace, n))
    && InTurn(w.trace, w.clock)
    && Records(w.s.revs, w.trace, w.head, lag)
  }

  /** A record that reaches a marker's row was made at or after the marker's tick; markers are a lag apart. */
  predicate Records(revs: seq<TickRev>, trace: seq<Pass>, head: nat, lag: nat) {
    && (forall r :: r in revs ==> r.rev <= head)
    && (forall n :: 0 <= n < |trace| && HasMarker(trace[n]) ==> trace[n].marker.value <= head)
    && (forall r, n :: r in revs && 0 <= n < |trace| && HasMarker(trace[n]) && trace[n].marker.value <= r.rev
                       ==> trace[n].start <= r.at)
    && (forall m, n :: 0 <= m < n < |trace| && HasMarker(trace[m]) && HasMarker(trace[n])
                       ==> trace[m].start + lag <= trace[n].start)
  }

  predicate HasMarker(p: Pass) {
    p.Relief? && p.marker.Some?
  }

  predicate Init(w: World) {
    w.s == Sampler([], false, None, 0, 0) && w.trace == []
  }

  lemma AddPass(trace: seq<Pass>, p: Pass, n: nat)
    requires n < |trace| && PassOk(trace, n)
    ensures PassOk(trace + [p], n)
  {
    assert (trace + [p])[..n] == trace[..n];
  }

  /** The history functions after one more pass. */
  lemma OneMore(trace: seq<Pass>, p: Pass)
    ensures LastStale(trace + [p]) == if IsStale(p) then Some(p.end) else LastStale(trace)
    ensures Unsettled(trace + [p]) <==> IsStale(p) || (!(p.Refresh? && p.ok) && Unsettled(trace))
    ensures FailRun(trace + [p]) == if p.Refresh? && p.ok then 0 else FailRun(trace) + if p.Refresh? then 1 else 0
    ensures PausedUntil(trace + [p]) ==
              if p.Refresh? && !p.ok && FailRun(trace + [p]) % TRIES == 0 then p.end + PAUSE else PausedUntil(trace)
  {
    assert (trace + [p])[..|trace|] == trace;
  }

  lemma OneMoreRecord(revs: seq<TickRev>, recent: seq<TickRev>, trace: seq<Pass>, head: nat, head': nat, lag: nat, r: TickRev)
    requires Records(revs, trace, head, lag) && (forall q :: q in recent ==> q in revs)
    requires head <= head' && r.rev <= head' && forall n :: 0 <= n < |trace| ==> trace[n].start <= r.at
    ensures Records(recent + [r], trace, head', lag)
  {
    assert forall q :: q in recent + [r] ==> q in revs || q == r;
  }

  lemma OneMorePass(revs: seq<TickRev>, trace: seq<Pass>, head: nat, head': nat, lag: nat, p: Pass)
    requires Records(revs, trace, head, lag) && head <= head'
    requires HasMarker(p) ==> head < p.marker.value <= head'
    requires HasMarker(p) ==> forall n :: 0 <= n < |trace| && HasMarker(trace[n]) ==> trace[n].start + lag <= p.start
    ensures Records(revs, trace + [p], head', lag)
  {
  }

  /** A marker is due only when the newest old record reaches the head, so when it was made after every marker so far. */
  lemma MarkerComesLater(w: World, e: Event, lag: nat, n: nat)
    requires Records(w.s.revs, w.trace, w.head, lag) && Possible(w, e) && n < |w.trace| && HasMarker(w.trace[n])
    requires MarkerDue(ReliefTarget(w.s.revs, e.k.at, lag), e.k)
    ensures w.trace[n].start + lag <= e.k.at
  {
    var i := OldEnough(w.s.revs, e.k.at, lag);
    assert w.s.revs[i] in w.s.revs;
  }

  lemma RecordsKept(w: World, e: Event, lag: nat)
    requires Inv(w, lag) && Possible(w, e)
    ensures var w' := Step(w, e, lag); Records(w'.s.revs, w'.trace, w'.head, lag)
  {
    var ran := Next(w.s, e.k, lag).1;
    var recent, r := Recent(w.s.revs, e.k.at, lag), TickRev(e.k.at, e.k.current);
    OneMoreRecord(w.s.revs, recent, w.trace, w.head, e.headRead, lag, r);
    if ran.Some? {
      if HasMarker(ran.value) {
        forall n | 0 <= n < |w.trace| && HasMarker(w.trace[n]) ensures w.trace[n].start + lag <= e.k.at {
          MarkerComesLater(w, e, lag, n);
        }
      }
      OneMorePass(recent + [r], w.trace, e.headRead, e.headEnd, lag, ran.value);
    }
  }

  lemma HistoryKept(w: World, e: Event, lag: nat)
    requires Inv(w, lag) && Possible(w, e)
    ensures var w' := Step(w, e, lag);
            && w'.s.lastDelete == LastStale(w'.trace)
            && (Unsettled(w'.trace) ==> w'.s.refreshOwed)
            && w'.s.refreshFails == FailRun(w'.trace) % TRIES
            && w'.s.refreshPaused == PausedUntil(w'.trace)
  {
    var ran := Next(w.s, e.k, lag).1;
    if ran.Some? { OneMore(w.trace, ran.value); }
  }

  lemma PassesKept(w: World, e: Event, lag: nat)
    requires Inv(w, lag) && Possible(w, e)
    ensures var w' := Step(w, e, lag);
            forall n {:trigger PassOk(w'.trace, n)} :: 0 <= n < |w'.trace| ==> PassOk(w'.trace, n)
  {
    var ran, w' := Next(w.s, e.k, lag).1, Step(w, e, lag);
    forall n | 0 <= n < |w'.trace| ensures PassOk(w'.trace, n) {
      if n < |w.trace| {
        assert PassOk(w.trace, n);
        if ran.Some? { AddPass(w.trace, ran.value, n); }
      } else {
        assert w'.trace[..n] == w.trace;
      }
    }
  }

  lemma TurnKept(w: World, e: Event, lag: nat)
    requires InTurn(w.trace, w.clock) && Possible(w, e)
    ensures InTurn(Step(w, e, lag).trace, e.k.end)
  {
  }

  lemma StepKeeps(w: World, e: Event, lag: nat)
    requires Inv(w, lag) && Possible(w, e)
    ensures Inv(Step(w, e, lag), lag)
  {
    RecordsKept(w, e, lag);
    HistoryKept(w, e, lag);
    PassesKept(w, e, lag);
    TurnKept(w, e, lag);
  }

  lemma {:induction false} RunKeeps(w: World, events: seq<Event>, lag: nat)
    requires Inv(w, lag) && PossibleRun(w, events, lag)
    ensures Inv(Run(w, events, lag), lag)
    decreases |events|
  {
    if events != [] {
      StepKeeps(w, events[0], lag);
      RunKeeps(Step(w, events[0], lag), events[1..], lag);
    }
  }

  // ------------------------------------------------------------------ main results

  lemma {:induction false} LastStaleIsLate(trace: seq<Pass>, clock: nat, j: nat)
    requires j < |trace| && IsStale(trace[j])
    requires InTurn(trace, clock)
    ensures LastStale(trace).Some? && trace[j].end <= LastStale(trace).value
  {
    if !IsStale(trace[|trace| - 1]) { LastStaleIsLate(trace[..|trace| - 1], clock, j); }
  }

  /** A refresh that succeeded, after j. */
  predicate Refreshed(trace: seq<Pass>, j: nat, i: nat) {
    j < i < |trace| && trace[i].Refresh? && trace[i].ok
  }

  lemma {:induction false} SettledBy(trace: seq<Pass>, j: nat) returns (i: nat)
    requires j < |trace| && IsStale(trace[j]) && !Unsettled(trace)
    ensures Refreshed(trace, j, i)
  {
    var n := |trace| - 1;
    if trace[n].Refresh? && trace[n].ok { i := n; } else { i := SettledBy(trace[..n], j); }
  }

  /**
    Over every run of ticks, whatever their passes bring: no refresh starts within the settle time of the
    end of a pass that deleted rows, and unless the refresh is paused no compaction starts before one has
    succeeded since the last such pass. Passes never overlap.
   */
  lemma RefreshesAreSafe(w: World, events: seq<Event>, lag: nat, j: nat, k: nat)
    requires Init(w) && PossibleRun(w, events, lag)
    requires var trace := Run(w, events, lag).trace; j < k < |trace| && IsStale(trace[j])
    ensures var trace := Run(w, events, lag).trace;
            && trace[j].end <= trace[k].start
            && (trace[k].Refresh? ==> trace[j].end + SETTLE <= trace[k].start)
            && (trace[k].Relief? && PausedUntil(trace[..k]) <= trace[k].start ==>
                  exists i: nat :: Refreshed(trace, j, i) && i < k)
  {
    RunKeeps(w, events, lag);
    var now := Run(w, events, lag);
    assert PassOk(now.trace, k);
    SafeAfterStale(now.trace, now.clock, j, k);
  }

  lemma SafeAfterStale(trace: seq<Pass>, clock: nat, j: nat, k: nat)
    requires j < k < |trace| && IsStale(trace[j]) && InTurn(trace, clock) && PassOk(trace, k)
    ensures trace[j].end <= trace[k].start
    ensures trace[k].Refresh? ==> trace[j].end + SETTLE <= trace[k].start
    ensures trace[k].Relief? && PausedUntil(trace[..k]) <= trace[k].start ==> exists i: nat :: Refreshed(trace, j, i) && i < k
  {
    LastStaleIsLate(trace[..k], clock, j);
    if trace[k].Relief? && PausedUntil(trace[..k]) <= trace[k].start {
      var i := SettledBy(trace[..k], j);
      assert Refreshed(trace, j, i) && i < k;
    }
  }

  /**
    And none is starved: when rows were deleted and no refresh has succeeded since, the first tick past the
    settle time that is not paused refreshes. A tick runs one pass at most.
   */
  lemma RefreshComesFirst(w: World, events: seq<Event>, e: Event, lag: nat)
    requires Init(w) && PossibleRun(w, events, lag) && Possible(Run(w, events, lag), e)
    ensures var now := Run(w, events, lag);
            var trace := Step(now, e, lag).trace;
            && now.trace <= trace && |trace| <= |now.trace| + 1
            && (Unsettled(now.trace) && PausedUntil(now.trace) <= e.k.at ==>
                  LastStale(now.trace).Some? &&
                  if LastStale(now.trace).value + SETTLE <= e.k.at
                  then trace == now.trace + [Refresh(e.k.at, e.k.end, e.k.refreshed)]
                  else trace == now.trace)
  {
    RunKeeps(w, events, lag);
    var now := Run(w, events, lag);
    if Unsettled(now.trace) { UnsettledHasStale(now.trace); }
  }

  lemma {:induction false} UnsettledHasStale(trace: seq<Pass>)
    requires Unsettled(trace)
    ensures LastStale(trace).Some?
  {
    if !IsStale(trace[|trace| - 1]) { UnsettledHasStale(trace[..|trace| - 1]); }
  }

  /** Only a third failure in a row pauses the refresh, for ten minutes from its end. */
  lemma {:induction false} PauseNeedsFailures(trace: seq<Pass>) returns (n: nat)
    requires PausedUntil(trace) > 0
    ensures 0 < n <= |trace| && trace[n - 1].Refresh? && !trace[n - 1].ok
    ensures TRIES <= FailRun(trace[..n]) && PausedUntil(trace) == trace[n - 1].end + PAUSE
  {
    var p := trace[|trace| - 1];
    assert trace[..|trace|] == trace;
    if p.Refresh? && !p.ok && FailRun(trace) % TRIES == 0 {
      n := |trace|;
    } else {
      n := PauseNeedsFailures(trace[..|trace| - 1]);
      assert trace[..|trace| - 1][..n] == trace[..n];
    }
  }

  /** Head markers cannot pile up: two that took effect come from ticks a lag apart. */
  lemma MarkersAreLagApart(w: World, events: seq<Event>, lag: nat, m: nat, n: nat)
    requires Init(w) && PossibleRun(w, events, lag)
    requires var trace := Run(w, events, lag).trace; m < n < |trace| && HasMarker(trace[m]) && HasMarker(trace[n])
    ensures var trace := Run(w, events, lag).trace; trace[m].start + lag <= trace[n].start
  {
    RunKeeps(w, events, lag);
  }

  // -------------------------------------------------------------------- the calls

  class Quota {
    var revs: seq<TickRev>
    var refreshOwed: bool
    var lastDelete: Option<nat>
    var refreshFails: nat
    var refreshPaused: nat
    const lag: nat

    constructor (lag: nat)
      ensures Now() == Sampler([], false, None, 0, 0) && this.lag == lag
    {
      revs, refreshOwed, lastDelete, refreshFails, refreshPaused := [], false, None, 0, 0;
      this.lag := lag;
    }

    function Now(): Sampler
      reads this
    {
      Sampler(revs, refreshOwed, lastDelete, refreshFails, refreshPaused)
    }

    /** reliefTarget: the newest record at least a lag old; older ones are dropped. */
    method Target(now: nat) returns (target: nat)
      modifies this`revs
      ensures target == ReliefTarget(old(revs), now, lag)
      ensures revs == Recent(old(revs), now, lag)
    {
      var i := -1;
      var j := 0;
      while j < |revs|
        invariant 0 <= j <= |revs| && -1 <= i < j
        invariant i == OldEnough(revs[..j], now, lag)
      {
        assert revs[..j + 1][..j] == revs[..j];
        if revs[j].at + lag <= now {
          i := j;
        }
        j := j + 1;
      }
      assert revs[..j] == revs;
      if i < 0 {
        return 0;
      }
      revs := revs[i..];
      target := revs[0].rev;
    }

    method Tick(k: Tick) returns (ran: Option<Pass>)
      modifies this
      ensures (Now(), ran) == Next(old(Now()), k, lag)
    {
      var target := Target(k.at);
      revs := revs + [TickRev(k.at, k.current)];
      if k.statsOwed {
        refreshOwed := true;
      }
      ran := None;
      if RefreshDue(Now(), k.at) {
        RefreshPass(k);
        ran := Some(Refresh(k.at, k.end, k.refreshed));
      } else if Settling(Now(), k.at) {
      } else if k.full && target > 0 {
        var marker := ReliefPass(k, target);
        ran := Some(Relief(k.at, k.end, k.stale, marker));
      }
    }

    method RefreshPass(k: Tick)
      modifies this`refreshOwed, this`refreshFails, this`refreshPaused
      ensures Now() == AfterRefresh(old(Now()), k)
    {
      if k.refreshed {
        refreshOwed, refreshFails := false, 0;
        return;
      }
      refreshFails := refreshFails + 1;
      if refreshFails >= TRIES {
        refreshFails := 0;
        refreshPaused := k.end + PAUSE;
      }
    }

    method ReliefPass(k: Tick, target: nat) returns (marker: Option<nat>)
      modifies this`refreshOwed, this`lastDelete
      ensures Now() == AfterRelief(old(Now()), k)
      ensures marker == if MarkerDue(target, k) then k.marker else None
    {
      if k.stale {
        refreshOwed, lastDelete := true, Some(k.end);
      }
      marker := None;
      if k.head > 0 && target >= k.head && !k.failed && k.compactedTo >= k.head - 1 && k.stillFull {
        marker := k.marker;
      }
    }
  }
}

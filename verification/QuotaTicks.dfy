/** When the quota's sampler refreshes, when it compacts and when it writes a head marker, told from its ticks so far. */
module QuotaTicks {
  import opened Options
  import opened ReliefLag
  import opened QuotaSampler

  lemma {:induction false} RunOneMore(w: World, events: seq<Event>, e: Event, lag: nat)
    ensures Run(w, events + [e], lag) == Step(Run(w, events, lag), e, lag)
    ensures PossibleRun(w, events + [e], lag) <==> PossibleRun(w, events, lag) && Possible(Run(w, events, lag), e)
    decreases |events|
  {
    if events == [] {
      assert [e][1..] == [] && [] + [e] == [e];
      assert Run(w, [e], lag) == Run(Step(w, e, lag), [], lag);
      assert PossibleRun(Step(w, e, lag), [], lag);
    } else {
      assert (events + [e])[1..] == events[1..] + [e] && (events + [e])[0] == events[0];
      RunOneMore(Step(w, events[0], lag), events[1..], e, lag);
    }
  }

  // ------------------------------------------------------------------ what the ticks tell

  /** The revision that the newest tick at least a lag before now has read, 0 when there is none. */
  function OldRevision(events: seq<Event>, now: nat, lag: nat): nat {
    if events == [] then 0
    else
      var k := events[|events| - 1].k;
      if k.at + lag <= now then k.current else OldRevision(events[..|events| - 1], now, lag)
  }

  /** What the last tick ran, as the history of passes shows. */
  function LastRan(w: World, events: seq<Event>, lag: nat): Option<Pass>
    requires events != []
  {
    Gained(Run(w, events[..|events| - 1], lag).trace, Run(w, events, lag).trace)
  }

  function Gained(before: seq<Pass>, after: seq<Pass>): Option<Pass> {
    if |before| < |after| then Some(after[|after| - 1]) else None
  }

  /**
    A refresh is owed: some tick found the statistics reset, or deleted rows, and no refresh has succeeded
    since, in that tick or later.
   */
  predicate Owed(w: World, events: seq<Event>, lag: nat) {
    events != []
    && var ran := LastRan(w, events, lag);
       !(ran.Some? && ran.value.Refresh? && ran.value.ok)
       && (events[|events| - 1].k.statsOwed || (ran.Some? && IsStale(ran.value)) || Owed(w, events[..|events| - 1], lag))
  }

  // -------------------------------------------------------------- the records and the flag

  function Records(events: seq<Event>): seq<TickRev> {
    if events == [] then []
    else Records(events[..|events| - 1]) + [TickRev(events[|events| - 1].k.at, events[|events| - 1].k.current)]
  }

  /** The sampler keeps the newest records; what it has dropped is older than one that is a lag old. */
  predicate KeepsNewest(revs: seq<TickRev>, all: seq<TickRev>, clock: nat, lag: nat) {
    exists d: nat :: d <= |all| && revs == all[d..] && (d > 0 ==> d < |all| && all[d].at + lag <= clock)
  }

  lemma SameTarget(revs: seq<TickRev>, all: seq<TickRev>, clock: nat, now: nat, lag: nat)
    requires KeepsNewest(revs, all, clock, lag) && clock <= now
    ensures ReliefTarget(revs, now, lag) == ReliefTarget(all, now, lag)
  {
    var d: nat :| d <= |all| && revs == all[d..] && (d > 0 ==> d < |all| && all[d].at + lag <= clock);
    var i, j := OldEnough(revs, now, lag), OldEnough(all, now, lag);
    if d > 0 {
      assert revs[0] == all[d];
      assert i >= 0 && revs[i] == all[d + i];
      assert forall j :: d + i < j < |all| ==> all[j] == revs[j - d];
    } else {
      assert revs == all;
    }
  }

  lemma StillNewest(revs: seq<TickRev>, all: seq<TickRev>, clock: nat, now: nat, end: nat, lag: nat, r: TickRev)
    requires KeepsNewest(revs, all, clock, lag) && clock <= now <= end
    ensures KeepsNewest(Recent(revs, now, lag) + [r], all + [r], end, lag)
  {
    var d: nat :| d <= |all| && revs == all[d..] && (d > 0 ==> d < |all| && all[d].at + lag <= clock);
    var i := OldEnough(revs, now, lag);
    var n := if i < 0 then d else d + i;
    assert Recent(revs, now, lag) == all[n..];
    assert all[n..] + [r] == (all + [r])[n..];
    assert n > 0 ==> n < |all| && (all + [r])[n] == all[n] && all[n].at + lag <= end;
  }

  lemma {:induction false} OldRevisionIs(events: seq<Event>, now: nat, lag: nat)
    ensures ReliefTarget(Records(events), now, lag) == OldRevision(events, now, lag)
  {
    if events != [] {
      var before, all := Records(events[..|events| - 1]), Records(events);
      OldRevisionIs(events[..|events| - 1], now, lag);
      assert all[..|all| - 1] == before;
      var i := OldEnough(before, now, lag);
      assert i >= 0 ==> all[i] == before[i];
    }
  }

  /** One tick: its record, and what it leaves owed. */
  lemma StepLeaves(w: World, e: Event, lag: nat)
    ensures var next := Step(w, e, lag);
            var ran := Gained(w.trace, next.trace);
            && next.s.revs == Recent(w.s.revs, e.k.at, lag) + [TickRev(e.k.at, e.k.current)] && next.clock == e.k.end
            && (next.s.refreshOwed <==>
                  !(ran.Some? && ran.value.Refresh? && ran.value.ok)
                  && (e.k.statsOwed || (ran.Some? && IsStale(ran.value)) || w.s.refreshOwed))
  {
  }

  lemma {:induction false} SamplerRecords(w: World, events: seq<Event>, lag: nat)
    requires Init(w) && PossibleRun(w, events, lag)
    ensures KeepsNewest(Run(w, events, lag).s.revs, Records(events), Run(w, events, lag).clock, lag)
  {
    if events == [] {
      assert [] == Records([])[0..];
    } else {
      hide Step, Run, PossibleRun, Recent, KeepsNewest;
      var before, e := events[..|events| - 1], events[|events| - 1];
      assert events == before + [e];
      RunOneMore(w, before, e, lag);
      SamplerRecords(w, before, lag);
      var now := Run(w, before, lag);
      StepLeaves(now, e, lag);
      StillNewest(now.s.revs, Records(before), now.clock, e.k.at, e.k.end, lag, TickRev(e.k.at, e.k.current));
    }
  }

  lemma OwedOneMore(w: World, before: seq<Event>, e: Event, lag: nat)
    ensures var ran := Gained(Run(w, before, lag).trace, Run(w, before + [e], lag).trace);
            Owed(w, before + [e], lag) <==>
              !(ran.Some? && ran.value.Refresh? && ran.value.ok)
              && (e.k.statsOwed || (ran.Some? && IsStale(ran.value)) || Owed(w, before, lag))
  {
    hide Run;
    assert (before + [e])[..|before|] == before;
  }

  lemma {:induction false} SamplerOwes(w: World, events: seq<Event>, lag: nat)
    requires Init(w) && PossibleRun(w, events, lag)
    ensures Run(w, events, lag).s.refreshOwed <==> Owed(w, events, lag)
  {
    if events != [] {
      hide Step, Run, PossibleRun, Recent, Possible, Init, Owed, Gained, IsStale;
      var before, e := events[..|events| - 1], events[|events| - 1];
      assert events == before + [e];
      RunOneMore(w, before, e, lag);
      SamplerOwes(w, before, lag);
      StepLeaves(Run(w, before, lag), e, lag);
      OwedOneMore(w, before, e, lag);
    }
  }

  // ------------------------------------------------------------------ main result

  /** The statistics have had the time to show the last deletes. */
  predicate HasSettled(trace: seq<Pass>, now: nat) {
    LastStale(trace).Some? ==> LastStale(trace).value + SETTLE <= now
  }

  /** The pass reached the newest row it may and the quota is still full: the head alone keeps rows back. */
  predicate OnlyHeadIsLeft(target: nat, k: Tick) {
    0 < k.head <= target && k.compactedTo + 1 >= k.head && !k.failed && k.stillFull
  }

  /** What a tick does, from the ticks before it. */
  function Decision(w: World, events: seq<Event>, k: Tick, lag: nat): seq<Pass> {
    Decided(Run(w, events, lag).trace, Owed(w, events, lag), OldRevision(events, k.at, lag), k)
  }

  function Decided(trace: seq<Pass>, owed: bool, target: nat, k: Tick): seq<Pass> {
    if (owed || k.statsOwed) && PausedUntil(trace) <= k.at then
      if HasSettled(trace, k.at) then [Refresh(k.at, k.end, k.refreshed)] else []
    else if k.full && target > 0 then
      [Relief(k.at, k.end, k.stale, if OnlyHeadIsLeft(target, k) then k.marker else None)]
    else []
  }

  lemma TickFollows(w: World, events: seq<Event>, e: Event, lag: nat)
    requires Init(w) && PossibleRun(w, events, lag) && Possible(Run(w, events, lag), e)
    ensures Run(w, events + [e], lag).trace == Run(w, events, lag).trace + Decision(w, events, e.k, lag)
  {
    hide Run, PossibleRun, KeepsNewest, Records, OldRevision, ReliefTarget, Owed, Step, Possible;
    RunOneMore(w, events, e, lag);
    SamplerRecords(w, events, lag);
    SamplerOwes(w, events, lag);
    OldRevisionIs(events, e.k.at, lag);
    SamplerRemembers(w, events, lag);
    var now := Run(w, events, lag);
    ClockPasses(now, e);
    SameTarget(now.s.revs, Records(events), now.clock, e.k.at, lag);
    StepAdds(now, e, lag, Owed(w, events, lag), OldRevision(events, e.k.at, lag));
  }

  lemma ClockPasses(w: World, e: Event)
    requires Possible(w, e)
    ensures w.clock <= e.k.at
  {
  }

  lemma SamplerRemembers(w: World, events: seq<Event>, lag: nat)
    requires Init(w) && PossibleRun(w, events, lag)
    ensures var now := Run(w, events, lag); now.s.lastDelete == LastStale(now.trace) && now.s.refreshPaused == PausedUntil(now.trace)
  {
    RunKeeps(w, events, lag);
  }

  lemma StepAdds(now: World, e: Event, lag: nat, owed: bool, target: nat)
    requires now.s.lastDelete == LastStale(now.trace) && now.s.refreshPaused == PausedUntil(now.trace)
    requires (now.s.refreshOwed <==> owed) && ReliefTarget(now.s.revs, e.k.at, lag) == target
    ensures Step(now, e, lag).trace == now.trace + Decided(now.trace, owed, target, e.k)
  {
  }

  /** The pass that a tick ran is of this kind. */
  predicate Adds(before: seq<Pass>, after: seq<Pass>, p: Pass) {
    after == before + [p]
  }

  /**
    Over every run of ticks. A tick compacts exactly while the quota is full, when some tick at least a lag ago read
    a revision above 0 (the newest of those is the target), and no refresh is owed, or the refresh is
    paused. It refreshes exactly when one is owed, not paused, and the last deletes have settled. Its head
    marker is the one that was written, exactly when the compaction left the head alone and the quota full.
   */
  lemma TickDecides(w: World, events: seq<Event>, e: Event, lag: nat)
    requires Init(w) && PossibleRun(w, events, lag) && Possible(Run(w, events, lag), e)
    ensures var before, after := Run(w, events, lag).trace, Run(w, events + [e], lag).trace;
            var owed, paused := Owed(w, events, lag) || e.k.statsOwed, e.k.at < PausedUntil(before);
            var target := OldRevision(events, e.k.at, lag);
            && ((exists p: Pass :: p.Relief? && Adds(before, after, p)) <==> e.k.full && target > 0 && (!owed || paused))
            && ((exists p: Pass :: p.Refresh? && Adds(before, after, p)) <==> owed && !paused && HasSettled(before, e.k.at))
            && (forall p: Pass :: p.Relief? && Adds(before, after, p) ==>
                  p.start == e.k.at && p.end == e.k.end && p.stale == e.k.stale
                  && (p.marker.Some? <==> OnlyHeadIsLeft(target, e.k) && e.k.marker.Some?)
                  && (p.marker.Some? ==> p.marker == e.k.marker))
            && (forall p: Pass :: p.Refresh? && Adds(before, after, p) ==> p == Refresh(e.k.at, e.k.end, e.k.refreshed))
  {
    TickFollows(w, events, e, lag);
    var before, d := Run(w, events, lag).trace, Decision(w, events, e.k, lag);
    if d != [] {
      assert Adds(before, before + d, d[0]);
      forall p | Adds(before, before + d, p) ensures p == d[0] { assert (before + d)[|before|] == p; }
    } else {
      forall p ensures !Adds(before, before + d, p) { }
    }
  }
}

/**
  What the poller's main result asks of compactions and of the skip fallback is exactly what it needs.
  What is lost is lost in every further run; what is not lost, some further run of the poller sends.
 */
module PollerExact {
  import opened KineTable
  import opened Poller

  // ------------------------------------------------------------------ runs

  lemma {:induction false} RunConcat(s: State, a: seq<Action>, b: seq<Action>)
    ensures Run(s, a + b) == Run(Run(s, a), b)
    ensures AllowedRun(s, a + b) <==> AllowedRun(s, a) && AllowedRun(Run(s, a), b)
    ensures PromptRun(s, a + b) <==> PromptRun(s, a) && PromptRun(Run(s, a), b)
    decreases |a|
  {
    if a == [] {
      assert a + b == b;
    } else {
      assert (a + b)[1..] == a[1..] + b && (a + b)[0] == a[0];
      RunConcat(Apply(s, a[0]), a[1..], b);
    }
  }

  lemma OneStep(s: State, a: Action)
    ensures Run(s, [a]) == Apply(s, a)
    ensures AllowedRun(s, [a]) <==> Allowed(s, a)
    ensures PromptRun(s, [a]) <==> Prompt(s, a)
  {
    hide Apply, Allowed, Prompt;
    assert [a][1..] == [];
    var e := Apply(s, a);
    assert Run(e, []) == e && AllowedRun(e, []) && PromptRun(e, []);
  }

  lemma Then(s: State, a: Action, rest: seq<Action>)
    ensures Run(s, [a] + rest) == Run(Apply(s, a), rest)
    ensures AllowedRun(s, [a] + rest) <==> Allowed(s, a) && AllowedRun(Apply(s, a), rest)
    ensures PromptRun(s, [a] + rest) <==> Prompt(s, a) && PromptRun(Apply(s, a), rest)
  {
    RunConcat(s, [a], rest);
    OneStep(s, a);
  }

  predicate NoCompaction(actions: seq<Action>) {
    forall a :: a in actions ==> !a.Compact? && !a.ReliefBatch?
  }

  /** The fallback jumps a gap only in a batch whose rows are still there. */
  predicate Prompt(s: State, a: Action) {
    a.PollDecide? && s.phase.Fetched? && Decide(s.phase.batch, s.pollRev, s.skip, a.late).skipped ==>
      forall e :: e in s.phase.batch ==> e.id in s.t && s.t[e.id] == e.row
  }

  predicate PromptRun(s: State, actions: seq<Action>)
    decreases |actions|
  {
    actions == [] || (Prompt(s, actions[0]) && PromptRun(Apply(s, actions[0]), actions[1..]))
  }

  // --------------------------------------------------------------- a lost event

  /** What the poller has in hand and will send. */
  function Pending(s: State): seq<Versioned> {
    if s.phase.Saved? then s.phase.out else if InHand(s).Some? then InHand(s).value.out else []
  }

  /** The event was not sent, is not in hand, and its row is not in the table; nor does an insert hold its id. */
  predicate Lost(s: State, v: Versioned) {
    && v !in s.sent && v !in Pending(s)
    && v.id < s.nextId && !IsFill(v.row.name) && v.row.name != COMPACT_REV_KEY
    && (v.id in s.t ==> s.t[v.id] != v.row)
    && (forall op :: op in s.ops && s.ops[op].Reserved? ==> s.ops[op].id != v.id)
  }

  lemma {:induction false} DecideSubset(batch: seq<Versioned>, rev: nat, skip: nat, late: bool)
    ensures forall e :: e in Decide(batch, rev, skip, late).out ==> e in batch
    decreases |batch|
  {
    if batch != [] { DecideSubset(batch[1..], batch[0].id, skip, late); }
  }

  lemma LostPoll(s: State, a: Action, v: Versioned)
    requires Lost(s, v) && Prompt(s, a) && !IsOpStep(a) && !IsCompactStep(a)
    ensures Lost(ApplyPoll(s, a), v)
  {
    if a.PollFetch? && s.phase.Marked? {
      LostFetch(s, a.limit, v);
    } else if a.PollDecide? && s.phase.Fetched? {
      LostDecide(s, a.late, v);
    } else if a.PollFill? && s.phase.Decided? {
      FillRowIsFill(s.phase.v.rev + 1);
    }
  }

  lemma LostFetch(s: State, limit: int, v: Versioned)
    requires Lost(s, v) && s.phase.Marked?
    ensures Lost(FetchStep(s, limit), v)
  {
    DecideSubset(After(s.t, "", "", s.pollRev, limit), s.pollRev, s.skip, false);
  }

  lemma LostDecide(s: State, late: bool, v: Versioned)
    requires Lost(s, v) && Prompt(s, PollDecide(late)) && s.phase.Fetched?
    ensures Lost(DecideStep(s, s.phase.batch, late), v)
  {
    DecideUnskipped(s.phase.batch, s.pollRev, s.skip, late);
    DecideSubset(s.phase.batch, s.pollRev, s.skip, late);
    hide Decide, FillGaps;
  }

  lemma LostStep(s: State, a: Action, v: Versioned)
    requires Lost(s, v) && Prompt(s, a)
    ensures Lost(Apply(s, a), v)
  {
    if !IsOpStep(a) && !IsCompactStep(a) { LostPoll(s, a, v); }
  }

  /** A lost event is never sent, whatever writers, compactions, relief and poller do. */
  lemma {:induction false} LostIsNeverSent(s: State, actions: seq<Action>, v: Versioned)
    requires Lost(s, v) && PromptRun(s, actions)
    ensures v !in Run(s, actions).sent
    decreases |actions|
  {
    if actions != [] {
      LostStep(s, actions[0], v);
      LostIsNeverSent(Apply(s, actions[0]), actions[1..], v);
    }
  }

  // -------------------------------------------------- the poller finishes what it has in hand

  const SETTLE: seq<Action> := [PollDecide(false), PollFill, PollCas, PollSend]

  /** A verdict that moves nothing hands out nothing. */
  predicate HandOk(s: State) {
    InHand(s).Some? && InHand(s).value.rev == s.pollRev ==> InHand(s).value.out == []
  }

  /** Nothing but a fill row right above what is in hand. */
  predicate Settles(s: State, e: State) {
    && HeldRev(e) == HeldRev(s) && e.sent + Pending(e) == s.sent + Pending(s) && HandOk(e)
    && e.pollStart == s.pollStart && e.ops == s.ops
    && (forall i {:trigger i in s.t} {:trigger i in e.t} :: i in s.t ==> i in e.t && e.t[i] == s.t[i])
    && (forall i {:trigger i in s.full} {:trigger i in e.full} :: i != HeldRev(s) + 1 && i in s.full ==> i in e.full && e.full[i] == s.full[i])
  }

  lemma SettleDecide(s: State)
    requires HandOk(s)
    ensures Settles(s, ApplyPoll(s, PollDecide(false)))
  {
    if s.phase.Fetched? {
      DecideUnskipped(s.phase.batch, s.pollRev, s.skip, false);
      hide Decide, FillGaps;
      var e := DecideStep(s, s.phase.batch, false);
      assert e == s.(skip := e.skip, phase := e.phase) && InHand(e) == InHand(s);
    }
  }

  lemma SettleFill(s: State)
    requires HandOk(s)
    ensures Settles(s, ApplyPoll(s, PollFill))
  {
  }

  lemma SettleCas(s: State)
    requires HandOk(s)
    ensures Settles(s, ApplyPoll(s, PollCas))
  {
    assert s.sent + [] == s.sent;
  }

  lemma SettleSend(s: State)
    requires HandOk(s)
    ensures Settles(s, ApplyPoll(s, PollSend))
  {
    assert s.sent + [] == s.sent;
    if s.phase.Saved? { assert (s.sent + s.phase.out) + [] == s.sent + s.phase.out; }
  }

  lemma SettleStep(s: State, a: Action)
    requires HandOk(s) && a in SETTLE
    ensures Settles(s, Apply(s, a)) && Allowed(s, a) && Prompt(s, a)
  {
    SettleDecide(s);
    SettleFill(s);
    SettleCas(s);
    SettleSend(s);
    hide Settles, HandOk;
    if a.PollDecide? && s.phase.Fetched? { DecideUnskipped(s.phase.batch, s.pollRev, s.skip, false); }
  }

  lemma SettlesTwice(s: State, m: State, e: State)
    requires Settles(s, m) && Settles(m, e)
    ensures Settles(s, e)
  {
  }

  lemma SettlesItself(s: State)
    requires HandOk(s)
    ensures Settles(s, s)
  {
  }

  /** A run of these steps, in any order. */
  lemma {:induction false} SettleSteps(s: State, actions: seq<Action>)
    requires HandOk(s) && forall a :: a in actions ==> a in SETTLE
    ensures AllowedRun(s, actions) && PromptRun(s, actions) && Settles(s, Run(s, actions))
    decreases |actions|
  {
    if actions == [] {
      SettlesItself(s);
    } else {
      SettleStep(s, actions[0]);
      var e := Apply(s, actions[0]);
      assert HandOk(e);
      hide Apply, Allowed, Prompt;
      SettleSteps(e, actions[1..]);
      SettlesTwice(s, e, Run(e, actions[1..]));
    }
  }

  /** After the four steps nothing is in hand. */
  lemma SettleRuns(s: State)
    requires HandOk(s)
    ensures NoCompaction(SETTLE) && AllowedRun(s, SETTLE) && PromptRun(s, SETTLE)
    ensures var e := Run(s, SETTLE);
            Settles(s, e) && (e.phase.Waiting? || e.phase.Marked?) && e.pollRev == HeldRev(s) && e.sent == s.sent + Pending(s)
  {
    SettleSteps(s, SETTLE);
    SettlesAll(s);
    var e := Run(s, SETTLE);
    hide Run, AllowedRun, PromptRun;
    assert e.sent + [] == e.sent;
  }

  lemma SettlesAll(s: State)
    ensures var e := Run(s, SETTLE); e.phase.Waiting? || e.phase.Marked?
  {
    var s1 := Apply(s, PollDecide(false));
    var s2 := Apply(s1, PollFill);
    var s3 := Apply(s2, PollCas);
    SettlePhases(s, s1, s2, s3, Apply(s3, PollSend));
    hide Apply, AllowedRun, PromptRun;
    assert SETTLE[1..] == [PollFill, PollCas, PollSend] && SETTLE[1..][1..] == [PollCas, PollSend];
    assert SETTLE[1..][1..][1..] == [PollSend] && SETTLE[1..][1..][1..][1..] == [];
    assert Run(s, SETTLE) == Run(s1, SETTLE[1..]) == Run(s2, SETTLE[1..][1..]) == Run(s3, SETTLE[1..][1..][1..]);
    assert Run(s3, [PollSend]) == Run(Apply(s3, PollSend), []);
  }

  lemma SettlePhases(s: State, s1: State, s2: State, s3: State, s4: State)
    requires s1 == Apply(s, PollDecide(false)) && s2 == Apply(s1, PollFill) && s3 == Apply(s2, PollCas) && s4 == Apply(s3, PollSend)
    ensures s4.phase.Waiting? || s4.phase.Marked?
  {
    PhasesGo(s);
    PhasesGo(s1);
    PhasesGo(s2);
    PhasesGo(s3);
    hide ApplyPoll, ApplyOp, ApplyCompact;
  }

  lemma PhasesGo(s: State)
    ensures !ApplyPoll(s, PollDecide(false)).phase.Fetched?
    ensures !s.phase.Fetched? ==> !ApplyPoll(s, PollFill).phase.Fetched? && !ApplyPoll(s, PollFill).phase.Decided?
    ensures var e := ApplyPoll(s, PollCas);
            !s.phase.Fetched? && !s.phase.Decided? ==> !e.phase.Fetched? && !e.phase.Decided? && !e.phase.Filled?
    ensures var e := ApplyPoll(s, PollSend);
            !s.phase.Fetched? && !s.phase.Decided? && !s.phase.Filled? ==> e.phase.Waiting? || e.phase.Marked?
  {
    hide Decide, FillGaps, Conflict;
  }

  /**
    WaitForSyncTo returns: for a revision up to what the poller has in hand, its next steps alone, whatever it is at,
    bring polledRev there, and by then all of it was sent.
   */
  lemma SyncReturns(s: State, revision: nat)
    requires Inv(s) && !s.phase.Marked? && revision <= HeldRev(s)
    ensures var e := Run(s, SETTLE + [PollMark]);
            && AllowedRun(s, SETTLE + [PollMark]) && revision <= e.polledRev
            && forall i :: e.pollStart < i <= revision && i in e.t && !IsFill(e.t[i].name) ==> Versioned(i, e.t[i]) in e.sent
  {
    HandIsOk(s);
    SettleRuns(s);
    SettlesAll(s);
    var m := Run(s, SETTLE);
    SettledWaits(s);
    hide Run, AllowedRun, PromptRun, Inv, Settles;
    RunConcat(s, SETTLE, [PollMark]);
    OneStep(m, PollMark);
    MarkShows(m);
    RunKeeps(s, SETTLE + [PollMark]);
    SyncMeansSent(Run(s, SETTLE + [PollMark]), revision);
  }

  lemma HandIsOk(s: State)
    requires Inv(s)
    ensures HandOk(s)
  {
    if InHand(s).Some? && InHand(s).value.rev == s.pollRev { assert EventsBetween(s.full, s.pollRev, s.pollRev) == []; }
  }

  lemma MarkShows(s: State)
    requires s.phase.Waiting?
    ensures Apply(s, PollMark).polledRev == s.pollRev && Allowed(s, PollMark)
  {
  }

  lemma SettledWaits(s: State)
    requires !s.phase.Marked?
    ensures Run(s, SETTLE).phase.Waiting?
  {
    var s1 := Apply(s, PollDecide(false));
    var s2 := Apply(s1, PollFill);
    var s3 := Apply(s2, PollCas);
    NotMarked(s, PollDecide(false));
    NotMarked(s1, PollFill);
    NotMarked(s2, PollCas);
    NotMarked(s3, PollSend);
    SettlesAll(s);
    hide Apply, AllowedRun, PromptRun;
    assert SETTLE[1..] == [PollFill, PollCas, PollSend] && SETTLE[1..][1..] == [PollCas, PollSend];
    assert SETTLE[1..][1..][1..] == [PollSend] && SETTLE[1..][1..][1..][1..] == [];
    assert Run(s, SETTLE) == Run(s1, SETTLE[1..]) == Run(s2, SETTLE[1..][1..]) == Run(s3, SETTLE[1..][1..][1..]);
    assert Run(s3, [PollSend]) == Run(Apply(s3, PollSend), []);
  }

  lemma NotMarked(s: State, a: Action)
    requires !s.phase.Marked? && a in SETTLE
    ensures !Apply(s, a).phase.Marked?
  {
    hide Decide, FillGaps, Conflict;
  }

  // ------------------------------------------------ the poller reads what is there

  /** One round on the spot, jumping the gap the poller has waited at. limit is the size of a batch. */
  function Round(limit: int): seq<Action> {
    [PollMark, PollFetch(limit), PollDecide(true), PollFill, PollCas, PollSend]
  }

  /** A batch holds every row of the table from the poller's revision up to its last one, and one row at least. */
  lemma NextBatch(t: Table, rev: nat, limit: int)
    ensures var batch := After(t, "", "", rev, limit);
            && Rising(rev, batch)
            && (forall e :: e in batch ==> e.id in t && t[e.id] == e.row)
            && (forall i, k :: i in t && rev < i && 0 <= k < |batch| && i <= batch[k].id ==> Versioned(i, t[i]) in batch)
            && (forall i :: i in t && rev < i ==> batch != [])
  {
    AfterKeepsOldest(t, "", "", rev, limit);
    var batch, all := After(t, "", "", rev, limit), IdsAfter(t, "", "", rev);
    forall i, k | i in t && rev < i && 0 <= k < |batch| && i <= batch[k].id ensures Versioned(i, t[i]) in batch {
      assert i in all;
      assert Versioned(i, t[i]) in batch[..k + 1];
    }
    forall i | i in t && rev < i ensures batch != [] { assert i in all; }
  }

  /** What a round comes to. */
  function RoundVerdict(s: State, limit: int): Verdict {
    Decide(After(s.t, "", "", s.pollRev, limit), s.pollRev, s.skip, true)
  }

  function Marked1(s: State): State {
    if s.phase.Waiting? then s.(polledRev := s.pollRev, phase := Phase.Marked) else s
  }

  lemma RoundReads(s: State, limit: int)
    requires (s.phase.Waiting? || s.phase.Marked?) && After(s.t, "", "", s.pollRev, limit) != []
    ensures var s2 := Marked1(s).(phase := Fetched(After(s.t, "", "", s.pollRev, limit)));
            && Apply(s, PollMark) == Marked1(s) && Apply(Marked1(s), PollFetch(limit)) == s2
            && Prompt(s2, PollDecide(true))
  {
    NextBatch(s.t, s.pollRev, limit);
    hide After, Decide;
  }

  /** The second half, from the batch on: nothing is filled. */
  lemma RoundWrites(s: State, v: Verdict)
    requires s.phase.Fetched? && v == Decide(s.phase.batch, s.pollRev, s.skip, true)
    ensures var s3 := DecideStep(s, s.phase.batch, true);
            var s4 := s3.(phase := Filled(v));
            && Apply(s, PollDecide(true)) == s3 && Apply(s3, PollFill) == s4 && Apply(s4, PollCas) == CasStep(s4, v)
    ensures var e := Apply(CasStep(DecideStep(s, s.phase.batch, true).(phase := Filled(v)), v), PollSend);
            && e.t == s.t && e.phase.Waiting? && e.pollRev == v.rev && e.skip == v.skip
            && s.sent <= e.sent && (v.rev != s.pollRev ==> e.sent == s.sent + v.out)
  {
    LateEnds(s.phase.batch, s.pollRev, s.skip);
    hide Decide, FillGaps;
  }

  lemma RoundRuns(s: State, limit: int)
    requires (s.phase.Waiting? || s.phase.Marked?) && After(s.t, "", "", s.pollRev, limit) != []
    ensures var v, e := RoundVerdict(s, limit), Run(s, Round(limit));
            && PromptRun(s, Round(limit)) && e.t == s.t && e.phase.Waiting? && e.pollRev == v.rev && e.skip == v.skip
            && s.sent <= e.sent && (v.rev != s.pollRev ==> e.sent == s.sent + v.out)
  {
    var v, batch := RoundVerdict(s, limit), After(s.t, "", "", s.pollRev, limit);
    var s1 := Marked1(s);
    var s2 := s1.(phase := Fetched(batch));
    RoundReads(s, limit);
    RoundWrites(s2, v);
    hide Apply, Run, PromptRun, DecideStep, CasStep, Prompt, After;
    var s3 := DecideStep(s2, batch, true);
    var s4 := s3.(phase := Filled(v));
    RoundRun(limit, s, s1, s2, s3, s4, CasStep(s4, v));
  }

  lemma RoundRun(limit: int, s: State, s1: State, s2: State, s3: State, s4: State, s5: State)
    requires Apply(s, PollMark) == s1 && Apply(s1, PollFetch(limit)) == s2 && Apply(s2, PollDecide(true)) == s3
    requires Apply(s3, PollFill) == s4 && Apply(s4, PollCas) == s5 && Prompt(s2, PollDecide(true))
    ensures PromptRun(s, Round(limit)) && Run(s, Round(limit)) == Apply(s5, PollSend)
  {
    hide Apply, Decide;
    assert Prompt(s, PollMark) && Prompt(s1, PollFetch(limit)) && Prompt(s3, PollFill) && Prompt(s4, PollCas) && Prompt(s5, PollSend);
    hide Prompt;
    OneStep(s5, PollSend);
    Then(s4, PollCas, [PollSend]);
    Then(s3, PollFill, [PollCas] + [PollSend]);
    Then(s2, PollDecide(true), [PollFill] + ([PollCas] + [PollSend]));
    Then(s1, PollFetch(limit), [PollDecide(true)] + ([PollFill] + ([PollCas] + [PollSend])));
    Then(s, PollMark, [PollFetch(limit)] + ([PollDecide(true)] + ([PollFill] + ([PollCas] + [PollSend]))));
    assert Round(limit) == [PollMark] + ([PollFetch(limit)] + ([PollDecide(true)] + ([PollFill] + ([PollCas] + [PollSend]))));
  }

  /** Every poll asks for batches of this size. */
  predicate InBatchesOf(actions: seq<Action>, limit: int) {
    forall a :: a in actions && a.PollFetch? ==> a.limit == limit
  }

  lemma RoundMoves(batch: seq<Versioned>, rev: nat, skip: nat)
    requires Rising(rev, batch) && batch != []
    ensures var v := Decide(batch, rev, skip, true); v.rev == rev ==> v.skip == rev + 1 && skip != rev + 1
  {
    if batch[0].id == rev + 1 || skip == rev + 1 {
      DecideTakes(batch[1..], batch[0].id, skip, true);
    }
  }

  /** A round sends the row, or comes closer to it, or has met the gap that the next round jumps. */
  lemma RoundProgress(s: State, i: nat, limit: int)
    requires (s.phase.Waiting? || s.phase.Marked?) && i in s.t && s.pollRev < i && !IsFill(s.t[i].name)
    ensures var e := Run(s, Round(limit));
            && PromptRun(s, Round(limit)) && e.phase.Waiting? && e.t == s.t
            && (Versioned(i, s.t[i]) in e.sent
                || s.pollRev < e.pollRev < i
                || (e.pollRev == s.pollRev && e.skip == s.pollRev + 1 != s.skip))
  {
    var batch, v := After(s.t, "", "", s.pollRev, limit), RoundVerdict(s, limit);
    NextBatch(s.t, s.pollRev, limit);
    RoundRuns(s, limit);
    DecideTakes(batch, s.pollRev, s.skip, true);
    RoundMoves(batch, s.pollRev, s.skip);
    hide Run, PromptRun, Decide, After;
    if i <= v.rev {
      var k :| 0 <= k < |batch| && batch[k].id == v.rev;
      assert Versioned(i, s.t[i]) in batch;
    }
  }

  /** A client row ahead of the poller is sent by rounds of the poller alone. */
  lemma {:induction false} RoundsSend(s: State, i: nat, limit: int) returns (actions: seq<Action>)
    requires (s.phase.Waiting? || s.phase.Marked?) && i in s.t && s.pollRev < i && !IsFill(s.t[i].name)
    ensures InBatchesOf(actions, limit) && PromptRun(s, actions) && Versioned(i, s.t[i]) in Run(s, actions).sent
    decreases i - s.pollRev, if s.skip == s.pollRev + 1 then 0 else 1
  {
    hide Run, PromptRun;
    RoundProgress(s, i, limit);
    var e := Run(s, Round(limit));
    actions := Round(limit);
    if Versioned(i, s.t[i]) !in e.sent {
      var more := RoundsSend(e, i, limit);
      RunConcat(s, Round(limit), more);
      actions := Round(limit) + more;
    }
  }

  ghost predicate SentBySome(s: State, v: Versioned, limit: int) {
    exists actions :: InBatchesOf(actions, limit) && PromptRun(s, actions) && v in Run(s, actions).sent
  }

  /** What is in hand, and every client row of the table ahead of that, can still be sent. */
  lemma CanBeSent(s: State, v: Versioned, limit: int)
    requires HandOk(s)
    requires v in Pending(s) || (v.id in s.t && s.t[v.id] == v.row && HeldRev(s) < v.id && !IsFill(v.row.name))
    ensures SentBySome(s, v, limit)
  {
    SettleRuns(s);
    var e := Run(s, SETTLE);
    if v !in Pending(s) {
      hide Run, PromptRun, AllowedRun;
      var more := RoundsSend(e, v.id, limit);
      RunConcat(s, SETTLE, more);
      assert InBatchesOf(SETTLE + more, limit) && PromptRun(s, SETTLE + more);
    }
  }

  // ------------------------------------------------------ compactions, exactly

  /** Everything the history owed and had not sent is sent by some further run, whatever the size of its batches. */
  ghost predicate AllDeliverable(s: State, c: State, limit: int) {
    forall i {:trigger s.full[i]} :: i in s.full && SentRev(s) < i && !IsFill(s.full[i].name) ==> SentBySome(c, Versioned(i, s.full[i]), limit)
  }

  lemma PendingIs(s: State)
    requires Inv(s)
    ensures Pending(s) == EventsBetween(s.full, SentRev(s), HeldRev(s)) && HandOk(s)
    ensures s.sent + Pending(s) == EventsBetween(s.full, s.pollStart, HeldRev(s))
  {
    HeldIsPast(s);
    EventsSplit(s.full, s.pollStart, SentRev(s), HeldRev(s));
  }

  /** A client row ahead of the poller that the compaction takes is lost. */
  lemma UnreadIsLost(s: State, target: nat, i: nat)
    requires Inv(s) && i in s.t && HeldRev(s) < i && !IsFill(s.t[i].name) && SqlVictim(s.t, target, i)
    ensures i in s.full && SentRev(s) < i && Lost(Compacted(s, target), Versioned(i, s.full[i]))
  {
    var c := Compacted(s, target);
    HeldIsPast(s);
    PendingIs(s);
    EventsBetweenExact(s.full, s.pollStart, HeldRev(s));
    assert Pending(c) == Pending(s);
    assert forall v :: v in s.sent || v in Pending(s) ==> v in s.sent + Pending(s);
    TablesFacts(s.t, s.full, s.nextId, s.pollStart, HeldRev(s));
    forall op | op in s.ops && s.ops[op].Reserved? ensures s.ops[op].id != i {
      assert OpOk(s.t, s.full, s.nextId, s.pollStart, HeldRev(s), s.currentRev, s.ops[op]);
    }
    assert i !in c.t;
  }

  lemma OwedIsThere(s: State, target: nat, i: nat)
    requires Inv(s) && UnreadSafe(s, target) && i in s.full && SentRev(s) < i && !IsFill(s.full[i].name)
    ensures var c, v := Compacted(s, target), Versioned(i, s.full[i]);
            v in Pending(c) || (i in c.t && c.t[i] == v.row && HeldRev(c) < i)
  {
    PendingIs(s);
    HeldIsPast(s);
    TablesFacts(s.t, s.full, s.nextId, s.pollStart, HeldRev(s));
    var c := Compacted(s, target);
    assert Pending(c) == Pending(s) && HeldRev(c) == HeldRev(s);
    if i <= HeldRev(s) {
      EventsBetweenExact(s.full, SentRev(s), HeldRev(s));
    } else {
      assert i in s.t && !SqlVictim(s.t, target, i);
    }
  }

  /**
    A compaction to any target leaves every owed row to some further run if and only if it takes no client
    row ahead of what the poller has in hand. What it takes there no further run sends.
   */
  lemma UnreadIffDeliverable(s: State, target: nat, limit: int)
    requires Inv(s)
    ensures UnreadSafe(s, target) <==> AllDeliverable(s, Compacted(s, target), limit)
  {
    var c := Compacted(s, target);
    if UnreadSafe(s, target) {
      PendingIs(s);
      assert HandOk(c);
      forall i | i in s.full && SentRev(s) < i && !IsFill(s.full[i].name) ensures SentBySome(c, Versioned(i, s.full[i]), limit) {
        OwedIsThere(s, target, i);
        CanBeSent(c, Versioned(i, s.full[i]), limit);
      }
    } else {
      var i :| i in s.t && HeldRev(s) < i && SqlVictim(s.t, target, i) && !IsFill(s.t[i].name);
      UnreadIsLost(s, target, i);
      var v := Versioned(i, s.full[i]);
      assert !IsFill(s.full[i].name);
      forall actions | PromptRun(c, actions) ensures v !in Run(c, actions).sent { LostIsNeverSent(c, actions, v); }
      assert !SentBySome(c, v, limit);
    }
  }

  predicate HandedExactly(e: State) {
    e.sent == EventsBetween(e.full, e.pollStart, SentRev(e))
  }

  /** Whatever writers and poller do next, watchers are handed exactly what they are owed. */
  ghost predicate StaysExact(s: State) {
    forall actions: seq<Action> :: NoCompaction(actions) && AllowedRun(s, actions) ==> HandedExactly(Run(s, actions))
  }

  lemma {:induction false} StaysExactInv(s: State)
    requires Inv(s)
    ensures StaysExact(s)
  {
    forall actions: seq<Action> | NoCompaction(actions) && AllowedRun(s, actions) ensures HandedExactly(Run(s, actions)) {
      RunKeeps(s, actions);
    }
  }

  /** An owed row behind what is in hand that is neither sent nor in hand is passed over. */
  lemma PassedOver(s: State, i: nat)
    requires HandOk(s) && i in s.full && s.pollStart < i <= HeldRev(s) && !IsFill(s.full[i].name)
    requires Versioned(i, s.full[i]) !in s.sent + Pending(s)
    ensures NoCompaction(SETTLE) && AllowedRun(s, SETTLE) && !HandedExactly(Run(s, SETTLE))
  {
    SettleRuns(s);
    var e := Run(s, SETTLE);
    hide Run, AllowedRun, PromptRun;
    EventsBetweenExact(e.full, e.pollStart, SentRev(e));
    assert Versioned(i, s.full[i]) in EventsBetween(e.full, e.pollStart, SentRev(e));
  }

  /** An insert that commits into a slot the poller has come past is passed over. */
  lemma LateCommit(s: State, op: nat)
    requires HandOk(s) && op in s.ops && s.ops[op].Reserved?
    requires var Reserved(_, id, row) := s.ops[op];
             && id !in s.t && !Conflict(s.t, row.name, row.prevRev) && !IsFill(row.name)
             && s.pollStart < id <= HeldRev(s) && Versioned(id, row) !in s.sent + Pending(s)
    ensures !StaysExact(s)
  {
    var d := Apply(s, Commit(op));
    assert d.full == s.full[s.ops[op].id := s.ops[op].row] && Pending(d) == Pending(s) && HeldRev(d) == HeldRev(s);
    PassedOver(d, s.ops[op].id);
    var actions := [Commit(op)] + SETTLE;
    assert Allowed(s, Commit(op));
    Then(s, Commit(op), SETTLE);
    hide Run, AllowedRun, HandedExactly, Apply;
    LosesByRun(s, actions);
  }

  lemma HeldByNobody(s: State, op: nat)
    requires Inv(s) && op in s.ops && s.ops[op].Reserved? && !IsFill(s.ops[op].row.name)
    ensures Versioned(s.ops[op].id, s.ops[op].row) !in s.sent + Pending(s)
  {
    PendingIs(s);
    assert OpOk(s.t, s.full, s.nextId, s.pollStart, HeldRev(s), s.currentRev, s.ops[op]);
    EventsBetweenExact(s.full, s.pollStart, HeldRev(s));
  }

  /** Of a compaction that takes nothing unread, the slots decide. */
  lemma SlotsIffExact(s: State, target: nat)
    requires Inv(s) && CompactRev(s.t) < target < MaxId(s.t) && UnreadSafe(s, target)
    ensures SlotsSafe(s, target) <==> StaysExact(Compacted(s, target))
  {
    var c := Compacted(s, target);
    if SlotsSafe(s, target) {
      CompactKeeps(s, target);
      StaysExactInv(c);
    } else {
      var op :| op in s.ops && s.ops[op].Reserved? && !Harmless(c.t, s.pollStart, HeldRev(s), s.ops[op].id, s.ops[op].row);
      OpenSlotLoses(s, target, op);
    }
  }

  lemma OpenSlotLoses(s: State, target: nat, op: nat)
    requires Inv(s) && op in s.ops && s.ops[op].Reserved?
    requires !Harmless(CompactTo(s.t, target), s.pollStart, HeldRev(s), s.ops[op].id, s.ops[op].row)
    ensures !StaysExact(Compacted(s, target))
  {
    var c := Compacted(s, target);
    HeldByNobody(s, op);
    PendingIs(s);
    hide Inv, EventsBetween, CompactTo, StaysExact;
    assert Pending(c) == Pending(s) && HeldRev(c) == HeldRev(s) && HandOk(c);
    LateCommit(c, op);
  }

  /**
    The exact condition on a compaction below the head: every further run hands out exactly what it passes,
    and everything that was owed and unsent is still sent by some run, if and only if the slots are safe and
    nothing unread goes.
   */
  lemma CompactionIffExact(s: State, target: nat, limit: int)
    requires Inv(s) && CompactRev(s.t) < target < MaxId(s.t)
    ensures SlotsSafe(s, target) && UnreadSafe(s, target)
            <==> StaysExact(Compacted(s, target)) && AllDeliverable(s, Compacted(s, target), limit)
  {
    UnreadIffDeliverable(s, target, limit);
    if UnreadSafe(s, target) { SlotsIffExact(s, target); }
  }

  // -------------------------------------------------------- the fallback, exactly

  /**
    The exact condition on a jump: every further run hands out exactly what it passes if and only if no
    visible row is jumped that is not in the batch, and no insert can still come into a jumped slot.
   */
  lemma SkipIffExact(s: State, late: bool)
    requires Inv(s) && s.phase.Fetched? && Decide(s.phase.batch, s.pollRev, s.skip, late).skipped
    ensures SkipSafe(s, s.phase.batch, late) <==> StaysExact(DecideStep(s, s.phase.batch, late))
  {
    var batch, d := s.phase.batch, DecideStep(s, s.phase.batch, late);
    if SkipSafe(s, batch, late) {
      SkipKeeps(s, late);
      StaysExactInv(d);
    } else {
      SkipLoses(s, late);
    }
  }

  lemma SkipLoses(s: State, late: bool)
    requires Inv(s) && s.phase.Fetched? && Decide(s.phase.batch, s.pollRev, s.skip, late).skipped
    requires !SkipSafe(s, s.phase.batch, late)
    ensures !StaysExact(DecideStep(s, s.phase.batch, late))
  {
    var batch := s.phase.batch;
    var v := Decide(batch, s.pollRev, s.skip, late);
    if !CoversOwed(s.t, batch, s.pollRev, v.rev) {
      var i :| s.pollRev < i <= v.rev && i in s.t && !IsFill(s.t[i].name) && Versioned(i, s.t[i]) !in batch;
      JumpedRowLoses(s, late, i);
    } else {
      var op :| op in s.ops && s.ops[op].Reserved? && !Harmless(s.t, s.pollStart, v.rev, s.ops[op].id, s.ops[op].row);
      JumpedSlotLoses(s, late, op);
    }
  }

  lemma JumpedHand(s: State, late: bool)
    requires Inv(s) && s.phase.Fetched?
    ensures var v, d := Decide(s.phase.batch, s.pollRev, s.skip, late), DecideStep(s, s.phase.batch, late);
            && HandOk(d) && HeldRev(d) == v.rev && Pending(d) == v.out && d.sent == s.sent
            && s.pollStart <= s.pollRev && (forall e :: e in v.out ==> e in s.phase.batch)
            && (forall e :: e in s.sent ==> e.id <= s.pollRev && e.id in s.full && s.full[e.id] == e.row)
            && (forall e :: e in v.out ==> e.id in s.full && s.full[e.id] == e.row && !IsFill(e.row.name))
  {
    DecideTakes(s.phase.batch, s.pollRev, s.skip, late);
    HeldIsPast(s);
    EventsBetweenExact(s.full, s.pollStart, SentRev(s));
    forall e | e in Decide(s.phase.batch, s.pollRev, s.skip, late).out ensures e.id in s.full && s.full[e.id] == e.row {
      var k :| 0 <= k < |s.phase.batch| && s.phase.batch[k] == e;
    }
  }

  /** A visible row that is jumped and not in the batch is lost. */
  lemma JumpedRowLoses(s: State, late: bool, i: nat)
    requires Inv(s) && s.phase.Fetched?
    requires s.pollRev < i <= Decide(s.phase.batch, s.pollRev, s.skip, late).rev
    requires i in s.t && !IsFill(s.t[i].name) && Versioned(i, s.t[i]) !in s.phase.batch
    ensures !StaysExact(DecideStep(s, s.phase.batch, late))
  {
    var d := DecideStep(s, s.phase.batch, late);
    JumpedHand(s, late);
    assert i in d.full && d.full[i] == s.t[i];
    hide Inv, StaysExact, DecideStep;
    PassedOver(d, i);
    LosesByRun(d, SETTLE);
  }

  lemma LosesByRun(s: State, actions: seq<Action>)
    requires NoCompaction(actions) && AllowedRun(s, actions) && !HandedExactly(Run(s, actions))
    ensures !StaysExact(s)
  {
  }

  /** A row that can still come into a jumped slot is lost. */
  lemma JumpedSlotLoses(s: State, late: bool, op: nat)
    requires Inv(s) && s.phase.Fetched? && op in s.ops && s.ops[op].Reserved?
    requires !Harmless(s.t, s.pollStart, Decide(s.phase.batch, s.pollRev, s.skip, late).rev, s.ops[op].id, s.ops[op].row)
    ensures !StaysExact(DecideStep(s, s.phase.batch, late))
  {
    var d := DecideStep(s, s.phase.batch, late);
    JumpedHand(s, late);
    assert OpOk(s.t, s.full, s.nextId, s.pollStart, HeldRev(s), s.currentRev, s.ops[op]);
    assert d.t == s.t && d.ops == s.ops && d.pollStart == s.pollStart;
    hide Inv, StaysExact, DecideStep, OpOk;
    LateCommit(d, op);
  }

  predicate Missing(batch: seq<Versioned>, i: nat) {
    forall k :: 0 <= k < |batch| ==> batch[k].id != i
  }

  /** The skip fallback is the one way to pass a slot that was not in the batch. */
  lemma {:induction false} OnlySkippingLeavesGaps(full: Table, batch: seq<Versioned>, rev: nat, skip: nat, late: bool)
    requires BatchOf(full, rev, batch)
    ensures var v := Decide(batch, rev, skip, late);
            v.skipped <==> exists i :: rev < i <= v.rev && Missing(batch, i)
    decreases |batch|
  {
    var v := Decide(batch, rev, skip, late);
    if batch != [] {
      var e, rest := batch[0], batch[1..];
      if e.id == rev + 1 {
        OnlySkippingLeavesGaps(full, rest, e.id, skip, late);
        forall i | rev < i <= v.rev && i != e.id ensures Missing(batch, i) <==> Missing(rest, i) {
          if Missing(batch, i) {
            assert forall k :: 0 <= k < |rest| ==> rest[k] == batch[k + 1];
          }
        }
        assert batch[0].id == e.id && !Missing(batch, e.id);
      } else if v.skipped {
        DecideAdvances(full, rest, e.id, skip, late);
        assert rev + 1 <= v.rev && Missing(batch, rev + 1);
      }
    }
  }

  lemma {:induction false} DecideAdvances(full: Table, batch: seq<Versioned>, rev: nat, skip: nat, late: bool)
    requires BatchOf(full, rev, batch)
    ensures rev <= Decide(batch, rev, skip, late).rev
    decreases |batch|
  {
    if batch != [] { DecideAdvances(full, batch[1..], batch[0].id, skip, late); }
  }

  // ------------------------------------------------------ the compacted fill row

  /**
    Compacting a fill row whose id an insert still holds loses that insert's event: it commits into a
    slot the poller has passed, and the watchers are never handed it.
   */
  lemma CompactedFillLosesEvent(s: State, op: nat, target: nat)
    requires Inv(s) && op in s.ops && s.ops[op].Reserved?
    requires var id := s.ops[op].id;
             id in s.t && s.pollStart < id <= SentRev(s) && IsFill(s.full[id].name) && s.full[id].deleted && id <= target
    requires var row := s.ops[op].row;
             !IsFill(row.name) && !Conflict(CompactTo(s.t, target), row.name, row.prevRev)
    ensures var e := Apply(Compacted(s, target), Commit(op));
            && s.ops[op].id in e.t && e.t[s.ops[op].id] == s.ops[op].row
            && Versioned(s.ops[op].id, s.ops[op].row) in EventsBetween(e.full, e.pollStart, SentRev(e))
            && Versioned(s.ops[op].id, s.ops[op].row) !in e.sent
  {
    var id, row := s.ops[op].id, s.ops[op].row;
    assert OpOk(s.t, s.full, s.nextId, s.pollStart, HeldRev(s), s.currentRev, s.ops[op]);
    FillGoes(s.t, target, id);
    CommitLands(Compacted(s, target), op);
    LateRowUnsent(s.full, SetCompactRev(s.full, target)[id := row], s.pollStart, SentRev(s), id, row);
  }

  lemma CommitLands(s: State, op: nat)
    requires op in s.ops && s.ops[op].Reserved? && s.ops[op].id !in s.t
    requires !Conflict(s.t, s.ops[op].row.name, s.ops[op].row.prevRev)
    ensures var e, id, row := Apply(s, Commit(op)), s.ops[op].id, s.ops[op].row;
            && e.t == s.t[id := row] && e.full == s.full[id := row]
            && e.sent == s.sent && e.pollStart == s.pollStart && SentRev(e) == SentRev(s)
  {
  }

  lemma FillGoes(t: Table, target: nat, id: nat)
    requires id in t && t[id].deleted && id <= target
    ensures id !in CompactTo(t, target)
  {
    assert SqlVictim(t, target, id);
  }

  /** A row that replaces a fill row in a slot already passed is owed and was not sent. */
  lemma LateRowUnsent(full: Table, f: Table, a: nat, b: nat, id: nat, row: Row)
    requires a < id <= b && id in full && IsFill(full[id].name)
    requires id in f && f[id] == row && !IsFill(row.name)
    ensures Versioned(id, row) in EventsBetween(f, a, b) && Versioned(id, row) !in EventsBetween(full, a, b)
  {
    EventsBetweenExact(full, a, b);
    EventsBetweenExact(f, a, b);
  }
}

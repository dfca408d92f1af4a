/**
  Runs from the start that lose an event: a fill row is planted at an id an insert still holds, passed, and
  compacted; the fallback jumps such an id; a compaction takes a row the poller has not read.
 */
module PollerTrace {
  import opened Options
  import opened KineTable
  import opened Poller
  import opened PollerExact
  import Watching

  const CRK := Row(COMPACT_REV_KEY, true, false, 0, 0, 0, "", "")
  const FAST := Row("a", true, false, 0, 0, 0, "", "")
  const SLOW := Row("b", true, false, 0, 0, 0, "", "")
  const FILL := FillRow(2)

  const T1: Table := map[1 := CRK]
  const T2: Table := map[1 := CRK, 3 := FAST]
  const T3: Table := map[1 := CRK, 2 := FILL, 3 := FAST]

  const START := State(T1, T1, 2, map[], 1, 1, 0, Waiting, [], 0, 0, None)

  /** Two inserts reserve ids 2 and 3, and only the second commits. */
  const INSERTS: seq<Action> := [Load(0), Reserve(0, SLOW), Load(1), Reserve(1, FAST), Commit(1)]

  /** One round of the poller. */
  const POLL: seq<Action> := [PollMark, PollFetch(0), PollDecide(false), PollFill, PollCas]

  const OPS: map<nat, Op> := map[0 := Reserved(0, 2, SLOW), 1 := Committed(0, 3)]

  lemma Step(s: State, actions: seq<Action>, e: State)
    requires actions != [] && Apply(s, actions[0]) == e && Allowed(s, actions[0])
    ensures Run(s, actions) == Run(e, actions[1..])
    ensures AllowedRun(s, actions) <==> AllowedRun(e, actions[1..])
  {
  }

  lemma Nothing(s: State)
    ensures Run(s, []) == s && AllowedRun(s, [])
  {
  }

  /** A query returns the one ascending list of the rows it asks for. */
  lemma AfterIs(t: Table, rev: nat, r: seq<Versioned>)
    requires Watching.Ascending(r) && forall v :: v in r <==> rev < v.id && v.id in t && t[v.id] == v.row
    ensures After(t, "", "", rev, 0) == r
  {
    Watching.AfterExact(t, "", "", rev);
    Watching.SameList(After(t, "", "", rev, 0), r);
  }

  lemma FillName()
    ensures IsFill(FILL.name) && FILL.name != "a" && FILL.name != "b" && FILL.name != COMPACT_REV_KEY
  {
    assert FILL.name[0] == 'g';
  }

  lemma StartIsInit()
    ensures Init(START)
  {
    assert MaxId(T1) == 1;
    assert CompactRev(T1) == 0;
    assert NoCrkLink(T1, T1[1]);
  }

  lemma InsertsRun()
    ensures AllowedRun(START, INSERTS)
    ensures Run(START, INSERTS) == START.(t := T2, full := T2, nextId := 4, ops := OPS)
  {
    hide Run, AllowedRun, ApplyCompact, ApplyPoll, After, Decide, FillRow;
    var all := INSERTS;
    var s1 := START.(ops := map[0 := Loaded(0)]);
    var s2 := START.(nextId := 3, ops := map[0 := Reserved(0, 2, SLOW)]);
    var s3 := s2.(ops := s2.ops[1 := Loaded(0)]);
    var s4 := s2.(nextId := 4, ops := s2.ops[1 := Reserved(0, 3, FAST)]);
    var s5 := START.(t := T2, full := T2, nextId := 4, ops := OPS);
    Step(START, all, s1);
    Step(s1, all[1..], s2);
    Step(s2, all[2..], s3);
    Step(s3, all[3..], s4);
    assert !Conflict(T1, "a", 0);
    assert T1[3 := FAST] == T2;
    assert OPS == s4.ops[1 := Committed(0, 3)];
    Step(s4, all[4..], s5);
    assert all[5..] == [];
    Nothing(s5);
  }

  lemma FillMoves(s: State, v: Verdict)
    ensures FillStep(s, v).phase == Filled(v) && FillStep(s, v).pollRev == s.pollRev
  {
  }

  /** The poller's steps, up to the fill. */
  lemma PollSteps(s: State, batch: seq<Versioned>, v: Verdict, rest: seq<Action>)
    requires s.phase == Waiting && batch != [] && After(s.t, "", "", s.pollRev, 0) == batch
    requires Decide(batch, s.pollRev, s.skip, false) == v && !v.skipped
    requires |rest| >= 4 && rest[..4] == POLL[..4]
    ensures var f := FillStep(s.(polledRev := s.pollRev, skip := v.skip, phase := Decided(v)), v);
            (AllowedRun(s, rest) <==> AllowedRun(f, rest[4..])) && Run(s, rest) == Run(f, rest[4..])
  {
    hide Run, AllowedRun, Decide, ApplyOp, ApplyCompact, FillStep, After;
    var s1 := s.(polledRev := s.pollRev, phase := Marked);
    var s2 := s1.(phase := Fetched(batch));
    var s3 := s1.(skip := v.skip, phase := Decided(v));
    assert rest[0] == POLL[0] && rest[1] == POLL[1] && rest[2] == POLL[2] && rest[3] == POLL[3] by {
      assert rest[..4][0] == POLL[0] && rest[..4][1] == POLL[1] && rest[..4][2] == POLL[2] && rest[..4][3] == POLL[3];
    }
    Step(s, rest, s1);
    Step(s1, rest[1..], s2);
    Step(s2, rest[2..], s3);
    Step(s3, rest[3..], FillStep(s3, v));
  }

  /** A round that hands out nothing: it leaves what its verdict and its fill leave. */
  lemma Round(s: State, batch: seq<Versioned>, v: Verdict)
    requires s.phase == Waiting && batch != [] && After(s.t, "", "", s.pollRev, 0) == batch
    requires Decide(batch, s.pollRev, s.skip, false) == v && !v.skipped && v.rev == s.pollRev
    ensures var f := FillStep(s.(polledRev := s.pollRev, skip := v.skip, phase := Decided(v)), v);
            && AllowedRun(s, POLL) && Run(s, POLL) == f.(phase := Waiting)
  {
    hide Run, AllowedRun, Decide, ApplyOp, ApplyCompact, FillStep, After;
    var d := s.(polledRev := s.pollRev, skip := v.skip, phase := Decided(v));
    FillMoves(d, v);
    PollSteps(s, batch, v, POLL);
    assert POLL[4..] == [PollCas];
    NothingToHandOut(FillStep(d, v), v);
  }

  lemma NothingToHandOut(s: State, v: Verdict)
    requires s.phase == Filled(v) && v.rev == s.pollRev
    ensures AllowedRun(s, [PollCas]) && Run(s, [PollCas]) == s.(phase := Waiting)
  {
    hide Run, AllowedRun;
    Step(s, [PollCas], s.(phase := Waiting));
    assert [PollCas][1..] == [];
    Nothing(s.(phase := Waiting));
  }

  const BEFORE := START.(t := T2, full := T2, nextId := 4, ops := OPS)
  const SEEN_GAP := BEFORE.(polledRev := 1, skip := 2)
  const FILLED := SEEN_GAP.(t := T3, full := T3)
  const PASSED := FILLED.(pollRev := 3, sent := [Versioned(3, FAST)])

  /** The first round meets the gap at 2. */
  lemma FirstRound()
    ensures AllowedRun(BEFORE, POLL) && Run(BEFORE, POLL) == SEEN_GAP
  {
    var batch := [Versioned(3, FAST)];
    AfterIs(T2, 1, batch);
    Round(BEFORE, batch, Verdict(1, [], 2, false, false));
  }

  /** The second plants a fill row there. */
  lemma SecondRound()
    ensures AllowedRun(SEEN_GAP, POLL) && Run(SEEN_GAP, POLL) == FILLED
  {
    var batch := [Versioned(3, FAST)];
    AfterIs(T2, 1, batch);
    Round(SEEN_GAP, batch, Verdict(1, [], 2, true, false));
    FillPlants();
  }

  lemma FillPlants()
    ensures var v := Verdict(1, [], 2, true, false);
            FillStep(SEEN_GAP.(polledRev := 1, skip := 2, phase := Decided(v)), v) == FILLED.(phase := Filled(v))
  {
    FillName();
    assert !Conflict(T2, FILL.name, 0);
    assert T2[2 := FILL] == T3;
  }

  /** The third passes both slots and sends the row that committed. */
  lemma ThirdRound()
    ensures AllowedRun(FILLED, POLL + [PollSend]) && Run(FILLED, POLL + [PollSend]) == PASSED
  {
    var batch := [Versioned(2, FILL), Versioned(3, FAST)];
    var v := Verdict(3, [Versioned(3, FAST)], 2, false, false);
    ThirdBatch();
    hide Run, AllowedRun, Decide, ApplyOp, ApplyCompact, After;
    var all := POLL + [PollSend];
    var s4 := FILLED.(phase := Filled(v));
    assert FillStep(FILLED.(phase := Decided(v)), v) == s4;
    assert all[..4] == POLL[..4] && all[4..] == [PollCas, PollSend];
    PollSteps(FILLED, batch, v, all);
    LastSteps(s4, all[4..]);
  }

  lemma LastSteps(s: State, rest: seq<Action>)
    requires s == FILLED.(phase := Filled(Verdict(3, [Versioned(3, FAST)], 2, false, false))) && rest == [PollCas, PollSend]
    ensures AllowedRun(s, rest) && Run(s, rest) == PASSED
  {
    hide Run, AllowedRun, Decide, ApplyOp, ApplyCompact;
    var s5 := FILLED.(pollRev := 3, phase := Saved(1, [Versioned(3, FAST)]));
    Step(s, rest, s5);
    Step(s5, rest[1..], PASSED);
    assert rest[1..][1..] == [];
    Nothing(PASSED);
  }

  lemma ThirdBatch()
    ensures var batch := [Versioned(2, FILL), Versioned(3, FAST)];
            && After(T3, "", "", 1, 0) == batch
            && Decide(batch, 1, 2, false) == Verdict(3, [Versioned(3, FAST)], 2, false, false)
  {
    var batch := [Versioned(2, FILL), Versioned(3, FAST)];
    AfterIs(T3, 1, batch);
    FillName();
    assert !IsFill("a");
    assert batch[1..] == [Versioned(3, FAST)] && batch[1..][1..] == [];
    assert Decide(batch[1..][1..], 3, 2, false) == Verdict(3, [], 2, false, false);
    assert Decide(batch[1..], 2, 2, false) == Verdict(3, [Versioned(3, FAST)], 2, false, false);
  }

  const WHOLE: seq<Action> := INSERTS + (POLL + (POLL + (POLL + [PollSend])))

  lemma WholeRuns()
    ensures Init(START) && AllowedRun(START, WHOLE) && Run(START, WHOLE) == PASSED
  {
    hide Run, AllowedRun, Init;
    StartIsInit();
    InsertsRun();
    FirstRound();
    SecondRound();
    ThirdRound();
    RunConcat(START, INSERTS, POLL + (POLL + (POLL + [PollSend])));
    RunConcat(BEFORE, POLL, POLL + (POLL + [PollSend]));
    RunConcat(SEEN_GAP, POLL, POLL + [PollSend]);
  }

  /**
    From the start, with every step allowed: the slot of the slow insert is filled and passed. Compacted to 2
    with one revision retained, the slot is open, the insert commits, and its event is never sent.
   */
  lemma HeldSlotLosesEvent()
    ensures Init(START) && AllowedRun(START, WHOLE) && Run(START, WHOLE) == PASSED
    ensures SafeCompactRev(2, MaxId(PASSED.t), 1) == 2 <= PASSED.pollRev && 2 < MaxId(PASSED.t)
    ensures !SlotsSafe(PASSED, 2) && !StaysExact(Compacted(PASSED, 2))
    ensures var e := Apply(Compacted(PASSED, 2), Commit(0));
            && 2 in e.t && e.t[2] == SLOW
            && Versioned(2, SLOW) in EventsBetween(e.full, e.pollStart, SentRev(e)) && Versioned(2, SLOW) !in e.sent
  {
    hide Init, Inv, Run, AllowedRun, StaysExact, EventsBetween;
    WholeRuns();
    RunKeepsInit();
    AfterCompaction();
    CompactedFillLosesEvent(PASSED, 0, 2);
    OpenSlotLoses(PASSED, 2, 0);
    CommitLands(Compacted(PASSED, 2), 0);
  }

  lemma AfterCompaction()
    ensures MaxId(T3) == 3 && IsFill(FILL.name) && !IsFill("b") && 2 !in CompactTo(T3, 2)
    ensures !Conflict(CompactTo(T3, 2), "b", 0) && !Harmless(CompactTo(T3, 2), 1, 3, 2, SLOW)
  {
    FillName();
    assert 3 in T3 && MaxId(T3) in T3;
    assert SqlVictim(T3, 2, 2);
    assert !IsFill("b");
  }

  lemma RunKeepsInit()
    ensures Inv(PASSED)
  {
    hide Init, Inv, Run, AllowedRun;
    WholeRuns();
    InitInv(START);
    RunKeeps(START, WHOLE);
  }

  // ------------------------------------------------------------------ the fallback

  const BATCH: seq<Versioned> := [Versioned(3, FAST)]

  /** The third round has the batch with the gap in hand. */
  const JUMPING := SEEN_GAP.(phase := Fetched(BATCH))

  const TO_THE_JUMP: seq<Action> := INSERTS + (POLL + [PollMark, PollFetch(0)])

  lemma Fetches()
    ensures AllowedRun(SEEN_GAP, [PollMark, PollFetch(0)]) && Run(SEEN_GAP, [PollMark, PollFetch(0)]) == JUMPING
  {
    AfterIs(T2, 1, BATCH);
    var s1 := SEEN_GAP.(phase := Phase.Marked);
    assert Apply(SEEN_GAP, PollMark) == s1 && Apply(s1, PollFetch(0)) == JUMPING;
    assert Allowed(SEEN_GAP, PollMark) && Allowed(s1, PollFetch(0));
    hide Apply, Allowed, Run, AllowedRun;
    Then(SEEN_GAP, PollMark, [PollFetch(0)]);
    OneStep(s1, PollFetch(0));
    assert [PollMark, PollFetch(0)] == [PollMark] + [PollFetch(0)];
  }

  lemma ToTheJump()
    ensures AllowedRun(START, TO_THE_JUMP) && Run(START, TO_THE_JUMP) == JUMPING
  {
    hide Run, AllowedRun, Init;
    InsertsRun();
    FirstRound();
    Fetches();
    RunConcat(BEFORE, POLL, [PollMark, PollFetch(0)]);
    RunConcat(START, INSERTS, POLL + [PollMark, PollFetch(0)]);
  }

  lemma TheJump()
    ensures Decide(BATCH, 1, 2, true) == Verdict(3, BATCH, 2, false, true)
  {
    assert !IsFill("a");
    assert BATCH[1..] == [];
    assert Decide(BATCH[1..], 3, 2, true) == Verdict(3, [], 2, false, false);
  }

  /**
    From the start, with every step allowed, up to a batch whose gap the fallback may jump. It does; then the
    insert that holds the slot commits, and the poller hands out what it has in hand, without that row.
   */
  lemma JumpedSlotLosesEvent()
    ensures Init(START) && AllowedRun(START, TO_THE_JUMP) && Run(START, TO_THE_JUMP) == JUMPING
    ensures !SkipSafe(JUMPING, BATCH, true)
    ensures var d := Apply(Apply(JUMPING, PollDecide(true)), Commit(0));
            var e := Run(d, SETTLE);
            2 in d.t && d.t[2] == SLOW && e.sent == BATCH && e.pollRev == 3 && !HandedExactly(e)
  {
    hide Init, Run, AllowedRun;
    StartIsInit();
    ToTheJump();
    JumpIsUnsafe();
    var s1 := Apply(JUMPING, PollDecide(true));
    hide Apply, SkipSafe;
    AfterTheJump(s1, Apply(s1, Commit(0)));
  }

  lemma JumpIsUnsafe()
    ensures !SkipSafe(JUMPING, BATCH, true)
    ensures var s1 := Apply(JUMPING, PollDecide(true));
            && s1.phase == Decided(Verdict(3, BATCH, 2, false, true)) && s1.t == T2 && s1.ops == OPS && s1.sent == []
            && s1.pollRev == s1.pollStart == 1
  {
    TheJump();
    assert !Conflict(T2, "b", 0) && !IsFill("b");
    assert JUMPING.ops[0] == Reserved(0, 2, SLOW) && !Harmless(T2, 1, 3, 2, SLOW);
  }

  lemma AfterTheJump(s1: State, d: State)
    requires s1.phase == Decided(Verdict(3, BATCH, 2, false, true)) && s1.t == T2 && s1.ops == OPS && s1.sent == []
    requires s1.pollRev == s1.pollStart == 1 && d == Apply(s1, Commit(0))
    ensures var e := Run(d, SETTLE); 2 in d.t && d.t[2] == SLOW && e.sent == BATCH && e.pollRev == 3 && !HandedExactly(e)
  {
    assert !Conflict(T2, "b", 0) && !IsFill("b");
    assert d.t == T2[2 := SLOW] && d.full[2] == SLOW && d.phase == s1.phase && d.sent == [];
    hide Run, AllowedRun, PromptRun, HandedExactly;
    PassedOver(d, 2);
    SettleRuns(d);
    assert [] + BATCH == BATCH;
  }

  // ---------------------------------------------------- a compaction ahead of the poller

  const MORE := Row("a", false, false, 2, 2, 0, "", "")
  const T4: Table := map[1 := CRK, 2 := FAST, 3 := MORE, 4 := SLOW]
  const UNREAD := START.(t := T4, full := T4, nextId := 5, ops := map[0 := Committed(0, 2), 1 := Committed(0, 3), 2 := Committed(0, 4)])

  function Insert(op: nat, row: Row): seq<Action> {
    [Load(op), Reserve(op, row), Commit(op)]
  }

  lemma InsertRuns(s: State, op: nat, row: Row)
    requires op !in s.ops && row.name != COMPACT_REV_KEY && OwnLink(s.full, row)
    requires s.nextId !in s.t && !Conflict(s.t, row.name, row.prevRev) && s.currentRev == 0
    ensures AllowedRun(s, Insert(op, row))
    ensures Run(s, Insert(op, row)) ==
            s.(t := s.t[s.nextId := row], full := s.full[s.nextId := row], nextId := s.nextId + 1,
               ops := s.ops[op := Committed(0, s.nextId)])
  {
    var s1 := Apply(s, Load(op));
    var s2 := Apply(s1, Reserve(op, row));
    var s3 := Apply(s2, Commit(op));
    assert s1 == s.(ops := s.ops[op := Loaded(0)]);
    assert s2 == s.(ops := s.ops[op := Reserved(0, s.nextId, row)], nextId := s.nextId + 1);
    assert s3.ops == s.ops[op := Committed(0, s.nextId)];
    assert Allowed(s, Load(op)) && Allowed(s1, Reserve(op, row)) && Allowed(s2, Commit(op));
    hide Apply, Allowed;
    Then(s, Load(op), [Reserve(op, row)] + [Commit(op)]);
    Then(s1, Reserve(op, row), [Commit(op)]);
    OneStep(s2, Commit(op));
    assert Insert(op, row) == [Load(op)] + ([Reserve(op, row)] + [Commit(op)]);
  }

  const THREE: seq<Action> := Insert(0, FAST) + (Insert(1, MORE) + Insert(2, SLOW))

  lemma ThreeRuns()
    ensures AllowedRun(START, THREE) && Run(START, THREE) == UNREAD
  {
    hide Run, AllowedRun, Insert;
    var t2: Table := map[1 := CRK, 2 := FAST];
    var t3: Table := map[1 := CRK, 2 := FAST, 3 := MORE];
    var s1 := START.(t := t2, full := t2, nextId := 3, ops := map[0 := Committed(0, 2)]);
    var s2 := START.(t := t3, full := t3, nextId := 4, ops := map[0 := Committed(0, 2), 1 := Committed(0, 3)]);
    assert T1[2 := FAST] == t2 && t2[3 := MORE] == t3 && t3[4 := SLOW] == T4;
    InsertRuns(START, 0, FAST);
    InsertRuns(s1, 1, MORE);
    InsertRuns(s2, 2, SLOW);
    assert s2.ops[2 := Committed(0, 4)] == UNREAD.ops;
    RunConcat(s1, Insert(1, MORE), Insert(2, SLOW));
    RunConcat(START, Insert(0, FAST), Insert(1, MORE) + Insert(2, SLOW));
  }

  /**
    From the start: a create, its update and one more row, while the poller stands still; then the periodic
    compactor, keeping one revision. It takes the create, and no further run ever sends it.
   */
  lemma UnreadRowIsLost()
    ensures Init(START) && AllowedRun(START, THREE) && Run(START, THREE) == UNREAD
    ensures var e := Apply(UNREAD, Compact(3, 1));
            && e == Compacted(UNREAD, 3) && !UnreadSafe(UNREAD, 3)
            && Versioned(2, FAST) in EventsBetween(UNREAD.full, UNREAD.pollStart, 2)
            && forall actions :: PromptRun(e, actions) ==> Versioned(2, FAST) !in Run(e, actions).sent
  {
    hide Run, AllowedRun, Init, Inv;
    StartIsInit();
    ThreeRuns();
    InitInv(START);
    RunKeeps(START, THREE);
    UnreadCompacts();
    EventsBetweenExact(UNREAD.full, UNREAD.pollStart, 2);
    UnreadIsLost(UNREAD, 3, 2);
    var e := Apply(UNREAD, Compact(3, 1));
    forall actions | PromptRun(e, actions) ensures Versioned(2, FAST) !in Run(e, actions).sent {
      LostIsNeverSent(e, actions, Versioned(2, FAST));
    }
  }

  lemma UnreadCompacts()
    ensures Apply(UNREAD, Compact(3, 1)) == Compacted(UNREAD, 3) && SqlVictim(T4, 3, 2) && !IsFill("a")
  {
    UnreadNumbers();
    UnreadVictim();
    CompactsTo(UNREAD, 3, 1);
  }

  lemma CompactsTo(s: State, target: nat, minRetain: nat)
    requires CompactRev(s.t) < target && target + minRetain <= MaxId(s.t)
    ensures Apply(s, Compact(target, minRetain)) == Compacted(s, target)
  {
  }

  lemma UnreadVictim()
    ensures SqlVictim(T4, 3, 2) && !IsFill("a")
  {
    assert T4[3].prevRev == 2;
  }

  lemma UnreadNumbers()
    ensures MaxId(T4) == 4 && CompactRev(T4) == 0
  {
    assert 4 in T4 && MaxId(T4) == 4;
  }
}

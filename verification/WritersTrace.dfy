/**
  Runs from an empty table that a compaction below the head breaks: two creates of a key both succeed, and an
  update succeeds on a key that is deleted.
 */
module WritersTrace {
  import opened KineTable
  import opened Writers

  const KEY := "a"
  const CREATED := Row(KEY, true, false, 0, 0, 0, "", "")
  const DELETED := Row(KEY, false, true, 0, 1, 0, "", "")
  const OVER := Row(KEY, true, false, 0, 2, 0, "", "")

  lemma NewestIs(t: Table, at: At, m: nat)
    requires IsNewest(t, KEY, at, m)
    ensures Newest(t, KEY, at) == m
  {
  }

  /** A read that goes on to insert row. */
  lemma Reads(s: State, op: nat, req: Request, row: Row, seen: nat)
    requires Prepare(s.t, req) == Proceed(row) && row.name == KEY && IsNewest(s.full, KEY, Current, seen)
    ensures Apply(s, Read(op, req)) == s.(pending := s.pending[op := Pending(row, s.head, seen)])
  {
    NewestIs(s.full, Current, seen);
  }

  lemma CreatePrepares(t: Table, newest: nat)
    requires IsNewest(t, KEY, Current, newest) && (newest != 0 ==> t[newest].deleted)
    ensures Prepare(t, CreateReq(KEY, "", 0)) == Proceed(CREATED.(prevRev := newest))
  {
    NewestIs(t, Current, newest);
    GetIsNewest(t, KEY, true);
  }

  lemma DeletePrepares(t: Table, newest: nat)
    requires IsNewest(t, KEY, Current, newest) && newest != 0 && !t[newest].deleted
    ensures Prepare(t, DeleteReq(KEY, 0)) == Proceed(DELETED.(prevRev := newest))
  {
    NewestIs(t, Current, newest);
    GetIsNewest(t, KEY, true);
  }

  const OTHER := "b"
  const BESIDE := Row(OTHER, true, false, 0, 0, 0, "", "")

  const EMPTY := State(map[], map[], 0, 0, map[])

  /** A create and a delete, a row of another key on top, and a create that reads the tombstone: a pending operation. */
  const BEFORE: seq<Action> := [Read(0, CreateReq(KEY, "", 0)), Insert(0)]
                                + ([Read(1, DeleteReq(KEY, 0)), Insert(1)]
                                   + ([Read(4, CreateReq(OTHER, "", 0)), Insert(4)] + [Read(2, CreateReq(KEY, "", 0))]))

  const ROWS: Table := map[1 := CREATED, 2 := DELETED]
  const TOPPED: Table := map[1 := CREATED, 2 := DELETED, 3 := BESIDE]

  /** A run of one step and the rest. */
  lemma RunStep(s: State, a: Action, rest: seq<Action>, e: State)
    requires Apply(s, a) == e
    ensures Run(s, [a] + rest) == Run(e, rest)
    ensures AllowedRun(s, [a] + rest) <==> Allowed(s, a) && AllowedRun(e, rest)
  {
    assert ([a] + rest)[1..] == rest;
  }

  lemma FirstCreate()
    ensures var s1 := EMPTY.(pending := map[0 := Pending(CREATED, 0, 0)]);
            && Apply(EMPTY, Read(0, CreateReq(KEY, "", 0))) == s1
            && Apply(s1, Insert(0)) == State(map[1 := CREATED], map[1 := CREATED], 1, 0, map[])
  {
    assert IsNewest(EMPTY.t, KEY, Current, 0);
    CreatePrepares(EMPTY.t, 0);
    Reads(EMPTY, 0, CreateReq(KEY, "", 0), CREATED, 0);
    var s1 := EMPTY.(pending := map[0 := Pending(CREATED, 0, 0)]);
    assert s1.pending - {0} == map[];
    assert map[][1 := CREATED] == map[1 := CREATED];
  }

  lemma ThenDelete()
    ensures var s2 := State(map[1 := CREATED], map[1 := CREATED], 1, 0, map[]);
            var s3 := s2.(pending := map[1 := Pending(DELETED, 1, 1)]);
            && Apply(s2, Read(1, DeleteReq(KEY, 0))) == s3
            && Apply(s3, Insert(1)) == State(ROWS, ROWS, 2, 0, map[])
  {
    var t: Table := map[1 := CREATED];
    assert IsNewest(t, KEY, Current, 1);
    DeletePrepares(t, 1);
    Reads(State(t, t, 1, 0, map[]), 1, DeleteReq(KEY, 0), DELETED, 1);
    var s3 := State(t, t, 1, 0, map[1 := Pending(DELETED, 1, 1)]);
    assert s3.pending - {1} == map[];
    assert t[2 := DELETED] == ROWS;
    assert !Conflict(t, KEY, 1);
  }

  lemma {:induction false} RunConcat(s: State, a: seq<Action>, b: seq<Action>)
    ensures Run(s, a + b) == Run(Run(s, a), b)
    ensures AllowedRun(s, a + b) <==> AllowedRun(s, a) && AllowedRun(Run(s, a), b)
    decreases |a|
  {
    if a == [] {
      assert a + b == b;
    } else {
      assert (a + b)[1..] == a[1..] + b && (a + b)[0] == a[0];
      RunConcat(Apply(s, a[0]), a[1..], b);
    }
  }

  lemma BesideReads(pending: map<nat, Pending>)
    requires 4 !in pending
    ensures var s := State(ROWS, ROWS, 2, 0, pending);
            Apply(s, Read(4, CreateReq(OTHER, "", 0))) == s.(pending := pending[4 := Pending(BESIDE, 2, 0)])
  {
    var s := State(ROWS, ROWS, 2, 0, pending);
    assert Newest(ROWS, OTHER, Current) == 0 by { assert IsNewest(ROWS, OTHER, Current, 0); }
    CreateReads(s, 4, OTHER, "", 0);
  }

  lemma BesideLands(pending: map<nat, Pending>)
    requires 4 !in pending
    ensures var s2 := State(ROWS, ROWS, 2, 0, pending[4 := Pending(BESIDE, 2, 0)]);
            Apply(s2, Insert(4)) == State(TOPPED, TOPPED, 3, 0, pending)
  {
    var s2 := State(ROWS, ROWS, 2, 0, pending[4 := Pending(BESIDE, 2, 0)]);
    assert s2.pending - {4} == pending;
    assert ROWS[3 := BESIDE] == TOPPED;
    InsertLands(s2, 4);
  }

  /** A row of another key on top. */
  lemma ThenBeside(pending: map<nat, Pending>)
    requires 4 !in pending
    ensures var s, all := State(ROWS, ROWS, 2, 0, pending), [Read(4, CreateReq(OTHER, "", 0)), Insert(4)];
            AllowedRun(s, all) && Run(s, all) == State(TOPPED, TOPPED, 3, 0, pending)
  {
    BesideReads(pending);
    BesideLands(pending);
    var s := State(ROWS, ROWS, 2, 0, pending);
    assert Allowed(s, Read(4, CreateReq(OTHER, "", 0)));
    assert Allowed(s.(pending := pending[4 := Pending(BESIDE, 2, 0)]), Insert(4));
    hide Apply, Allowed;
    TwoSteps(s, Read(4, CreateReq(OTHER, "", 0)), Insert(4));
  }

  lemma ThenCreateOver()
    ensures Apply(State(TOPPED, TOPPED, 3, 0, map[]), Read(2, CreateReq(KEY, "", 0)))
            == State(TOPPED, TOPPED, 3, 0, map[2 := Pending(OVER, 3, 2)])
  {
    assert IsNewest(TOPPED, KEY, Current, 2);
    CreatePrepares(TOPPED, 2);
    Reads(State(TOPPED, TOPPED, 3, 0, map[]), 2, CreateReq(KEY, "", 0), OVER, 2);
  }

  lemma BeforeRuns()
    ensures AllowedRun(EMPTY, BEFORE) && Run(EMPTY, BEFORE) == State(TOPPED, TOPPED, 3, 0, map[2 := Pending(OVER, 3, 2)])
  {
    FirstCreate();
    ThenDelete();
    ThenBeside(map[]);
    ThenCreateOver();
    var s2 := State(map[1 := CREATED], map[1 := CREATED], 1, 0, map[]);
    var s4, s6 := State(ROWS, ROWS, 2, 0, map[]), State(TOPPED, TOPPED, 3, 0, map[]);
    TwoSteps(EMPTY, Read(0, CreateReq(KEY, "", 0)), Insert(0));
    TwoSteps(s2, Read(1, DeleteReq(KEY, 0)), Insert(1));
    OneStep(s6, Read(2, CreateReq(KEY, "", 0)));
    hide Apply, Run, AllowedRun;
    RunConcat(s4, [Read(4, CreateReq(OTHER, "", 0)), Insert(4)], [Read(2, CreateReq(KEY, "", 0))]);
    RunConcat(s2, [Read(1, DeleteReq(KEY, 0)), Insert(1)],
              [Read(4, CreateReq(OTHER, "", 0)), Insert(4)] + [Read(2, CreateReq(KEY, "", 0))]);
    RunConcat(EMPTY, [Read(0, CreateReq(KEY, "", 0)), Insert(0)], [Read(1, DeleteReq(KEY, 0)), Insert(1)]
              + ([Read(4, CreateReq(OTHER, "", 0)), Insert(4)] + [Read(2, CreateReq(KEY, "", 0))]));
  }

  lemma OneStep(s: State, a: Action)
    ensures Run(s, [a]) == Apply(s, a)
    ensures AllowedRun(s, [a]) <==> Allowed(s, a)
  {
    hide Apply, Allowed;
    assert [a][1..] == [];
    assert Run(Apply(s, a), []) == Apply(s, a) && AllowedRun(Apply(s, a), []);
  }

  const TOMBSTONE_READ := State(TOPPED, TOPPED, 3, 0, map[2 := Pending(OVER, 3, 2)])

  lemma ToppedFacts()
    ensures 2 < MaxId(TOPPED) && Newest(TOPPED, KEY, Current) == 2
  {
    assert 3 in TOPPED;
    assert IsNewest(TOPPED, KEY, Current, 2);
    NewestIs(TOPPED, Current, 2);
  }

  lemma EmptyIsInit()
    ensures Init(EMPTY)
  {
  }

  lemma TombstoneReadFacts()
    ensures Inv(TOMBSTONE_READ) && Untouched(TOMBSTONE_READ, 2)
  {
    hide Inv, Init, Apply, Run, AllowedRun;
    EmptyIsInit();
    BeforeRuns();
    InitInv(EMPTY);
    RunKeeps(EMPTY, BEFORE);
    ToppedFacts();
  }

  /**
    From an empty table: create, delete, another key, and a create that stops after it read the tombstone; then
    a compaction below the head, another create, and the pending one. Both creates succeed, and the history
    is broken.
   */
  lemma TwoCreatesSucceed()
    ensures Init(EMPTY) && AllowedRun(EMPTY, BEFORE) && 2 < MaxId(Run(EMPTY, BEFORE).t)
    ensures var s1 := Apply(Run(EMPTY, BEFORE), Compact(2));
            var s2 := Apply(s1, Read(3, CreateReq(KEY, "", 0)));
            var s3 := Apply(s2, Insert(3));
            && Succeeds(s2, 3) && Succeeds(s3, 2)
            && forall floor :: !Linear(Apply(s3, Insert(2)).full, floor)
  {
    BeforeRuns();
    TombstoneReadFacts();
    ToppedFacts();
    hide Inv, Apply, Run, AllowedRun, Linear, Succeeds, Untouched;
    TombstoneCompactedLosesCreate(TOMBSTONE_READ, 2, 3, "", 0, 2);
  }

  const UPDATED := Row(KEY, false, false, 1, 1, 0, "", "")

  /** A create, and an update that read it: row 1, and a pending operation. */
  const READ_ONE: seq<Action> := [Read(0, CreateReq(KEY, "", 0)), Insert(0), Read(2, UpdateReq(KEY, "", 1, 0))]

  const ONE: Table := map[1 := CREATED]

  lemma ThenReadForUpdate()
    ensures Apply(State(ONE, ONE, 1, 0, map[]), Read(2, UpdateReq(KEY, "", 1, 0)))
            == State(ONE, ONE, 1, 0, map[2 := Pending(UPDATED, 1, 1)])
  {
    assert IsNewest(ONE, KEY, Current, 1);
    NewestIs(ONE, Current, 1);
    GetIsNewest(ONE, KEY, false);
    Reads(State(ONE, ONE, 1, 0, map[]), 2, UpdateReq(KEY, "", 1, 0), UPDATED, 1);
  }

  lemma ReadOneRuns()
    ensures AllowedRun(EMPTY, READ_ONE) && Run(EMPTY, READ_ONE) == State(ONE, ONE, 1, 0, map[2 := Pending(UPDATED, 1, 1)])
  {
    FirstCreate();
    ThenReadForUpdate();
    var s1 := EMPTY.(pending := map[0 := Pending(CREATED, 0, 0)]);
    var s2 := State(ONE, ONE, 1, 0, map[]);
    var s3 := State(ONE, ONE, 1, 0, map[2 := Pending(UPDATED, 1, 1)]);
    RunStep(s2, READ_ONE[2], [], s3);
    RunStep(s1, READ_ONE[1], [READ_ONE[2]], s2);
    RunStep(EMPTY, READ_ONE[0], [READ_ONE[1], READ_ONE[2]], s1);
  }

  /** Then a delete of the key by somebody else, and a row of another key on top. */
  const WRITES: seq<Action> := READ_ONE + ([Read(3, DeleteReq(KEY, 0)), Insert(3)] + [Read(4, CreateReq(OTHER, "", 0)), Insert(4)])

  const WRITTEN := State(TOPPED, TOPPED, 3, 0, map[2 := Pending(UPDATED, 1, 1)])

  lemma WritesRun()
    ensures AllowedRun(EMPTY, WRITES) && Run(EMPTY, WRITES) == WRITTEN
  {
    ReadOneRuns();
    ThenDeleteBy3();
    var s := Run(EMPTY, READ_ONE);
    var m := State(ROWS, ROWS, 2, 0, map[2 := Pending(UPDATED, 1, 1)]);
    ThenBeside(m.pending);
    TwoSteps(s, Read(3, DeleteReq(KEY, 0)), Insert(3));
    hide Apply, Run, AllowedRun;
    RunConcat(s, [Read(3, DeleteReq(KEY, 0)), Insert(3)], [Read(4, CreateReq(OTHER, "", 0)), Insert(4)]);
    RunConcat(EMPTY, READ_ONE, [Read(3, DeleteReq(KEY, 0)), Insert(3)] + [Read(4, CreateReq(OTHER, "", 0)), Insert(4)]);
  }

  lemma ThenDeleteBy3()
    ensures var s := State(ONE, ONE, 1, 0, map[2 := Pending(UPDATED, 1, 1)]);
            var s2 := s.(pending := map[2 := Pending(UPDATED, 1, 1), 3 := Pending(DELETED, 1, 1)]);
            && Apply(s, Read(3, DeleteReq(KEY, 0))) == s2
            && Apply(s2, Insert(3)) == State(ROWS, ROWS, 2, 0, map[2 := Pending(UPDATED, 1, 1)])
  {
    var s := State(ONE, ONE, 1, 0, map[2 := Pending(UPDATED, 1, 1)]);
    assert IsNewest(ONE, KEY, Current, 1);
    DeletePrepares(ONE, 1);
    Reads(s, 3, DeleteReq(KEY, 0), DELETED, 1);
    var s2 := s.(pending := map[2 := Pending(UPDATED, 1, 1), 3 := Pending(DELETED, 1, 1)]);
    assert s2.pending - {3} == s.pending;
    assert ONE[2 := DELETED] == ROWS;
    assert !Conflict(ONE, KEY, 1);
  }

  /** Compacted up to the delete, below the head, the table has no row of the key, and the update finds no conflict. */
  lemma WrittenThenCompacted()
    ensures Inv(WRITTEN) && 2 < MaxId(WRITTEN.t)
    ensures var e := Apply(WRITTEN, Compact(2));
            Succeeds(e, 2) && !Untouched(e, 2) && forall floor :: !Linear(Apply(e, Insert(2)).full, floor)
  {
    WrittenFacts();
    ToppedFacts();
    hide Inv, Apply, Run, AllowedRun, Linear, Succeeds, Untouched, IsMaxId;
    DeletedThenCompacted(WRITTEN, 2, 2);
  }

  lemma WrittenFacts()
    ensures Inv(WRITTEN)
  {
    hide Inv, Init, Apply, Run, AllowedRun;
    EmptyIsInit();
    WritesRun();
    InitInv(EMPTY);
    RunKeeps(EMPTY, WRITES);
  }

  /**
    From an empty table: create, and an update that stops after it read; then a delete, another key, a compaction
    to the delete's row, and the pending update. It succeeds on the deleted key, and the history is broken.
   */
  lemma StaleUpdateSucceeds()
    ensures Init(EMPTY) && AllowedRun(EMPTY, WRITES) && 2 < MaxId(Run(EMPTY, WRITES).t)
    ensures var e := Apply(Run(EMPTY, WRITES), Compact(2));
            Succeeds(e, 2) && !Untouched(e, 2) && forall floor :: !Linear(Apply(e, Insert(2)).full, floor)
  {
    WritesRun();
    WrittenThenCompacted();
  }
}

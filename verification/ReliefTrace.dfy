/**
  Runs with a clock, from an empty table: for any timeout longer than the lag the relief breaks a pending update,
  and for any timeout and any lag it can break a pending create over a tombstone.
 */
module ReliefTrace {
  import opened Options
  import opened KineTable
  import opened Writers
  import opened ReliefLag
  import opened WritersTrace

  function AsMoves(actions: seq<Action>): seq<Move> {
    if actions == [] then [] else [Writer(actions[0])] + AsMoves(actions[1..])
  }

  /** Writers alone take no time: every pending operation read now. */
  lemma {:induction false} WritersTakeNoTime(c: Clocked, actions: seq<Action>, timeout: nat, lag: nat)
    requires CompactionFree(actions) && AllowedRun(c.s, actions) && 0 < timeout
    requires c.readAt.Keys == c.s.pending.Keys && forall op :: op in c.readAt ==> c.readAt[op] == c.now
    ensures var ms := AsMoves(actions);
            var e := Moves(c, ms, timeout, lag);
            && CanMoves(c, ms, timeout, lag)
            && e == c.(s := Run(c.s, actions), readAt := e.readAt)
            && e.readAt.Keys == e.s.pending.Keys && (forall op :: op in e.readAt ==> e.readAt[op] == c.now)
    decreases |actions|
  {
    if actions != [] {
      var ms := AsMoves(actions);
      assert actions[0] in actions && CompactionFree(actions[1..]);
      assert ms[0] == Writer(actions[0]) && ms[1..] == AsMoves(actions[1..]);
      WritersTakeNoTime(Move1(c, ms[0], timeout, lag), actions[1..], timeout, lag);
    }
  }

  const START := Clocked(EMPTY, 0, map[], [], None, None)

  /** Two ticks a lag apart. */
  function Ticks(lag: nat): seq<Move> {
    [TickRead(3), TickDate, Pass(lag), TickRead(3), TickDate]
  }

  lemma FreeConcat(a: seq<Action>, b: seq<Action>)
    requires CompactionFree(a) && CompactionFree(b)
    ensures CompactionFree(a + b)
  {
  }

  lemma WritesAreFree()
    ensures CompactionFree(WRITES)
  {
    FreeConcat([Read(3, DeleteReq(KEY, 0)), Insert(3)], [Read(4, CreateReq(OTHER, "", 0)), Insert(4)]);
    FreeConcat(READ_ONE, [Read(3, DeleteReq(KEY, 0)), Insert(3)] + [Read(4, CreateReq(OTHER, "", 0)), Insert(4)]);
  }

  lemma RowsAreFree()
    ensures CompactionFree(ROWS_ONLY)
  {
    FreeConcat([Read(1, DeleteReq(KEY, 0)), Insert(1)], [Read(4, CreateReq(OTHER, "", 0)), Insert(4)]);
    FreeConcat([Read(0, CreateReq(KEY, "", 0)), Insert(0)],
               [Read(1, DeleteReq(KEY, 0)), Insert(1)] + [Read(4, CreateReq(OTHER, "", 0)), Insert(4)]);
  }

  /** The state before the ticks: a stale update is pending, its key deleted, another key's row on top. */
  lemma BeforeTicks(timeout: nat, lag: nat)
    requires 0 < timeout
    ensures ClockInit(START) && CanMoves(START, AsMoves(WRITES), timeout, lag)
    ensures var c := Moves(START, AsMoves(WRITES), timeout, lag);
            ClockInv(c, timeout) && c == START.(s := WRITTEN, readAt := map[2 := 0])
  {
    assert ClockInit(START);
    WrittenClock(timeout);
    hide Moves, CanMoves, Run, AllowedRun, AsMoves, Apply, Allowed, ClockInit, ClockInv;
    WritesRun();
    WritesAreFree();
    WritersTakeNoTime(START, WRITES, timeout, lag);
    ReadAtZero(Moves(START, AsMoves(WRITES), timeout, lag).readAt);
  }

  lemma ReadAtZero(readAt: map<nat, nat>)
    requires readAt.Keys == WRITTEN.pending.Keys && forall op :: op in readAt ==> readAt[op] == 0
    ensures readAt == map[2 := 0]
  {
  }

  lemma WrittenClock(timeout: nat)
    requires 0 < timeout
    ensures ClockInv(START.(s := WRITTEN, readAt := map[2 := 0]), timeout)
  {
    hide Inv;
    WrittenFacts();
    var c := START.(s := WRITTEN, readAt := map[2 := 0]);
    forall op | op in c.s.pending ensures InTime(c, timeout, op) { }
  }

  /**
    The whole run: the writes, two ticks a lag apart, and a batch of the second tick's pass. With a timeout
    longer than the lag the update is still pending, its deadline not come, and it succeeds on the deleted key.
   */
  lemma LongTimeoutBreaksAnUpdate(timeout: nat, lag: nat)
    requires lag < timeout
    ensures ClockInit(START) && CanMoves(START, AsMoves(WRITES), timeout, lag)
    ensures var c := Moves(START, AsMoves(WRITES), timeout, lag);
            var e := Moves(c, Ticks(lag), timeout, lag);
            var b := Move1(e, Batch(2), timeout, lag);
            && CanMoves(c, Ticks(lag), timeout, lag) && CanMove(e, Batch(2), timeout)
            && Succeeds(b.s, 2) && !Untouched(b.s, 2)
  {
    hide Moves, CanMoves, AsMoves, Run, AllowedRun, Inv, Linear;
    BeforeTicks(timeout, lag);
    var c := START.(s := WRITTEN, readAt := map[2 := 0]);
    LongTimeoutBreaksTheBound(c, 2, timeout, lag);
    var e := Moves(c, Ticks(lag), timeout, lag);
    assert e.s.pending == WRITTEN.pending;
    WrittenThenCompacted();
  }

  lemma {:induction false} MovesConcat(c: Clocked, a: seq<Move>, b: seq<Move>, timeout: nat, lag: nat)
    ensures Moves(c, a + b, timeout, lag) == Moves(Moves(c, a, timeout, lag), b, timeout, lag)
    ensures CanMoves(c, a + b, timeout, lag) <==>
              CanMoves(c, a, timeout, lag) && CanMoves(Moves(c, a, timeout, lag), b, timeout, lag)
    decreases |a|
  {
    if a == [] {
      assert a + b == b;
    } else {
      assert (a + b)[1..] == a[1..] + b && (a + b)[0] == a[0];
      MovesConcat(Move1(c, a[0], timeout, lag), a[1..], b, timeout, lag);
    }
  }

  /** No batch of any run takes from the index what it must not, tombstones of creates aside. */
  ghost predicate RelievesSafely(timeout: nat, lag: nat) {
    forall c: Clocked, ms: seq<Move>, to: nat ::
      ClockInit(c) && CanMoves(c, ms, timeout, lag) && CanMove(Moves(c, ms, timeout, lag), Batch(to), timeout)
      ==> ExactSafe(Moves(c, ms, timeout, lag).s, to)
  }

  lemma UnsafeTrace(timeout: nat, lag: nat)
    requires lag < timeout
    ensures !RelievesSafely(timeout, lag)
  {
    hide Moves, CanMoves, AsMoves, Ticks, CanMove;
    LongTimeoutBreaksAnUpdate(timeout, lag);
    var ms := AsMoves(WRITES) + Ticks(lag);
    MovesConcat(START, AsMoves(WRITES), Ticks(lag), timeout, lag);
    var e := Moves(START, ms, timeout, lag);
    assert CanMoves(START, ms, timeout, lag) && CanMove(e, Batch(2), timeout);
    if ExactSafe(e.s, 2) {
      StateBeforeBatch(timeout, lag);
      CompactKeeps(e.s, 2);
      InsertIffUntouched(Move1(e, Batch(2), timeout, lag).s, 2);
    }
  }

  lemma StateBeforeBatch(timeout: nat, lag: nat)
    requires lag < timeout
    ensures Inv(Moves(START, AsMoves(WRITES) + Ticks(lag), timeout, lag).s)
  {
    hide Moves, CanMoves, AsMoves, Run, AllowedRun, Inv;
    BeforeTicks(timeout, lag);
    MovesConcat(START, AsMoves(WRITES), Ticks(lag), timeout, lag);
    var c := START.(s := WRITTEN, readAt := map[2 := 0]);
    LongTimeoutBreaksTheBound(c, 2, timeout, lag);
    assert Moves(c, Ticks(lag), timeout, lag).s == WRITTEN;
    assert Inv(WRITTEN) by { assert ClockInv(c, timeout); }
  }

  /** The lag argument is exact: every run of the relief is safe if and only if the timeout is at most the lag. */
  lemma LagIsExact(timeout: nat, lag: nat)
    ensures RelievesSafely(timeout, lag) <==> timeout <= lag
  {
    if timeout <= lag {
      forall c: Clocked, ms: seq<Move>, to: nat | ClockInit(c) && CanMoves(c, ms, timeout, lag)
        && CanMove(Moves(c, ms, timeout, lag), Batch(to), timeout)
        ensures ExactSafe(Moves(c, ms, timeout, lag).s, to)
      {
        InitInv(c.s);
        MovesKeep(c, ms, timeout, lag);
        BatchIsSafe(Moves(c, ms, timeout, lag), to, timeout);
        BoundIsSafe(Moves(c, ms, timeout, lag).s, to);
      }
    } else {
      UnsafeTrace(timeout, lag);
    }
  }

  // ------------------------------------------------- what no lag protects

  /** Create, delete, and another key's row on top. */
  const ROWS_ONLY: seq<Action> := [Read(0, CreateReq(KEY, "", 0)), Insert(0)]
                                  + ([Read(1, DeleteReq(KEY, 0)), Insert(1)] + [Read(4, CreateReq(OTHER, "", 0)), Insert(4)])

  const QUIET := State(TOPPED, TOPPED, 3, 0, map[])

  lemma RowsOnlyRun()
    ensures AllowedRun(EMPTY, ROWS_ONLY) && Run(EMPTY, ROWS_ONLY) == QUIET
  {
    FirstCreate();
    ThenDelete();
    ThenBeside(map[]);
    var s2 := State(map[1 := CREATED], map[1 := CREATED], 1, 0, map[]);
    TwoSteps(EMPTY, Read(0, CreateReq(KEY, "", 0)), Insert(0));
    TwoSteps(s2, Read(1, DeleteReq(KEY, 0)), Insert(1));
    hide Apply, Run, AllowedRun;
    WritersTrace.RunConcat(s2, [Read(1, DeleteReq(KEY, 0)), Insert(1)], [Read(4, CreateReq(OTHER, "", 0)), Insert(4)]);
    WritersTrace.RunConcat(EMPTY, [Read(0, CreateReq(KEY, "", 0)), Insert(0)],
                           [Read(1, DeleteReq(KEY, 0)), Insert(1)] + [Read(4, CreateReq(OTHER, "", 0)), Insert(4)]);
  }

  /** A tick, a lag, a create that reads the tombstone, and a tick. */
  function ReadBetween(lag: nat): seq<Move> {
    [TickRead(3), TickDate, Pass(lag)] + [Writer(Read(2, CreateReq(KEY, "", 0))), TickRead(3), TickDate]
  }

  lemma ThreeMoves(c: Clocked, a: Move, c1: Clocked, b: Move, c2: Clocked, m: Move, e: Clocked, timeout: nat, lag: nat)
    requires CanMove(c, a, timeout) && Move1(c, a, timeout, lag) == c1
    requires CanMove(c1, b, timeout) && Move1(c1, b, timeout, lag) == c2
    requires CanMove(c2, m, timeout) && Move1(c2, m, timeout, lag) == e
    ensures CanMoves(c, [a, b, m], timeout, lag) && Moves(c, [a, b, m], timeout, lag) == e
  {
    hide CanMove, Move1;
    assert [a, b, m][1..] == [b, m] && [b, m][1..] == [m] && [m][1..] == [];
    assert CanMoves(e, [], timeout, lag) && Moves(e, [], timeout, lag) == e;
    assert CanMoves(c2, [m], timeout, lag) && Moves(c2, [m], timeout, lag) == e;
    assert CanMoves(c1, [b, m], timeout, lag) && Moves(c1, [b, m], timeout, lag) == e;
  }

  lemma ReadsBetween(timeout: nat, lag: nat)
    requires 0 < timeout
    ensures var c := START.(s := QUIET);
            var e := Clocked(TOMBSTONE_READ, lag, map[2 := lag], [TickRev(0, 3), TickRev(lag, 3)], None, Some(3));
            CanMoves(c, ReadBetween(lag), timeout, lag) && Moves(c, ReadBetween(lag), timeout, lag) == e
  {
    var c := START.(s := QUIET);
    var c3 := c.(revs := [TickRev(0, 3)], target := Some(0), now := lag);
    FirstTick(timeout, lag);
    var c4 := c3.(s := TOMBSTONE_READ, readAt := map[2 := lag]);
    ThenCreateOver();
    hide Prepare, Conflict, Recent, ReliefTarget;
    assert Move1(c3, Writer(Read(2, CreateReq(KEY, "", 0))), timeout, lag) == c4;
    var c5 := c4.(reading := Some(3));
    var e := Clocked(TOMBSTONE_READ, lag, map[2 := lag], [TickRev(0, 3), TickRev(lag, 3)], None, Some(3));
    SecondTick(c5, e, timeout, lag);
    ThreeMoves(c3, Writer(Read(2, CreateReq(KEY, "", 0))), c4, TickRead(3), c5, TickDate, e, timeout, lag);
    hide Move1, CanMove;
    MovesConcat(c, [TickRead(3), TickDate, Pass(lag)], [Writer(Read(2, CreateReq(KEY, "", 0))), TickRead(3), TickDate], timeout, lag);
  }

  lemma FirstTick(timeout: nat, lag: nat)
    ensures var c, ms := START.(s := QUIET), [TickRead(3), TickDate, Pass(lag)];
            var e := c.(revs := [TickRev(0, 3)], target := Some(0), now := lag);
            CanMoves(c, ms, timeout, lag) && Moves(c, ms, timeout, lag) == e
  {
    var c := START.(s := QUIET);
    var c1 := c.(reading := Some(3));
    var c2 := c.(revs := [TickRev(0, 3)], target := Some(0));
    assert Expired(c2, timeout, lag) == {} && map[] - {} == QUIET.pending;
    ThreeMoves(c, TickRead(3), c1, TickDate, c2, Pass(lag), c2.(now := lag), timeout, lag);
  }

  lemma SecondTick(c: Clocked, e: Clocked, timeout: nat, lag: nat)
    requires c.now == lag && c.revs == [TickRev(0, 3)] && c.reading == Some(3)
    requires e == c.(revs := [TickRev(0, 3), TickRev(lag, 3)], reading := None, target := Some(3))
    ensures Move1(c, TickDate, timeout, lag) == e
  {
    assert OldEnough(c.revs, lag, lag) == 0;
  }

  /**
    Without that hypothesis no timeout and no lag helps a create: from an empty table, with every move allowed
    but the batch, which only forgets the tombstone of the pending create, that create and a second one of
    the key both succeed.
   */
  lemma TombstoneLostAtAnyLag(timeout: nat, lag: nat)
    requires 0 < timeout
    ensures ClockInit(START) && CanMoves(START, AsMoves(ROWS_ONLY) + ReadBetween(lag), timeout, lag)
    ensures var e := Moves(START, AsMoves(ROWS_ONLY) + ReadBetween(lag), timeout, lag);
            var b := Move1(e, Batch(2), timeout, lag);
            var s2 := Apply(b.s, Read(3, CreateReq(KEY, "", 0)));
            var s3 := Apply(s2, Insert(3));
            && MayMove(e, Batch(2), timeout) && !TombstonesKept(e.s, 2)
            && Succeeds(s2, 3) && Succeeds(s3, 2) && !Untouched(s3, 2)
            && forall floor :: !Linear(Apply(s3, Insert(2)).full, floor)
  {
    TombstoneIsRead(timeout, lag);
    BatchForgets(timeout, lag);
    hide Moves, CanMoves, AsMoves, Apply, Linear, Untouched, Prepare, Succeeds, ClockInit, TombstonesKept, MayMove;
    TombstoneReadFacts();
    TombstoneCompactedLosesCreate(TOMBSTONE_READ, 2, 3, "", 0, 2);
  }

  lemma BatchForgets(timeout: nat, lag: nat)
    ensures MayMove(TombstoneClock(lag), Batch(2), timeout) && !TombstonesKept(TOMBSTONE_READ, 2)
  {
    TombstoneReadFacts();
    ToppedFacts();
    InsertIffUntouched(TOMBSTONE_READ, 2);
    assert OverTombstone(TOMBSTONE_READ.pending[2]);
    hide Inv;
  }

  function TombstoneClock(lag: nat): Clocked {
    Clocked(TOMBSTONE_READ, lag, map[2 := lag], [TickRev(0, 3), TickRev(lag, 3)], None, Some(3))
  }

  lemma TombstoneIsRead(timeout: nat, lag: nat)
    requires 0 < timeout
    ensures ClockInit(START) && CanMoves(START, AsMoves(ROWS_ONLY) + ReadBetween(lag), timeout, lag)
    ensures Moves(START, AsMoves(ROWS_ONLY) + ReadBetween(lag), timeout, lag) == TombstoneClock(lag)
  {
    assert ClockInit(START);
    hide Moves, CanMoves, AsMoves, Run, AllowedRun, Apply, Allowed, ClockInit, ReadBetween;
    RowsOnlyRun();
    RowsAreFree();
    WritersTakeNoTime(START, ROWS_ONLY, timeout, lag);
    assert Moves(START, AsMoves(ROWS_ONLY), timeout, lag).readAt == map[];
    MovesConcat(START, AsMoves(ROWS_ONLY), ReadBetween(lag), timeout, lag);
    ReadsBetween(timeout, lag);
  }
}

/**
  A run with a clock where rows appear out of the order of their ids, from an empty table, for any lag
  shorter than two timeouts: a delete that holds an older id commits after an update read the key, the
  relief compacts it away, and the update succeeds on the deleted key.
 */
module ReservedTrace {
  import opened Options
  import opened KineTable
  import opened Writers
  import opened WritersTrace
  import opened ReservedWriters
  import opened ReservedLag
  import ReliefLag

  const GAP: Table := map[1 := CREATED, 3 := BESIDE]
  const FILLED: Table := map[1 := CREATED, 2 := DELETED, 3 := BESIDE]

  const NOTHING := Db(map[], map[], 0, 0, map[])
  const BEGIN := Clock(NOTHING, 0, map[], 0, [], None, None)

  predicate Leads(c: Clock, ms: seq<Move>, e: Clock, timeout: nat, lag: nat) {
    CanDoAll(c, ms, timeout, lag) && DoAll(c, ms, timeout, lag) == e
  }

  lemma {:induction false} LeadsOn(c: Clock, a: seq<Move>, x: Clock, b: seq<Move>, e: Clock, timeout: nat, lag: nat)
    requires Leads(c, a, x, timeout, lag) && Leads(x, b, e, timeout, lag)
    ensures Leads(c, a + b, e, timeout, lag)
    decreases |a|
  {
    if a == [] {
      assert a + b == b;
    } else {
      assert (a + b)[1..] == a[1..] + b && (a + b)[0] == a[0];
      LeadsOn(Do(c, a[0], timeout, lag), a[1..], x, b, e, timeout, lag);
    }
  }

  lemma LeadsThree(c: Clock, m1: Move, c1: Clock, m2: Move, c2: Clock, m3: Move, c3: Clock, timeout: nat, lag: nat)
    requires CanDo(c, m1, timeout) && Do(c, m1, timeout, lag) == c1
    requires CanDo(c1, m2, timeout) && Do(c1, m2, timeout, lag) == c2
    requires CanDo(c2, m3, timeout) && Do(c2, m3, timeout, lag) == c3
    ensures Leads(c, [m1, m2, m3], c3, timeout, lag)
  {
    hide CanDo, Do;
    assert [m1, m2, m3][1..] == [m2, m3] && [m2, m3][1..] == [m3] && [m3][1..] == [];
    assert Leads(c3, [], c3, timeout, lag);
    assert Leads(c2, [m3], c3, timeout, lag);
    assert Leads(c1, [m2, m3], c3, timeout, lag);
  }

  /** A writer's step dates the operation it loads. */
  lemma WriterDoes(c: Clock, a: Step, d: Db, readAt: map<nat, nat>, timeout: nat, lag: nat)
    requires Take(c.d, a) == d && readAt.Keys == d.ops.Keys
    requires forall op :: op in readAt ==> readAt[op] == if op in c.readAt then c.readAt[op] else c.now
    ensures Do(c, Writer(a), timeout, lag) == c.(d := d, readAt := readAt)
  {
  }

  lemma Loads(d: Db, op: nat, req: Request, row: Row, seen: nat, mark: nat)
    requires Prepare(d.t, req) == Proceed(row) && IsOldest(d.last, d.ops, mark)
    requires IsNewest(d.full, row.name, Current, seen)
    ensures Take(d, Load(op, req)) == d.(ops := d.ops[op := Op(Pending(row, d.last, seen), mark, None)])
  {
    assert Newest(d.full, row.name, Current) == seen;
    assert Oldest(d.last, d.ops) == mark;
  }

  // ------------------------------------------------------------- the steps of the run

  const CREATE := CreateReq(KEY, "", 0)
  const DELETE := DeleteReq(KEY, 0)
  const UPDATE := UpdateReq(KEY, "", 1, 0)

  const D1 := Db(ONE, ONE, 1, 0, map[])
  const SLOW := Op(Pending(DELETED, 1, 1), 2, Some(2))
  const D2 := Db(ONE, ONE, 2, 0, map[1 := SLOW])
  const D3 := Db(GAP, GAP, 3, 0, map[1 := SLOW])
  const STALE := Op(Pending(UPDATED, 3, 1), 2, None)
  const D4 := Db(FILLED, FILLED, 3, 0, map[3 := STALE])

  /** Row 1. */
  lemma CreateSteps(timeout: nat, lag: nat)
    requires 0 < timeout
    ensures Leads(BEGIN, [Writer(Load(0, CREATE)), Writer(Reserve(0)), Writer(Commit(0))], BEGIN.(d := D1), timeout, lag)
  {
    hide Prepare, Oldest;
    var d1 := NOTHING.(ops := map[0 := Op(Pending(CREATED, 0, 0), 1, None)]);
    var d2 := NOTHING.(ops := map[0 := Op(Pending(CREATED, 0, 0), 1, Some(1))], last := 1);
    CreatePrepares(NOTHING.t, 0);
    Loads(NOTHING, 0, CREATE, CREATED, 0, 1);
    WriterDoes(BEGIN, Load(0, CREATE), d1, map[0 := 0], timeout, lag);
    var c1 := BEGIN.(d := d1, readAt := map[0 := 0]);
    WriterDoes(c1, Reserve(0), d2, map[0 := 0], timeout, lag);
    var c2 := BEGIN.(d := d2, readAt := map[0 := 0]);
    assert map[][1 := CREATED] == ONE;
    assert d2.ops - {0} == map[];
    assert !Conflict(d2.t, KEY, 0);
    WriterDoes(c2, Commit(0), D1, map[], timeout, lag);
    LeadsThree(BEGIN, Writer(Load(0, CREATE)), c1, Writer(Reserve(0)), c2, Writer(Commit(0)), BEGIN.(d := D1), timeout, lag);
  }

  const BOTH: map<nat, Op> := map[1 := SLOW, 2 := Op(Pending(BESIDE, 2, 0), 2, None)]
  const BOTH_RESERVED: map<nat, Op> := map[1 := SLOW, 2 := Op(Pending(BESIDE, 2, 0), 2, Some(3))]

  const C1 := BEGIN.(d := D1)
  const C2 := BEGIN.(d := D2.(ops := BOTH), readAt := map[1 := 0, 2 := 0])
  const C3 := BEGIN.(d := D3, readAt := map[1 := 0], reading := Some(3))

  /** A delete takes id 2, and a create of another key begins. */
  lemma DeleteReserves(timeout: nat, lag: nat)
    requires 0 < timeout
    ensures Leads(C1, [Writer(Load(1, DELETE)), Writer(Reserve(1)), Writer(Load(2, CreateReq(OTHER, "", 0)))], C2, timeout, lag)
  {
    hide Prepare, Oldest;
    var d1 := D1.(ops := map[1 := Op(Pending(DELETED, 1, 1), 2, None)]);
    var c1 := BEGIN.(d := d1, readAt := map[1 := 0]);
    var c2 := BEGIN.(d := D2, readAt := map[1 := 0]);
    assert IsNewest(ONE, KEY, Current, 1);
    DeletePrepares(ONE, 1);
    Loads(D1, 1, DELETE, DELETED, 1, 2);
    WriterDoes(C1, Load(1, DELETE), d1, map[1 := 0], timeout, lag);
    WriterDoes(c1, Reserve(1), D2, map[1 := 0], timeout, lag);
    PrepareFirst(ONE, OTHER, "", 0);
    assert D2.ops[1].w.head + 1 == 2;
    Loads(D2, 2, CreateReq(OTHER, "", 0), BESIDE, 0, 2);
    WriterDoes(c2, Load(2, CreateReq(OTHER, "", 0)), D2.(ops := BOTH), map[1 := 0, 2 := 0], timeout, lag);
    LeadsThree(C1, Writer(Load(1, DELETE)), c1, Writer(Reserve(1)), c2, Writer(Load(2, CreateReq(OTHER, "", 0))), C2, timeout, lag);
  }

  /** It takes id 3 and is visible first; a tick reads MAX(id). */
  lemma OtherCommits(timeout: nat, lag: nat)
    ensures Leads(C2, [Writer(Reserve(2)), Writer(Commit(2)), TickRead(3)], C3, timeout, lag)
  {
    var d1 := D2.(ops := BOTH_RESERVED, last := 3);
    var c1 := BEGIN.(d := d1, readAt := map[1 := 0, 2 := 0]);
    var c2 := BEGIN.(d := D3, readAt := map[1 := 0]);
    WriterDoes(C2, Reserve(2), d1, map[1 := 0, 2 := 0], timeout, lag);
    assert BOTH_RESERVED - {2} == map[1 := SLOW];
    assert ONE[3 := BESIDE] == GAP;
    assert !Conflict(ONE, OTHER, 0);
    WriterDoes(c1, Commit(2), D3, map[1 := 0], timeout, lag);
    assert 3 in GAP && MaxId(GAP) == 3;
    LeadsThree(C2, Writer(Reserve(2)), c1, Writer(Commit(2)), c2, TickRead(3), C3, timeout, lag);
  }

  const TICK := ReliefLag.TickRev(0, 3)

  function C4(timeout: nat): Clock
    requires 0 < timeout
  {
    Clock(D3.(ops := map[1 := SLOW, 3 := STALE]), timeout - 1, map[1 := 0, 3 := timeout - 1], 0, [TICK], None, Some(0))
  }

  lemma UpdatePrepares()
    ensures Prepare(GAP, UPDATE) == Proceed(UPDATED) && IsNewest(GAP, KEY, Current, 1)
  {
    assert IsNewest(GAP, KEY, Current, 1);
    NewestIs(GAP, Current, 1);
    GetIsNewest(GAP, KEY, false);
  }

  /** Just before the delete's deadline an update reads row 1. */
  lemma UpdateReads(timeout: nat, lag: nat)
    requires 0 < timeout
    ensures Leads(C3, [TickDate, Pass(timeout - 1), Writer(Load(3, UPDATE))], C4(timeout), timeout, lag)
  {
    hide Prepare, Oldest;
    var c1 := C3.(revs := [TICK], reading := None, target := Some(0));
    var c2 := c1.(now := timeout - 1);
    assert Do(C3, TickDate, timeout, lag) == c1;
    assert Expired(c1, timeout, timeout - 1) == {};
    assert D3.ops - {} == D3.ops && c1.readAt - {} == c1.readAt;
    UpdatePrepares();
    assert D3.ops[1].w.head + 1 == 2;
    Loads(D3, 3, UPDATE, UPDATED, 1, 2);
    WriterDoes(c2, Load(3, UPDATE), C4(timeout).d, C4(timeout).readAt, timeout, lag);
    LeadsThree(C3, TickDate, c1, Pass(timeout - 1), c2, Writer(Load(3, UPDATE)), C4(timeout), timeout, lag);
  }

  function C5(timeout: nat): Clock
    requires 0 < timeout
  {
    Clock(D4, 2 * timeout - 2, map[3 := timeout - 1], 3, [TICK], None, Some(0))
  }

  /** The delete becomes visible under its older id, the poller sends it and the row after it, and a timeout passes again. */
  lemma DeleteCommits(timeout: nat, lag: nat)
    requires 0 < timeout
    ensures Leads(C4(timeout), [Writer(Commit(1)), Poll(3), Pass(timeout - 1)], C5(timeout), timeout, lag)
  {
    var c1 := C4(timeout).(d := D4, readAt := map[3 := timeout - 1]);
    var c2 := c1.(polled := 3);
    assert map[1 := SLOW, 3 := STALE] - {1} == D4.ops;
    assert GAP[2 := DELETED] == FILLED;
    assert !Conflict(GAP, KEY, 1);
    WriterDoes(C4(timeout), Commit(1), D4, map[3 := timeout - 1], timeout, lag);
    assert Expired(c2, timeout, 2 * timeout - 2) == {};
    assert D4.ops - {} == D4.ops && c2.readAt - {} == c2.readAt;
    assert 3 in FILLED && MaxId(FILLED) == 3;
    LeadsThree(C4(timeout), Writer(Commit(1)), c1, Poll(3), c2, Pass(timeout - 1), C5(timeout), timeout, lag);
  }

  function LateDelete(timeout: nat): seq<Move>
    requires 0 < timeout
  {
    [Writer(Load(0, CREATE)), Writer(Reserve(0)), Writer(Commit(0))]
    + [Writer(Load(1, DELETE)), Writer(Reserve(1)), Writer(Load(2, CreateReq(OTHER, "", 0)))]
    + [Writer(Reserve(2)), Writer(Commit(2)), TickRead(3)]
    + [TickDate, Pass(timeout - 1), Writer(Load(3, UPDATE))]
    + [Writer(Commit(1)), Poll(3), Pass(timeout - 1)]
    + [TickRead(3), TickDate]
  }

  lemma AllMoves(timeout: nat, lag: nat)
    requires 0 < timeout && lag + 2 <= 2 * timeout
    ensures var e := DoAll(BEGIN, LateDelete(timeout), timeout, lag);
            CanDoAll(BEGIN, LateDelete(timeout), timeout, lag) && e.d == D4 && e.target == Some(3)
  {
    hide CanDoAll, DoAll;
    CreateSteps(timeout, lag);
    DeleteReserves(timeout, lag);
    OtherCommits(timeout, lag);
    UpdateReads(timeout, lag);
    DeleteCommits(timeout, lag);
    LastTick(timeout, lag);
    var c6 := Do(C5(timeout).(reading := Some(3)), TickDate, timeout, lag);
    var m1, m2 := [Writer(Load(0, CREATE)), Writer(Reserve(0)), Writer(Commit(0))],
                  [Writer(Load(1, DELETE)), Writer(Reserve(1)), Writer(Load(2, CreateReq(OTHER, "", 0)))];
    var m3, m4 := [Writer(Reserve(2)), Writer(Commit(2)), TickRead(3)],
                  [TickDate, Pass(timeout - 1), Writer(Load(3, UPDATE))];
    var m5 := [Writer(Commit(1)), Poll(3), Pass(timeout - 1)];
    LeadsOn(BEGIN, m1, C1, m2, C2, timeout, lag);
    LeadsOn(BEGIN, m1 + m2, C2, m3, C3, timeout, lag);
    LeadsOn(BEGIN, m1 + m2 + m3, C3, m4, C4(timeout), timeout, lag);
    LeadsOn(BEGIN, m1 + m2 + m3 + m4, C4(timeout), m5, C5(timeout), timeout, lag);
    LeadsOn(BEGIN, m1 + m2 + m3 + m4 + m5, C5(timeout), [TickRead(3), TickDate], c6, timeout, lag);
  }

  /** The tick hands a pass the head of the first one. */
  lemma LastTick(timeout: nat, lag: nat)
    requires 0 < timeout && lag + 2 <= 2 * timeout
    ensures var c6 := Do(C5(timeout).(reading := Some(3)), TickDate, timeout, lag);
            Leads(C5(timeout), [TickRead(3), TickDate], c6, timeout, lag) && c6.d == D4 && c6.target == Some(3)
  {
    var c, c5 := C5(timeout), C5(timeout).(reading := Some(3));
    assert 3 in FILLED && MaxId(FILLED) == 3;
    assert ReliefLag.OldEnough([TICK], 2 * timeout - 2, lag) == 0;
    OneMore(c, TickRead(3), timeout, lag);
    OneMore(c5, TickDate, timeout, lag);
    LeadsOn(c, [TickRead(3)], c5, [TickDate], Do(c5, TickDate, timeout, lag), timeout, lag);
    assert [TickRead(3)] + [TickDate] == [TickRead(3), TickDate];
  }

  lemma KeyCompacted(prevRev: nat)
    ensures !Conflict(CompactTo(FILLED, 2), KEY, prevRev)
  {
    assert SqlVictim(FILLED, 2, 1) by { assert FILLED[2].prevRev == 1; }
    assert SqlVictim(FILLED, 2, 2);
    var c := CompactSql(FILLED, 2);
    assert c.Keys <= {3};
    SetRevConflict(c, 2, KEY, prevRev);
    hide SqlVictim, CompactSql;
  }

  /** Compacted below the head, the table has no row of the key left, and the update finds no conflict. */
  lemma StaleUpdateLands()
    ensures var e := Take(D4, CompactAt(2)); Lands(e, 3) && !KeyUntouched(e, 3)
  {
    hide CompactTo;
    KeyCompacted(1);
    SetRevNewest(FILLED, 2, KEY);
    assert IsNewest(FILLED, KEY, Current, 2);
    NewestIs(FILLED, Current, 2);
  }

  lemma BatchMay(c: Clock, timeout: nat)
    requires c.d == D4 && c.target == Some(3)
    ensures CanDo(c, Batch(2), timeout)
  {
    assert 3 in FILLED;
  }

  /** With a lag two seconds or more short of two timeouts, a stale update succeeds on the deleted key. */
  lemma ShortLagBreaksAnUpdate(timeout: nat, lag: nat)
    requires 0 < timeout && lag + 2 <= 2 * timeout
    ensures ClockInit(BEGIN) && CanDoAll(BEGIN, LateDelete(timeout), timeout, lag)
    ensures var e := DoAll(BEGIN, LateDelete(timeout), timeout, lag);
            var b := Do(e, Batch(2), timeout, lag);
            CanDo(e, Batch(2), timeout) && Lands(b.d, 3) && !KeyUntouched(b.d, 3)
  {
    hide CanDoAll, DoAll, LateDelete, CompactTo;
    AllMoves(timeout, lag);
    StaleUpdateLands();
    BatchMay(DoAll(BEGIN, LateDelete(timeout), timeout, lag), timeout);
    hide CanDo, Lands, KeyUntouched, Take;
  }

  /** After every run, the index decides as it should, tombstones of creates aside. */
  ghost predicate DecidesAlways(timeout: nat, lag: nat) {
    forall c: Clock, ms: seq<Move> :: ClockInit(c) && CanDoAll(c, ms, timeout, lag) ==>
      var e := DoAll(c, ms, timeout, lag);
      forall op :: op in e.d.ops ==> (Lands(e.d, op) <==> KeyUntouched(e.d, op))
  }

  /** The lag needs two timeouts, in whole seconds: no run is decided wrongly if and only if it has them. */
  lemma TwoTimeoutsAreExact(timeout: nat, lag: nat)
    ensures DecidesAlways(timeout, lag) <==> 2 * timeout <= lag + 1
  {
    if 2 * timeout <= lag + 1 {
      forall c: Clock, ms: seq<Move> | ClockInit(c) && CanDoAll(c, ms, timeout, lag)
        ensures var e := DoAll(c, ms, timeout, lag);
                forall op :: op in e.d.ops ==> (Lands(e.d, op) <==> KeyUntouched(e.d, op))
      {
        TwoTimeoutsMeetTheBound(c, ms, 0, timeout, lag);
      }
    } else {
      ShortLagDecidesWrongly(timeout, lag);
    }
  }

  lemma ShortLagDecidesWrongly(timeout: nat, lag: nat)
    requires 0 < timeout && lag + 2 <= 2 * timeout
    ensures !DecidesAlways(timeout, lag)
  {
    hide CanDoAll, DoAll, LateDelete, Do, CanDo;
    ShortLagBreaksAnUpdate(timeout, lag);
    var e := DoAll(BEGIN, LateDelete(timeout), timeout, lag);
    var b := Do(e, Batch(2), timeout, lag);
    assert Leads(BEGIN, LateDelete(timeout), e, timeout, lag);
    OneMore(e, Batch(2), timeout, lag);
    LeadsOn(BEGIN, LateDelete(timeout), e, [Batch(2)], b, timeout, lag);
    hide Lands, KeyUntouched;
    assert b == DoAll(BEGIN, LateDelete(timeout) + [Batch(2)], timeout, lag);
  }

  lemma OneMore(c: Clock, m: Move, timeout: nat, lag: nat)
    requires CanDo(c, m, timeout)
    ensures Leads(c, [m], Do(c, m, timeout, lag), timeout, lag)
  {
    var e := Do(c, m, timeout, lag);
    assert [m][1..] == [];
    assert Leads(e, [], e, timeout, lag);
  }
}

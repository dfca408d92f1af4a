/**
  The relief's lag where rows appear out of the order of their ids. An operation can be beaten by a row
  whose id was handed out before the operation's read, so its age alone bounds nothing: what counts is
  the age of the oldest operation under way at its read, which is two timeouts in all.
 */
module ReservedLag {
  import opened Options
  import opened KineTable
  import opened Writers
  import opened ReservedWriters
  import ReliefLag

  type TickRev = ReliefLag.TickRev

  /** As the clocked protocol of ReliefLag, over the writers that reserve ids. polled is how far the poller has come. */
  datatype Clock = Clock(d: Db, now: nat, readAt: map<nat, nat>, polled: nat, revs: seq<TickRev>,
                         reading: Option<nat>, target: Option<nat>)

  datatype Move =
    | Writer(a: Step)
    | Poll(rev: nat)
    | TickRead(rev: nat)
    | TickDate
    | Batch(to: nat)
    | Pass(seconds: nat)

  /** A pass never goes further than the poller had come when it began. */
  function Lower(target: nat, polled: nat): nat {
    if target < polled then target else polled
  }

  /** Operations whose deadline has come: their context is over, and their row will not be committed. */
  function Expired(c: Clock, timeout: nat, now: nat): set<nat> {
    set op | op in c.readAt && c.readAt[op] + timeout <= now
  }

  function Do(c: Clock, m: Move, timeout: nat, lag: nat): Clock {
    match m
    case Writer(a) =>
      var d' := Take(c.d, a);
      c.(d := d', readAt := map op | op in d'.ops :: if op in c.readAt then c.readAt[op] else c.now)
    case Poll(rev) => c.(polled := rev)
    case TickRead(rev) => c.(reading := Some(rev))
    case TickDate =>
      (match c.reading
       case None => c
       case Some(rev) =>
         c.(revs := ReliefLag.Recent(c.revs, c.now, lag) + [ReliefLag.TickRev(c.now, rev)], reading := None,
            target := Some(Lower(ReliefLag.ReliefTarget(c.revs, c.now, lag), c.polled))))
    case Batch(to) => c.(d := Take(c.d, CompactAt(to)))
    case Pass(seconds) =>
      var gone := Expired(c, timeout, c.now + seconds);
      c.(now := c.now + seconds, d := c.d.(ops := c.d.ops - gone), readAt := c.readAt - gone)
  }

  /** As in ReliefLag: what the lag does not give. */
  predicate TombstonesKept(d: Db, target: nat) {
    forall op :: op in d.ops && OverTombstone(d.ops[op].w) && Lands(d, op) ==> target < d.ops[op].w.row.prevRev
  }

  /**
    The poller goes on over ids that are visible, filled, or given up: never over one that an insert still
    holds, as Poller.DeliversExactlyOnce has it. It may fill such an id first, which takes it from the insert.
   */
  predicate CanPoll(c: Clock, rev: nat) {
    c.polled <= rev <= MaxId(c.d.t) && forall op :: op in c.d.ops && c.d.ops[op].id.Some? ==> rev < c.d.ops[op].id.value
  }

  predicate CanDo(c: Clock, m: Move, timeout: nat) {
    match m
    case Poll(rev) => CanPoll(c, rev)
    case Writer(a) => !a.CompactAt? && CanTake(c.d, a) && (a.Load? ==> 0 < timeout)
    case TickRead(rev) => rev <= MaxId(c.d.t)
    case TickDate => true
    case Batch(to) => c.target.Some? && to <= c.target.value && to < MaxId(c.d.t) && TombstonesKept(c.d, to)
    case Pass(_) => true
  }

  function DoAll(c: Clock, ms: seq<Move>, timeout: nat, lag: nat): Clock
    decreases |ms|
  {
    if ms == [] then c else DoAll(Do(c, ms[0], timeout, lag), ms[1..], timeout, lag)
  }

  predicate CanDoAll(c: Clock, ms: seq<Move>, timeout: nat, lag: nat)
    decreases |ms|
  {
    ms == [] || (CanDo(c, ms[0], timeout) && CanDoAll(Do(c, ms[0], timeout, lag), ms[1..], timeout, lag))
  }

  // -------------------------------------------------------------- the invariant

  /** No revision recorded a timeout before the operation's read reaches its mark, and no running pass does. */
  predicate InTime(c: Clock, timeout: nat, op: nat)
    requires op in c.d.ops
  {
    var o := c.d.ops[op];
    && op in c.readAt && c.readAt[op] <= c.now < c.readAt[op] + timeout
    && (forall t :: t in c.revs && t.at < c.readAt[op] ==> t.rev <= o.w.head)
    && (forall t :: t in c.revs && t.at + timeout <= c.readAt[op] ==> t.rev < o.mark)
    && (c.target.Some? ==> c.target.value < o.mark)
  }

  predicate ClockInv(c: Clock, timeout: nat) {
    && DbInv(c.d)
    && c.readAt.Keys == c.d.ops.Keys
    && (forall t :: t in c.revs ==> t.at <= c.now && t.rev <= c.d.last)
    && (c.reading.Some? ==> c.reading.value <= c.d.last)
    && (c.target.Some? ==> c.target.value <= c.d.last)
    && (forall op {:trigger InTime(c, timeout, op)} :: op in c.d.ops ==> InTime(c, timeout, op))
  }

  predicate ClockInit(c: Clock) {
    DbInit(c.d) && c.readAt == map[] && c.polled == 0 && c.revs == [] && c.reading == None && c.target == None
  }

  lemma BatchBelowMarks(c: Clock, to: nat, timeout: nat)
    requires ClockInv(c, timeout) && CanDo(c, Batch(to), timeout)
    ensures BelowMarks(c.d, to)
  {
    forall op | op in c.d.ops ensures to < c.d.ops[op].mark {
      assert InTime(c, timeout, op);
    }
  }

  /** The lag argument: the revision is two timeouts old, so nobody under way at the operation's read had read before it. */
  lemma TargetIsOld(c: Clock, timeout: nat, lag: nat, op: nat)
    requires ClockInv(c, timeout) && 2 * timeout <= lag + 1 && op in c.d.ops
    ensures ReliefLag.ReliefTarget(c.revs, c.now, lag) < c.d.ops[op].mark
  {
    assert InTime(c, timeout, op);
    assert OpOk(c.d.t, c.d.full, c.d.floor, c.d.last, c.d.ops[op]);
    var i := ReliefLag.OldEnough(c.revs, c.now, lag);
    if i >= 0 {
      assert c.revs[i] in c.revs && c.revs[i].at + timeout <= c.readAt[op];
    }
  }

  /** A new operation's mark is the next id, or the next id at the read of one that is still in time. */
  lemma NewMark(c: Clock, timeout: nat)
    requires ClockInv(c, timeout)
    ensures var m := Oldest(c.d.last, c.d.ops);
            && (forall t :: t in c.revs && t.at + timeout <= c.now ==> t.rev < m)
            && (c.target.Some? ==> c.target.value < m)
  {
    var m := Oldest(c.d.last, c.d.ops);
    if m != c.d.last + 1 {
      var o :| o in c.d.ops && m == c.d.ops[o].w.head + 1;
      assert InTime(c, timeout, o) && OpOk(c.d.t, c.d.full, c.d.floor, c.d.last, c.d.ops[o]);
    }
  }

  /** What a writer's step does to the operations' marks and heads, and to the last id. */
  lemma WriterMoves(d: Db, a: Step)
    requires CanTake(d, a)
    ensures d.last <= Take(d, a).last
    ensures forall op :: op in Take(d, a).ops && !(a.Load? && op == a.op) ==>
              op in d.ops && Take(d, a).ops[op].mark == d.ops[op].mark && Take(d, a).ops[op].w == d.ops[op].w
    ensures a.Load? && a.op in Take(d, a).ops ==>
              a.op !in d.ops && Take(d, a).ops[a.op].mark == Oldest(d.last, d.ops) && Take(d, a).ops[a.op].w.head == d.last
  {
  }

  lemma WriterInTime(c: Clock, a: Step, timeout: nat, lag: nat, op: nat)
    requires ClockInv(c, timeout) && CanDo(c, Writer(a), timeout) && op in Do(c, Writer(a), timeout, lag).d.ops
    ensures InTime(Do(c, Writer(a), timeout, lag), timeout, op)
  {
    WriterMoves(c.d, a);
    NewMark(c, timeout);
    hide DbInv, Take, CanTake, IsOldest;
    if op in c.d.ops { assert InTime(c, timeout, op); }
  }

  lemma WriterKeeps(c: Clock, a: Step, timeout: nat, lag: nat)
    requires ClockInv(c, timeout) && CanDo(c, Writer(a), timeout)
    ensures ClockInv(Do(c, Writer(a), timeout, lag), timeout)
  {
    TakeKeeps(c.d, a);
    WriterMoves(c.d, a);
    var c' := Do(c, Writer(a), timeout, lag);
    forall op | op in c'.d.ops ensures InTime(c', timeout, op) {
      WriterInTime(c, a, timeout, lag, op);
    }
    hide DbInv, Take, CanTake, IsOldest;
  }

  lemma BatchKeeps(c: Clock, to: nat, timeout: nat, lag: nat)
    requires ClockInv(c, timeout) && CanDo(c, Batch(to), timeout)
    ensures ClockInv(Do(c, Batch(to), timeout, lag), timeout)
  {
    BatchBelowMarks(c, to, timeout);
    TakeKeeps(c.d, CompactAt(to));
    WriterMoves(c.d, CompactAt(to));
    var c' := Do(c, Batch(to), timeout, lag);
    forall op | op in c'.d.ops ensures InTime(c', timeout, op) {
      assert InTime(c, timeout, op);
    }
  }

  lemma TickKeeps(c: Clock, timeout: nat, lag: nat)
    requires ClockInv(c, timeout) && 2 * timeout <= lag + 1
    ensures ClockInv(Do(c, TickDate, timeout, lag), timeout)
  {
    var c' := Do(c, TickDate, timeout, lag);
    var i := ReliefLag.OldEnough(c.revs, c.now, lag);
    assert i >= 0 ==> c.revs[i] in c.revs;
    hide DbInv;
    forall op | op in c'.d.ops ensures InTime(c', timeout, op) {
      assert InTime(c, timeout, op);
      TargetIsOld(c, timeout, lag, op);
    }
  }

  lemma PassKeeps(c: Clock, seconds: nat, timeout: nat, lag: nat)
    requires ClockInv(c, timeout)
    ensures ClockInv(Do(c, Pass(seconds), timeout, lag), timeout)
  {
    var c' := Do(c, Pass(seconds), timeout, lag);
    FewerOps(c.d, c'.d.ops);
    hide DbInv;
    forall op | op in c'.d.ops ensures InTime(c', timeout, op) {
      assert InTime(c, timeout, op);
    }
  }

  lemma DoKeeps(c: Clock, m: Move, timeout: nat, lag: nat)
    requires ClockInv(c, timeout) && CanDo(c, m, timeout) && 2 * timeout <= lag + 1
    ensures ClockInv(Do(c, m, timeout, lag), timeout)
  {
    match m
    case Writer(a) => WriterKeeps(c, a, timeout, lag);
    case Poll(rev) =>
      forall op | op in c.d.ops ensures InTime(Do(c, m, timeout, lag), timeout, op) {
        assert InTime(c, timeout, op);
      }
    case TickRead(rev) =>
      assert MaxId(c.d.t) <= c.d.last;
      forall op | op in c.d.ops ensures InTime(Do(c, m, timeout, lag), timeout, op) {
        assert InTime(c, timeout, op);
      }
    case TickDate => TickKeeps(c, timeout, lag);
    case Batch(to) => BatchKeeps(c, to, timeout, lag);
    case Pass(seconds) => PassKeeps(c, seconds, timeout, lag);
  }

  lemma {:induction false} DoAllKeeps(c: Clock, ms: seq<Move>, timeout: nat, lag: nat)
    requires ClockInv(c, timeout) && CanDoAll(c, ms, timeout, lag) && 2 * timeout <= lag + 1
    ensures ClockInv(DoAll(c, ms, timeout, lag), timeout)
    decreases |ms|
  {
    if ms != [] {
      DoKeeps(c, ms[0], timeout, lag);
      DoAllKeeps(Do(c, ms[0], timeout, lag), ms[1..], timeout, lag);
    }
  }

  /**
    Over every run whose lag is at least two timeouts, less the one second a clock of whole seconds gives,
    whatever batch comes next is below every mark, and the history of every key is one line.
   */
  lemma TwoTimeoutsMeetTheBound(c: Clock, ms: seq<Move>, to: nat, timeout: nat, lag: nat)
    requires ClockInit(c) && CanDoAll(c, ms, timeout, lag) && 2 * timeout <= lag + 1
    ensures var e := DoAll(c, ms, timeout, lag);
            && Linear(e.d.full, e.d.floor)
            && (CanDo(e, Batch(to), timeout) ==> BelowMarks(e.d, to))
            && (forall op :: op in e.d.ops ==> (Lands(e.d, op) <==> KeyUntouched(e.d, op)))
  {
    InitDbInv(c.d);
    DoAllKeeps(c, ms, timeout, lag);
    var e := DoAll(c, ms, timeout, lag);
    if CanDo(e, Batch(to), timeout) { BatchBelowMarks(e, to, timeout); }
    forall op | op in e.d.ops ensures Lands(e.d, op) <==> KeyUntouched(e.d, op) {
      LandsIffUntouched(e.d, op);
    }
  }

  /** The constants in use just meet it. */
  lemma ConstantsMeetTwoTimeouts(c: Clock, ms: seq<Move>)
    requires ClockInit(c) && CanDoAll(c, ms, ReliefLag.WRITE_TIMEOUT, ReliefLag.RELIEF_LAG)
    ensures var e := DoAll(c, ms, ReliefLag.WRITE_TIMEOUT, ReliefLag.RELIEF_LAG);
            && Linear(e.d.full, e.d.floor)
            && forall op :: op in e.d.ops ==> (Lands(e.d, op) <==> KeyUntouched(e.d, op))
  {
    TwoTimeoutsMeetTheBound(c, ms, 0, ReliefLag.WRITE_TIMEOUT, ReliefLag.RELIEF_LAG);
  }
}

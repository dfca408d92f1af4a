/**
  Why the quota's relief may compact without a retained window: the revisions it compacts to are at
  least a lag old, and no operation inserts a lag after its read. Time is in seconds.
 */
module ReliefLag {
  import opened Options
  import opened KineTable
  import opened Writers

  /** QuotaReliefLag, and the bound on a request and on a TTL delete (QuotaTTLDeleteTimeout). */
  const RELIEF_LAG: nat := 120
  const WRITE_TIMEOUT: nat := 60

  /** The current revision as one tick read it, dated after the read. */
  datatype TickRev = TickRev(at: nat, rev: nat)

  /** The newest record at least lag old, -1 when there is none. */
  function OldEnough(revs: seq<TickRev>, now: nat, lag: nat): (i: int)
    ensures -1 <= i < |revs|
    ensures i >= 0 ==> revs[i].at + lag <= now
    ensures forall j :: i < j < |revs| ==> now < revs[j].at + lag
  {
    if revs == [] then -1
    else if revs[|revs| - 1].at + lag <= now then |revs| - 1
    else OldEnough(revs[..|revs| - 1], now, lag)
  }

  function ReliefTarget(revs: seq<TickRev>, now: nat, lag: nat): nat {
    var i := OldEnough(revs, now, lag);
    if i < 0 then 0 else revs[i].rev
  }

  /** What reliefTarget keeps of the records. */
  function Recent(revs: seq<TickRev>, now: nat, lag: nat): (r: seq<TickRev>)
    ensures forall t :: t in r ==> t in revs
  {
    var i := OldEnough(revs, now, lag);
    if i < 0 then revs else revs[i..]
  }

  /**
    The protocol with a clock. readAt dates every pending operation's read. reading is the revision a
    tick has read and not dated yet; target is what the running relief pass was given.
   */
  datatype Clocked = Clocked(s: State, now: nat, readAt: map<nat, nat>, revs: seq<TickRev>,
                             reading: Option<nat>, target: Option<nat>)

  datatype Move =
    | Writer(a: Action)
    | TickRead(rev: nat)
    | TickDate
    | Batch(to: nat)
    | Pass(seconds: nat)

  /** Operations whose deadline has come: their context is over, as a Go context is at its deadline, and they never insert. */
  function Expired(c: Clocked, timeout: nat, now: nat): set<nat> {
    set op | op in c.readAt && c.readAt[op] + timeout <= now
  }

  function Move1(c: Clocked, m: Move, timeout: nat, lag: nat): Clocked {
    match m
    case Writer(a) =>
      var s' := Apply(c.s, a);
      c.(s := s', readAt := map op | op in s'.pending :: if op in c.readAt then c.readAt[op] else c.now)
    case TickRead(rev) => c.(reading := Some(rev))
    case TickDate =>
      (match c.reading
       case None => c
       case Some(rev) =>
         c.(revs := Recent(c.revs, c.now, lag) + [TickRev(c.now, rev)], reading := None,
            target := Some(ReliefTarget(c.revs, c.now, lag))))
    case Batch(to) => c.(s := Apply(c.s, Compact(to)))
    case Pass(seconds) =>
      var gone := Expired(c, timeout, c.now + seconds);
      c.(now := c.now + seconds, s := c.s.(pending := c.s.pending - gone), readAt := c.readAt - gone)
  }

  /** No pending create that could still succeed loses the tombstone it read: the hypothesis the lag does not give. */
  predicate TombstonesKept(s: State, target: nat) {
    forall op :: op in s.pending && OverTombstone(s.pending[op]) && Succeeds(s, op) ==> target < s.pending[op].row.prevRev
  }

  /** A batch may run at any time after its pass began, to anything up to the pass's target and below the head. */
  predicate MayMove(c: Clocked, m: Move, timeout: nat) {
    match m
    case Writer(a) => !a.Compact? && Allowed(c.s, a) && (a.Read? ==> 0 < timeout)
    case TickRead(rev) => rev <= c.s.head
    case TickDate => true
    case Batch(to) => c.target.Some? && to <= c.target.value && to < MaxId(c.s.t)
    case Pass(_) => true
  }

  predicate CanMove(c: Clocked, m: Move, timeout: nat) {
    MayMove(c, m, timeout) && (m.Batch? ==> TombstonesKept(c.s, m.to))
  }

  function Moves(c: Clocked, ms: seq<Move>, timeout: nat, lag: nat): Clocked
    decreases |ms|
  {
    if ms == [] then c else Moves(Move1(c, ms[0], timeout, lag), ms[1..], timeout, lag)
  }

  predicate CanMoves(c: Clocked, ms: seq<Move>, timeout: nat, lag: nat)
    decreases |ms|
  {
    ms == [] || (CanMove(c, ms[0], timeout) && CanMoves(Move1(c, ms[0], timeout, lag), ms[1..], timeout, lag))
  }

  // -------------------------------------------------------------- the invariant

  /** The operation is dated, in time, and read under a head no older record and no running pass exceeds. */
  predicate InTime(c: Clocked, timeout: nat, op: nat)
    requires op in c.s.pending
  {
    var w := c.s.pending[op];
    && op in c.readAt && c.readAt[op] <= c.now < c.readAt[op] + timeout
    && w.head <= c.s.head
    && (forall t :: t in c.revs && t.at < c.readAt[op] ==> t.rev <= w.head)
    && (c.target.Some? ==> c.target.value <= w.head)
  }

  predicate ClockInv(c: Clocked, timeout: nat) {
    && Inv(c.s)
    && c.readAt.Keys == c.s.pending.Keys
    && (forall t :: t in c.revs ==> t.at <= c.now && t.rev <= c.s.head)
    && (c.reading.Some? ==> c.reading.value <= c.s.head)
    && (c.target.Some? ==> c.target.value <= c.s.head)
    && (forall op {:trigger InTime(c, timeout, op)} :: op in c.s.pending ==> InTime(c, timeout, op))
  }

  predicate ClockInit(c: Clocked) {
    Init(c.s) && c.readAt == map[] && c.revs == [] && c.reading == None && c.target == None
  }

  /** The lag argument: no target a pass can hold exceeds the head any pending operation read under. */
  lemma BatchIsSafe(c: Clocked, to: nat, timeout: nat)
    requires ClockInv(c, timeout) && CanMove(c, Batch(to), timeout)
    ensures CompactSafe(c.s, to)
  {
    forall op | op in c.s.pending ensures to <= c.s.pending[op].head {
      assert InTime(c, timeout, op);
    }
  }

  lemma TargetIsOld(c: Clocked, timeout: nat, lag: nat, op: nat)
    requires ClockInv(c, timeout) && timeout <= lag && op in c.s.pending
    ensures ReliefTarget(c.revs, c.now, lag) <= c.s.pending[op].head
  {
    assert InTime(c, timeout, op);
    var i := OldEnough(c.revs, c.now, lag);
    if i >= 0 {
      assert c.revs[i] in c.revs && c.revs[i].at < c.readAt[op];
    }
  }

  lemma HeadGrows(s: State, a: Action)
    ensures s.head <= Apply(s, a).head
    ensures !a.Read? ==> forall op :: op in Apply(s, a).pending ==> op in s.pending && Apply(s, a).pending[op] == s.pending[op]
    ensures a.Read? ==> forall op :: op in Apply(s, a).pending && op != a.op ==> op in s.pending && Apply(s, a).pending[op] == s.pending[op]
    ensures a.Read? && a.op !in s.pending && a.op in Apply(s, a).pending ==> Apply(s, a).pending[a.op].head == s.head
  {
  }

  lemma WriterKeeps(c: Clocked, a: Action, timeout: nat, lag: nat)
    requires ClockInv(c, timeout) && CanMove(c, Writer(a), timeout)
    ensures ClockInv(Move1(c, Writer(a), timeout, lag), timeout)
  {
    StepKeeps(c.s, a);
    HeadGrows(c.s, a);
    var c' := Move1(c, Writer(a), timeout, lag);
    forall op | op in c'.s.pending ensures InTime(c', timeout, op) {
      if op in c.s.pending { assert InTime(c, timeout, op); }
    }
  }

  lemma BatchKeeps(c: Clocked, to: nat, timeout: nat, lag: nat)
    requires ClockInv(c, timeout) && CanMove(c, Batch(to), timeout)
    ensures ClockInv(Move1(c, Batch(to), timeout, lag), timeout)
  {
    BatchIsSafe(c, to, timeout);
    BoundIsSafe(c.s, to);
    StepKeeps(c.s, Compact(to));
    HeadGrows(c.s, Compact(to));
    var c' := Move1(c, Batch(to), timeout, lag);
    forall op | op in c'.s.pending ensures InTime(c', timeout, op) {
      assert InTime(c, timeout, op);
    }
  }

  lemma TickKeeps(c: Clocked, timeout: nat, lag: nat)
    requires ClockInv(c, timeout) && timeout <= lag
    ensures ClockInv(Move1(c, TickDate, timeout, lag), timeout)
  {
    var c' := Move1(c, TickDate, timeout, lag);
    var i := OldEnough(c.revs, c.now, lag);
    assert i >= 0 ==> c.revs[i] in c.revs;
    forall op | op in c'.s.pending ensures InTime(c', timeout, op) {
      assert InTime(c, timeout, op);
      TargetIsOld(c, timeout, lag, op);
    }
  }

  lemma PassKeeps(c: Clocked, seconds: nat, timeout: nat, lag: nat)
    requires ClockInv(c, timeout)
    ensures ClockInv(Move1(c, Pass(seconds), timeout, lag), timeout)
  {
    var c' := Move1(c, Pass(seconds), timeout, lag);
    FewerPending(c.s, c'.s.pending);
    forall op | op in c'.s.pending ensures InTime(c', timeout, op) {
      assert InTime(c, timeout, op);
    }
  }

  lemma FewerPending(s: State, pending: map<nat, Pending>)
    requires Inv(s) && forall op :: op in pending ==> op in s.pending && s.pending[op] == pending[op]
    ensures Inv(s.(pending := pending))
  {
    forall op | op in pending ensures PendingOk(s.t, s.full, s.floor, s.head, pending[op]) {
      assert PendingOk(s.t, s.full, s.floor, s.head, s.pending[op]);
    }
  }

  lemma MoveKeeps(c: Clocked, m: Move, timeout: nat, lag: nat)
    requires ClockInv(c, timeout) && CanMove(c, m, timeout) && timeout <= lag
    ensures ClockInv(Move1(c, m, timeout, lag), timeout)
  {
    match m
    case Writer(a) => WriterKeeps(c, a, timeout, lag);
    case TickRead(rev) =>
      forall op | op in c.s.pending ensures InTime(Move1(c, m, timeout, lag), timeout, op) {
        assert InTime(c, timeout, op);
      }
    case TickDate => TickKeeps(c, timeout, lag);
    case Batch(to) => BatchKeeps(c, to, timeout, lag);
    case Pass(seconds) => PassKeeps(c, seconds, timeout, lag);
  }

  lemma {:induction false} MovesKeep(c: Clocked, ms: seq<Move>, timeout: nat, lag: nat)
    requires ClockInv(c, timeout) && CanMoves(c, ms, timeout, lag) && timeout <= lag
    ensures ClockInv(Moves(c, ms, timeout, lag), timeout)
    decreases |ms|
  {
    if ms != [] {
      MoveKeeps(c, ms[0], timeout, lag);
      MovesKeep(Move1(c, ms[0], timeout, lag), ms[1..], timeout, lag);
    }
  }

  /**
    Over every run with a timeout of at most the lag, whatever batch comes next, and however late in its
    pass, its target is at most the head every pending operation read under; so relief meets the bound
    the writers need and the history of every key stays one line.
   */
  lemma ReliefMeetsTheBound(c: Clocked, ms: seq<Move>, to: nat, timeout: nat, lag: nat)
    requires ClockInit(c) && CanMoves(c, ms, timeout, lag) && timeout <= lag
    ensures var e := Moves(c, ms, timeout, lag);
            && Linear(e.s.full, e.s.floor)
            && (CanMove(e, Batch(to), timeout) ==> CompactSafe(e.s, to))
            && (forall op :: op in e.s.pending ==> (Succeeds(e.s, op) <==> Untouched(e.s, op)))
  {
    InitInv(c.s);
    MovesKeep(c, ms, timeout, lag);
    var e := Moves(c, ms, timeout, lag);
    if CanMove(e, Batch(to), timeout) { BatchIsSafe(e, to, timeout); }
    forall op | op in e.s.pending ensures Succeeds(e.s, op) <==> Untouched(e.s, op) {
      InsertIffUntouched(e.s, op);
    }
  }

  /** The constants in use. */
  lemma ConstantsMeetTheBound(c: Clocked, ms: seq<Move>, to: nat)
    requires ClockInit(c) && CanMoves(c, ms, WRITE_TIMEOUT, RELIEF_LAG)
    ensures var e := Moves(c, ms, WRITE_TIMEOUT, RELIEF_LAG);
            Linear(e.s.full, e.s.floor) && (CanMove(e, Batch(to), WRITE_TIMEOUT) ==> CompactSafe(e.s, to))
  {
    ReliefMeetsTheBound(c, ms, to, WRITE_TIMEOUT, RELIEF_LAG);
  }

  /**
    The timeout must not exceed the lag: with any longer timeout, two ticks a lag apart hand a pass a
    target above the head a pending operation read under.
   */
  lemma LongTimeoutBreaksTheBound(c: Clocked, op: nat, timeout: nat, lag: nat)
    requires ClockInv(c, timeout) && lag < timeout && c.revs == []
    requires op in c.s.pending && c.readAt[op] == c.now && c.s.pending[op].head < c.s.head
    ensures var ms := [TickRead(c.s.head), TickDate, Pass(lag), TickRead(c.s.head), TickDate];
            var e := Moves(c, ms, timeout, lag);
            && CanMoves(c, ms, timeout, lag)
            && op in e.s.pending && e.s == c.s.(pending := e.s.pending) && e.s.pending.Keys <= c.s.pending.Keys
            && e.s.pending[op] == c.s.pending[op] && e.target == Some(c.s.head) && e.s.pending[op].head < e.target.value
  {
    var c1 := Move1(c, TickRead(c.s.head), timeout, lag);
    var c2 := Move1(c1, TickDate, timeout, lag);
    var c3 := Move1(c2, Pass(lag), timeout, lag);
    var c4 := Move1(c3, TickRead(c.s.head), timeout, lag);
    var c5 := Move1(c4, TickDate, timeout, lag);
    var ms := [TickRead(c.s.head), TickDate, Pass(lag), TickRead(c.s.head), TickDate];
    TwoTicks(c, op, timeout, lag);
    hide Move1, ClockInv;
    assert ms[1..] == [TickDate, Pass(lag), TickRead(c.s.head), TickDate];
    assert ms[1..][1..] == [Pass(lag), TickRead(c.s.head), TickDate];
    assert ms[1..][1..][1..] == [TickRead(c.s.head), TickDate];
    assert ms[1..][1..][1..][1..] == [TickDate];
    calc {
      Moves(c, ms, timeout, lag);
      Moves(c1, ms[1..], timeout, lag);
      Moves(c2, ms[1..][1..], timeout, lag);
      Moves(c3, ms[1..][1..][1..], timeout, lag);
      Moves(c4, ms[1..][1..][1..][1..], timeout, lag);
      Moves(c5, [], timeout, lag);
    }
    assert CanMoves(c4, ms[1..][1..][1..][1..], timeout, lag);
    assert CanMoves(c3, ms[1..][1..][1..], timeout, lag);
    assert CanMoves(c2, ms[1..][1..], timeout, lag);
    assert CanMoves(c1, ms[1..], timeout, lag);
  }

  lemma TwoTicks(c: Clocked, op: nat, timeout: nat, lag: nat)
    requires ClockInv(c, timeout) && lag < timeout && c.revs == []
    requires op in c.s.pending && c.readAt[op] == c.now && c.s.pending[op].head < c.s.head
    ensures var c1 := Move1(c, TickRead(c.s.head), timeout, lag);
            var c2 := Move1(c1, TickDate, timeout, lag);
            var c3 := Move1(c2, Pass(lag), timeout, lag);
            var c4 := Move1(c3, TickRead(c.s.head), timeout, lag);
            var e := Move1(c4, TickDate, timeout, lag);
            && c.s == c1.s == c2.s && c3.s == c4.s == e.s && c.s.head == c3.s.head
            && op in e.s.pending && e.s == c.s.(pending := e.s.pending) && e.s.pending.Keys <= c.s.pending.Keys
            && e.s.pending[op] == c.s.pending[op] && e.target == Some(c.s.head) && e.s.pending[op].head < e.target.value
  {
    var c3 := Move1(Move1(Move1(c, TickRead(c.s.head), timeout, lag), TickDate, timeout, lag), Pass(lag), timeout, lag);
    assert c3.revs == [TickRev(c.now, c.s.head)];
  }
}

/**
  The loops of the SQL log: one pass of the periodic compactor, one relief pass of the quota, and the
  poller's loop over one batch. Each transaction is atomic; fates say which ones the database fails.
 */
module SqlLog {
  import opened Options
  import opened KineTable
  import opened Compaction
  import opened SqlReads
  import opened LogHistory
  import Poller

  const MIN_COMPACT_BATCH: nat := 100

  datatype Result = Ok | ErrCompacted | ErrOther

  /** Where a transaction of the compactor fails: before it knows both revisions, or in the statements that compact. */
  datatype Failure = Never | Early | Late

  /**
    What becomes of a relief transaction. NotBegun: it read nothing. HeadOnly: it read MAX(id) and not the
    compact revision. RolledBack: a statement that compacts failed. A commit that reports an error may
    have taken effect.
   */
  datatype Fate = Commits | NotBegun | HeadOnly | RolledBack | CommitUnknown(applied: bool)

  datatype Error = NoError | Failed | Unknown

  datatype Relief = Relief(rows: int, compactedTo: nat, head: nat, stale: bool, refreshed: bool)

  /** The pass that began at was compacted no further than goal; what is beyond is the others' work. */
  predicate Within(was: Db, d: Db, goal: nat) {
    CompactRev(d.t) <= CompactRev(was.t) || CompactRev(d.t) <= d.foreign || CompactRev(d.t) <= goal
  }

  // ------------------------------------------------------------ the compactor's pass

  /** Where the compactor's loop stands, nobody else having compacted: all up to iter that may go is gone. */
  predicate AloneInv(was: Db, d: Db, compactRev: nat, target: nat, minRetain: nat, iter: nat, compactedRev: nat, currentRev: nat) {
    var cap := Poller.SafeCompactRev(target, MaxId(was.t), minRetain);
    if compactRev == CompactRev(was.t)
    then compactedRev == CompactRev(d.t) <= iter && (iter <= compactedRev || cap <= compactedRev)
         && (MaxId(was.t) <= MaxId(d.t) || cap <= compactedRev)
    else currentRev == 0 && CompactRev(d.t) == CompactRev(was.t)
  }

  predicate IterInv(was: Db, d: Db, compactRev: nat, target: nat, minRetain: nat, iter: nat, compactedRev: nat, currentRev: nat) {
    && Evolves(was, d) && Within(was, d, Poller.SafeCompactRev(target, MaxId(d.full), minRetain))
    && currentRev <= MaxId(d.full)
    && (if currentRev == 0 then compactedRev == compactRev else compactedRev <= CompactRev(d.t))
    && (was.foreign == d.foreign ==> AloneInv(was, d, compactRev, target, minRetain, iter, compactedRev, currentRev))
  }

  lemma IterStart(d: Db, compactRev: nat, target: nat, minRetain: nat)
    requires Holds(d)
    ensures IterInv(d, d, compactRev, target, minRetain, compactRev, compactRev, 0)
  {
    EvolvesItself(d);
  }

  lemma IterOthers(was: Db, d: Db, d': Db, compactRev: nat, target: nat, minRetain: nat, iter: nat, compactedRev: nat, currentRev: nat)
    requires IterInv(was, d, compactRev, target, minRetain, iter, compactedRev, currentRev) && OthersRan(d, d')
    ensures IterInv(was, d', compactRev, target, minRetain, iter, compactedRev, currentRev) && Holds(d')
  {
    hide Holds, Extends;
    OthersKeep(d, d');
    EvolvesTwice(was, d, d');
    hide Evolves, OthersRan;
  }

  lemma IterCommits(was: Db, d: Db, compactRev: nat, target: nat, minRetain: nat, iter: nat, next: nat, compactedRev: nat, currentRev: nat)
    requires IterInv(was, d, compactRev, target, minRetain, iter, compactedRev, currentRev)
    requires iter < next <= target && compactedRev == CompactRev(d.t)
    requires compactedRev < Poller.SafeCompactRev(next, MaxId(d.t), minRetain)
    ensures var to := Poller.SafeCompactRev(next, MaxId(d.t), minRetain);
            && IterInv(was, d.(t := CompactTo(d.t, to)), compactRev, target, minRetain, next, to, MaxId(d.t))
            && Holds(d.(t := CompactTo(d.t, to))) && 0 < MaxId(d.t)
  {
    var to := Poller.SafeCompactRev(next, MaxId(d.t), minRetain);
    TableMaxId(d);
    CompactEvolves(d, to);
    EvolvesTwice(was, d, d.(t := CompactTo(d.t, to)));
    if to < MaxId(d.t) { KeepsHead(d.t, to); }
  }

  /** What a finished pass of the compactor leaves and returns. clean: nothing failed. */
  predicate IterDone(was: Db, d: Db, compactRev: nat, target: nat, minRetain: nat, clean: bool, nextCompact: nat, nextTarget: nat) {
    && Evolves(was, d) && Within(was, d, Poller.SafeCompactRev(target, MaxId(d.full), minRetain))
    && (was.foreign == d.foreign && compactRev != CompactRev(was.t) ==> CompactRev(d.t) == CompactRev(was.t))
    && (was.foreign == d.foreign && compactRev == CompactRev(was.t) && clean ==>
          && Poller.SafeCompactRev(target, MaxId(was.t), minRetain) <= CompactRev(d.t)
          && (target + minRetain <= MaxId(was.t) ==> CompactRev(d.t) == if compactRev < target then target else compactRev))
    && ((nextCompact, nextTarget) == (compactRev, target)
        || (nextCompact <= CompactRev(d.t) && 0 < nextTarget <= MaxId(d.full)
            && (was.foreign == d.foreign ==> nextCompact == CompactRev(d.t))))
  }

  /** The loop has reached its target. */
  lemma IterEnds(was: Db, d: Db, compactRev: nat, target: nat, minRetain: nat, iter: nat, compactedRev: nat, currentRev: nat, clean: bool)
    requires IterInv(was, d, compactRev, target, minRetain, iter, compactedRev, currentRev) && target <= iter
    ensures IterDone(was, d, compactRev, target, minRetain, clean, if currentRev > 0 then compactedRev else compactRev,
                     if currentRev > 0 then currentRev else target)
  {
    EvolvesItself(was);
    hide Holds, Extends;
  }

  /** A transaction that compacts nothing ends the loop. */
  lemma IterBreaks(was: Db, d: Db, compactRev: nat, target: nat, minRetain: nat, iter: nat, next: nat,
                   compactedRev: nat, currentRev: nat, clean: bool, failed: bool)
    requires IterInv(was, d, compactRev, target, minRetain, iter, compactedRev, currentRev)
    requires iter < next <= target && (failed ==> !clean)
    requires !failed ==> compactedRev != CompactRev(d.t) || Poller.SafeCompactRev(next, MaxId(d.t), minRetain) <= compactedRev
    ensures var rev, head := if failed || MaxId(d.t) == 0 || CompactRev(d.t) == 0 then compactedRev else CompactRev(d.t),
                             if failed || MaxId(d.t) == 0 || CompactRev(d.t) == 0 then currentRev else MaxId(d.t);
            IterDone(was, d, compactRev, target, minRetain, clean, if head > 0 then rev else compactRev, if head > 0 then head else target)
  {
    EvolvesItself(was);
    TableMaxId(d);
    hide Holds, Extends;
  }

  lemma KeepsHead(t: Table, to: nat)
    requires Chain(t) && to < MaxId(t)
    ensures MaxId(CompactTo(t, to)) == MaxId(t)
  {
    assert MaxId(t) in t;
    HeadKept(t, to);
  }

  // ---------------------------------------------------------------- the relief's pass

  /** How far a relief pass may go: at most its goal, and below the head. */
  function Under(goal: nat, head: nat): (r: nat)
    ensures r <= goal && (r == 0 || r < head)
    ensures r == goal || r + 1 == head || head == 0
  {
    if goal < head then goal else if head == 0 then 0 else head - 1
  }

  /** What one relief transaction may do and report. */
  predicate BatchOutcome(t: Table, t': Table, target: nat, batchSize: int, fate: Fate,
                         done: bool, rows: int, to: nat, head: nat, err: Error)
  {
    var goal := Poller.BatchTarget(t, target, batchSize);
    && head == (if fate == NotBegun then 0 else MaxId(t))
    && if fate == NotBegun || fate == HeadOnly then t' == t && done && rows == 0 && to == 0 && err == Failed
       else if goal.None? then t' == t && done && rows == 0 && to == CompactRev(t) && err == NoError
       else match fate
            case Commits =>
              t' == CompactTo(t, goal.value) && to == goal.value && err == NoError
              && rows == |t.Keys - t'.Keys| && done == (target <= to || head <= to + 1)
            case RolledBack => t' == t && done && rows == 0 && to == 0 && err == Failed
            case CommitUnknown(applied) =>
              t' == (if applied then CompactTo(t, goal.value) else t) && done && rows == 0 && to == 0 && err == Unknown
  }

  /** gone are the rows the pass took out: others only add rows, unless they compact too. */
  predicate TookOut(was: Db, d: Db, gone: set<nat>) {
    && gone <= d.full.Keys && gone !! d.t.Keys
    && (was.foreign == d.foreign ==> was.t.Keys - gone <= d.t.Keys && MaxId(was.t) <= MaxId(d.t))
  }

  /** What a finished pass reports: it went as far as it might, from the head it read last. */
  predicate Reports(was: Db, d: Db, goal: nat, res: Relief) {
    && Under(goal, res.head) <= res.compactedTo
    && (was.foreign == d.foreign ==> MaxId(was.t) <= res.head && res.compactedTo == CompactRev(d.t))
  }

  /** Where the relief's loop stands. */
  predicate PassInv(was: Db, d: Db, goal: nat, gone: set<nat>, done: bool, res: Relief, err: Error) {
    && Evolves(was, d) && Within(was, d, Under(goal, MaxId(d.full)))
    && TookOut(was, d, gone)
    && 0 <= res.rows && (err != Unknown ==> res.rows == |gone|)
    && res.compactedTo <= CompactRev(d.t) && res.head <= MaxId(d.full) && !res.stale && !res.refreshed
    && (!done ==> err == NoError)
    && (done && err == NoError ==> Reports(was, d, goal, res))
  }

  function Added(res: Relief, rows: int, to: nat, head: nat): Relief {
    Relief(res.rows + rows, if to > 0 then to else res.compactedTo, if head > 0 then head else res.head, res.stale, res.refreshed)
  }

  lemma PassOthers(was: Db, d: Db, d': Db, goal: nat, gone: set<nat>, res: Relief)
    requires PassInv(was, d, goal, gone, false, res, NoError) && OthersRan(d, d')
    ensures PassInv(was, d', goal, gone, false, res, NoError)
  {
    hide Holds, Extends;
    OthersKeep(d, d');
    TookOutOthers(was, d, d', gone);
    EvolvesTwice(was, d, d');
    hide Evolves, OthersRan, TookOut, Reports;
  }

  lemma TookOutOthers(was: Db, d: Db, d': Db, gone: set<nat>)
    requires Evolves(was, d) && TookOut(was, d, gone) && OthersRan(d, d')
    ensures TookOut(was, d', gone)
  {
    hide Holds, Extends;
    OthersKeep(d, d');
    forall i | i in gone ensures i in d'.full && i !in d'.t { GoneStaysGone(d, d', i); }
  }

  /** A batch that takes effect. */
  lemma PassCompacts(was: Db, d: Db, goal: nat, batchSize: int, to: nat, gone: set<nat>, res: Relief)
    requires PassInv(was, d, goal, gone, false, res, NoError)
    requires Poller.BatchTarget(d.t, goal, batchSize) == Some(to)
    ensures var d' := d.(t := CompactTo(d.t, to));
            var gone' := gone + (d.t.Keys - d'.t.Keys);
            && Evolves(was, d') && Within(was, d', Under(goal, MaxId(d'.full))) && TookOut(was, d', gone')
            && |gone'| == |gone| + |d.t.Keys - d'.t.Keys| && CompactRev(d'.t) == to
            && MaxId(d.t) <= MaxId(d.full)
  {
    TableMaxId(d);
    CompactEvolves(d, to);
    EvolvesTwice(was, d, d.(t := CompactTo(d.t, to)));
    KeepsHead(d.t, to);
    assert d.t.Keys <= d.full.Keys;
  }

  lemma PassStart(d: Db, goal: nat)
    requires Holds(d)
    ensures PassInv(d, d, goal, {}, false, Relief(0, 0, 0, false, false), NoError)
  {
    EvolvesItself(d);
  }

  lemma PassCommits(was: Db, d: Db, goal: nat, batchSize: int, to: nat, done: bool, gone: set<nat>, res: Relief)
    requires PassInv(was, d, goal, gone, false, res, NoError)
    requires Poller.BatchTarget(d.t, goal, batchSize) == Some(to) && (done <==> goal <= to || MaxId(d.t) <= to + 1)
    ensures var t' := CompactTo(d.t, to);
            var rows := |d.t.Keys - t'.Keys|;
            PassInv(was, d.(t := t'), goal, gone + (d.t.Keys - t'.Keys), done, Added(res, rows, to, MaxId(d.t)), NoError)
            && CompactRev(t') == to
  {
    hide Extends, Holds, CompactTo;
    PassCompacts(was, d, goal, batchSize, to, gone, res);
    assert was.foreign == d.foreign ==> MaxId(was.t) <= MaxId(d.t);
    hide Evolves, TookOut;
  }

  lemma PassUnknown(was: Db, d: Db, goal: nat, batchSize: int, to: nat, gone: set<nat>, res: Relief)
    requires PassInv(was, d, goal, gone, false, res, NoError)
    requires Poller.BatchTarget(d.t, goal, batchSize) == Some(to)
    ensures var t' := CompactTo(d.t, to);
            PassInv(was, d.(t := t'), goal, gone + (d.t.Keys - t'.Keys), true, Added(res, 0, 0, MaxId(d.t)), Unknown)
  {
    hide Extends, Holds, CompactTo;
    PassCompacts(was, d, goal, batchSize, to, gone, res);
    hide Evolves, TookOut;
  }

  /** A batch that leaves the table alone ends the pass. */
  lemma PassStops(was: Db, d: Db, goal: nat, batchSize: int, to: nat, head: nat, err: Error, gone: set<nat>, res: Relief)
    requires PassInv(was, d, goal, gone, false, res, NoError)
    requires to == 0 || to == CompactRev(d.t)
    requires head == 0 || head == MaxId(d.t)
    requires err == NoError ==> to == CompactRev(d.t) && head == MaxId(d.t) && Poller.BatchTarget(d.t, goal, batchSize).None?
    ensures PassInv(was, d, goal, gone, true, Added(res, 0, to, head), err)
  {
    hide Extends, Holds;
    TableMaxId(d);
    HasHead(d);
    hide Evolves;
  }

  lemma PassStep(was: Db, d: Db, t': Table, goal: nat, batchSize: int, fate: Fate,
                 done: bool, rows: int, to: nat, head: nat, err: Error, gone: set<nat>, res: Relief)
    requires PassInv(was, d, goal, gone, false, res, NoError)
    requires BatchOutcome(d.t, t', goal, batchSize, fate, done, rows, to, head, err)
    ensures PassInv(was, d.(t := t'), goal, gone + (d.t.Keys - t'.Keys), done, Added(res, rows, to, head), err)
    ensures !done ==> CompactRev(d.t) < CompactRev(t') <= goal
    ensures fate == Commits ==> err == NoError
  {
    hide PassInv, CompactTo, Added;
    var batch := Poller.BatchTarget(d.t, goal, batchSize);
    if batch.Some? && fate == Commits {
      PassCommits(was, d, goal, batchSize, batch.value, done, gone, res);
    } else if batch.Some? && fate == CommitUnknown(true) {
      PassUnknown(was, d, goal, batchSize, batch.value, gone, res);
    } else {
      assert d.(t := t') == d && gone + (d.t.Keys - t'.Keys) == gone;
      PassStops(was, d, goal, batchSize, to, head, err, gone, res);
    }
  }

  /** Alone, a pass without an error whose goal was below the head ends at its goal. */
  lemma PassAlone(was: Db, d: Db, goal: nat, gone: set<nat>, res: Relief)
    requires Holds(was) && PassInv(was, d, goal, gone, true, res, NoError)
    requires was.foreign == d.foreign && goal < MaxId(was.t)
    ensures CompactRev(d.t) == if CompactRev(was.t) < goal then goal else CompactRev(was.t)
  {
  }

  lemma HasHead(d: Db)
    requires Holds(d)
    ensures 0 < MaxId(d.t)
  {
  }

  class Log {
    var t: Table
    var polledRev: nat
    ghost var full: Table
    ghost var foreign: nat
    const minRetain: nat
    const batchSize: int
    /** The dialect keeps statistics that the quota must refresh after rows were deleted. */
    const keepsStats: bool

    constructor (t: Table, ghost full: Table, ghost foreign: nat, minRetain: nat, batchSize: int, keepsStats: bool)
      ensures Now() == Db(t, full, foreign) && polledRev == 0
      ensures this.minRetain == minRetain && this.batchSize == batchSize && this.keepsStats == keepsStats
    {
      this.t, this.polledRev, this.full, this.foreign := t, 0, full, foreign;
      this.minRetain, this.batchSize, this.keepsStats := minRetain, batchSize, keepsStats;
    }

    ghost function Now(): Db
      reads this
    {
      Db(t, full, foreign)
    }

    /** What the other clients do between two transactions; the poller goes on too. */
    method Interfere()
      requires Holds(Now())
      modifies this`t, this`full, this`foreign, this`polledRev
      ensures OthersRan(old(Now()), Now()) && old(polledRev) <= polledRev
    {
    }

    /** One transaction of the periodic compactor. A failed one is rolled back. */
    method Compact(compactRev: nat, target: nat, failure: Failure) returns (compacted: nat, current: nat, result: Result)
      modifies this`t
      ensures result == Ok ==>
                && failure == Never && compactRev == CompactRev(old(t)) && compactRev < compacted
                && compacted == Poller.SafeCompactRev(target, MaxId(old(t)), minRetain)
                && t == CompactTo(old(t), compacted) && current == MaxId(old(t))
      ensures result == ErrCompacted ==>
                && failure != Early && t == old(t) && compacted == CompactRev(t) && current == MaxId(t)
                && (compactRev != CompactRev(t) || Poller.SafeCompactRev(target, MaxId(t), minRetain) <= compactRev)
      ensures result == ErrOther ==> failure != Never && t == old(t) && compacted == current == 0
    {
      if failure == Early {
        return 0, 0, ErrOther;
      }
      current := MaxId(t);
      compacted := CompactRev(t);
      if compactRev != compacted {
        return compacted, current, ErrCompacted;
      }
      var to := Poller.SafeCompactRev(target, current, minRetain);
      if to <= compactRev {
        return compacted, current, ErrCompacted;
      }
      if failure == Late {
        return 0, 0, ErrOther;
      }
      t := CompactTo(t, to);
      return to, current, Ok;
    }

    /**
      One pass of the compactor, in batches, with other clients between any two. Whatever fails and
      whoever runs, the table stays everything written, compacted to one revision, and this pass takes
      it no further than the target, lowered to keep the newest minRetain revisions. It compacts nothing
      when the caller's compact revision is not the table's. When nobody else compacts and nothing
      fails it goes as far as the head it began with allows.
     */
    method CompactIter(compactRev: nat, target: nat, failures: nat -> Failure) returns (nextCompact: nat, nextTarget: nat)
      requires Holds(Now()) && MIN_COMPACT_BATCH <= batchSize
      modifies this`t, this`full, this`foreign, this`polledRev
      ensures IterDone(old(Now()), Now(), compactRev, target, minRetain, forall k :: failures(k) == Never, nextCompact, nextTarget)
    {
      hide CompactTo, IterInv, IterDone, Holds, OthersRan;
      ghost var was, clean := Now(), forall k :: failures(k) == Never;
      var iter: nat, compactedRev: nat, currentRev: nat, count: nat := compactRev, compactRev, 0, 0;
      IterStart(was, compactRev, target, minRetain);
      while iter < target
        invariant Holds(Now()) && IterInv(was, Now(), compactRev, target, minRetain, iter, compactedRev, currentRev)
      {
        ghost var at := Now();
        Interfere();
        IterOthers(was, at, Now(), compactRev, target, minRetain, iter, compactedRev, currentRev);
        at := Now();
        var next := if iter + batchSize > target then target else iter + batchSize;
        var compacted, current, result := Compact(compactedRev, next, failures(count));
        if result == Ok {
          IterCommits(was, at, compactRev, target, minRetain, iter, next, compactedRev, currentRev);
        } else {
          IterBreaks(was, at, compactRev, target, minRetain, iter, next, compactedRev, currentRev, clean, result == ErrOther);
        }
        if compacted != 0 && current != 0 {
          compactedRev, currentRev := compacted, current;
        }
        if result != Ok {
          break;
        }
        iter := next;
        count := count + 1;
      }
      if target <= iter {
        IterEnds(was, Now(), compactRev, target, minRetain, iter, compactedRev, currentRev, clean);
      }
      nextCompact, nextTarget := if currentRev > 0 then compactedRev else compactRev, if currentRev > 0 then currentRev else target;
    }

    /** One relief transaction toward the target. */
    method ReliefBatch(target: nat, fate: Fate)
      returns (done: bool, rows: int, to: nat, head: nat, err: Error)
      modifies this`t
      ensures BatchOutcome(old(t), t, target, batchSize, fate, done, rows, to, head, err)
    {
      if fate == NotBegun {
        return true, 0, 0, 0, Failed;
      }
      head := MaxId(t);
      if fate == HeadOnly {
        return true, 0, 0, head, Failed;
      }
      var goal := Poller.BatchTarget(t, target, batchSize);
      if goal == None {
        return true, 0, CompactRev(t), head, NoError;
      }
      var batch := goal.value;
      if fate == RolledBack {
        return true, 0, 0, head, Failed;
      }
      var t' := CompactTo(t, batch);
      if fate.CommitUnknown? {
        if fate.applied { t := t'; }
        return true, 0, 0, head, Unknown;
      }
      rows := |t.Keys - t'.Keys|;
      t := t';
      return target <= batch || head <= batch + 1, rows, batch, head, NoError;
    }

    /** The batches of one pass, other clients between any two, until one has nothing left to do or fails. */
    method ReliefLoop(target: nat, fates: nat -> Fate) returns (res: Relief, err: Error, ghost gone: set<nat>)
      requires Holds(Now())
      modifies this`t, this`full, this`foreign, this`polledRev
      ensures PassInv(old(Now()), Now(), if target < old(polledRev) then target else old(polledRev), gone, true, res, err)
      ensures (forall k :: fates(k) == Commits) ==> err == NoError
    {
      hide Holds, Extends, CompactTo;
      res, err, gone := Relief(0, 0, 0, false, false), NoError, {};
      var goal := if target < polledRev then target else polledRev;
      var done, k := false, 0;
      ghost var was := Now();
      PassStart(was, goal);
      while !done
        invariant PassInv(was, Now(), goal, gone, done, res, err)
        invariant (forall j :: fates(j) == Commits) ==> err == NoError
        decreases !done, goal as int - CompactRev(t)
      {
        ghost var at := Now();
        Interfere();
        PassOthers(was, at, Now(), goal, gone, res);
        at := Now();
        var rows, to, head;
        done, rows, to, head, err := ReliefBatch(goal, fates(k));
        PassStep(was, at, t, goal, batchSize, fates(k), done, rows, to, head, err, gone, res);
        gone := gone + (at.t.Keys - t.Keys);
        res := Added(res, rows, to, head);
        k := k + 1;
      }
    }

    /**
      One relief pass. With refresh, or without a poller, it compacts nothing. Otherwise, with other
      clients between its batches, the table stays everything written, compacted to one revision; this
      pass takes it at most to the target, to what the poller had sent when the pass began, and below
      the head, so MAX(id) stays unless others compact. A pass without an error went exactly that far
      by the head it read last. gone are the rows it took out: it counts them, unless a commit's
      effect is unknown, and takes none out without saying that the statistics are stale.
     */
    method RelieveQuota(target: nat, refresh: bool, refreshFails: bool, fates: nat -> Fate, postFails: bool)
      returns (res: Relief, err: Error, ghost gone: set<nat>)
      requires Holds(Now())
      modifies this`t, this`full, this`foreign, this`polledRev
      ensures Evolves(old(Now()), Now()) && TookOut(old(Now()), Now(), gone)
      ensures refresh || old(polledRev) == 0 ==> Now() == old(Now()) && res.rows == 0 && !res.stale && gone == {}
      ensures res.refreshed <==> refresh && !(keepsStats && refreshFails)
      ensures !refresh && old(polledRev) != 0 ==>
                var goal := if target < old(polledRev) then target else old(polledRev);
                && Within(old(Now()), Now(), Under(goal, MaxId(full)))
                && res.compactedTo <= CompactRev(t) && res.head <= MaxId(full)
                && (err == NoError ==> Reports(old(Now()), Now(), goal, res))
                && (err == NoError && foreign == old(foreign) && goal < MaxId(old(t)) ==>
                      CompactRev(t) == if CompactRev(old(t)) < goal then goal else CompactRev(old(t)))
      ensures err != Unknown ==> res.rows == |gone|
      ensures keepsStats && !res.stale ==> gone == {}
      ensures res.stale ==> keepsStats
      ensures (forall k :: fates(k) == Commits) && !postFails && !refreshFails ==> err == NoError
    {
      hide Holds, Extends;
      res, err, gone := Relief(0, 0, 0, false, false), NoError, {};
      EvolvesItself(Now());
      if refresh {
        if keepsStats && refreshFails {
          return res, Failed, {};
        }
        res := res.(refreshed := true);
        return;
      }
      if polledRev == 0 {
        return;
      }
      ghost var was, goal := Now(), if target < polledRev then target else polledRev;
      res, err, gone := ReliefLoop(target, fates);
      if err == NoError && foreign == was.foreign && goal < MaxId(was.t) {
        PassAlone(was, Now(), goal, gone, res);
      }
      res := res.(stale := keepsStats && (res.rows > 0 || err == Unknown));
      if res.rows > 0 && postFails && err == NoError {
        err := Failed;
      }
    }

    /**
      The poller's loop over the events of one batch. sequential has a slot per event; the slots of fill
      rows and of what was not reached stay empty. What it did is the Decide of the protocol.
     */
    method PollBatch(events: seq<Versioned>, pollRev: nat, skip: nat, late: bool)
      returns (rev: nat, sequential: seq<Option<Versioned>>, saveLast: bool, skip': nat, fill: bool)
      requires forall a, b :: 0 <= a < b < |events| ==> events[a].id < events[b].id
      requires forall a :: 0 <= a < |events| ==> pollRev < events[a].id
      ensures var v := Poller.Decide(events, pollRev, skip, late);
              && rev == v.rev && skip' == v.skip && fill == v.fill
              && Present(sequential) == v.out && |sequential| == |events|
              && (saveLast <==> rev != pollRev)
    {
      rev, saveLast, skip', fill := pollRev, false, skip, false;
      sequential := [];
      var i := 0;
      ghost var v := Poller.Decide(events, pollRev, skip, late);
      assert events[0..] == events;
      while i < |events|
        invariant 0 <= i <= |events| && |sequential| == i
        invariant skip' == skip && !fill && pollRev <= rev && (saveLast <==> rev != pollRev)
        invariant forall a :: i <= a < |events| ==> rev < events[a].id
        invariant Remaining(v, Poller.Decide(events[i..], rev, skip, late), Present(sequential))
      {
        var event, next := events[i], rev + 1;
        DecideAt(events, i, rev, skip, late);
        if event.id != next {
          if next == skip && late {
            // the fallback: go on past the gap
          } else if skip != next {
            skip' := next;
            break;
          } else {
            fill := true;
            break;
          }
        }
        saveLast := true;
        rev := event.id;
        var slot := if IsFill(event.row.name) then None else Some(event);
        PresentAppend(sequential, slot);
        RemainingNext(v, Poller.Decide(events[i + 1..], rev, skip, late), Present(sequential),
                      if slot.Some? then [event] else [], event.id != next);
        sequential := sequential + [slot];
        i := i + 1;
      }
      PresentPadded(sequential, |events| - |sequential|);
      sequential := sequential + seq(|events| - |sequential|, _ => None);
    }

    /**
      compactStart: one row holds the compact revision, created when there is none. Several rows are
      meant to be cut down to the one with the highest revision; but a scanned row that was created
      carries no previous revision, so such a row never counts, and a row survives exactly when one of
      them was not created and holds a revision.
     */
    method CompactStart()
      requires NoZero(t)
      modifies this`t
      ensures CompactRows(old(t)) == {} ==>
                t == old(t)[MaxId(old(t)) + 1 := Row(COMPACT_REV_KEY, true, false, 0, 0, 0, "", "")]
      ensures (exists i :: CompactRows(old(t)) == {i}) ==> t == old(t)
      ensures (exists i, j :: i in CompactRows(old(t)) && j in CompactRows(old(t)) && i != j) ==>
                && (exists m :: Best(old(t), CompactRows(old(t)), m) && t == old(t) - (CompactRows(old(t)) - {m}))
                && (HasCompactRow(t) <==> exists i :: i in CompactRows(old(t)) && !old(t)[i].created && old(t)[i].prevRev > 0)
    {
      var events := After(t, COMPACT_REV_KEY, "", 0, 0);
      StartEvents(t);
      if |events| == 0 {
        t := t[MaxId(t) + 1 := Row(COMPACT_REV_KEY, true, false, 0, 0, 0, "", "")];
        return;
      } else if |events| == 1 {
        assert Ids(events, 1) == {events[0].id};
        return;
      }
      var maxId := FindBest(t, events);
      assert events[0].id in Ids(events, |events|) && events[1].id in Ids(events, |events|);
      ghost var was := t;
      DeleteOthers(events, maxId);
      BestSurvives(was, t, maxId);
    }

    method DeleteOthers(events: seq<Versioned>, maxId: nat)
      modifies this`t
      ensures t == old(t) - (Ids(events, |events|) - {maxId})
    {
      var i := 0;
      while i < |events|
        invariant 0 <= i <= |events|
        invariant t == old(t) - (Ids(events, i) - {maxId})
      {
        assert Ids(events, i + 1) == Ids(events, i) + {events[i].id};
        if events[i].id != maxId {
          t := t - {events[i].id};
        }
        i := i + 1;
      }
    }
  }

  method FindBest(t: Table, events: seq<Versioned>) returns (maxId: nat)
    requires NoZero(t) && forall k :: 0 <= k < |events| ==> events[k].id in t && t[events[k].id] == events[k].row
    ensures Best(t, Ids(events, |events|), maxId)
  {
    var maxRev, i := 0, 0;
    maxId := 0;
    while i < |events|
      invariant 0 <= i <= |events|
      invariant Best(t, Ids(events, i), maxId) && maxRev == if maxId == 0 then 0 else t[maxId].prevRev
    {
      var e := events[i];
      assert Ids(events, i + 1) == Ids(events, i) + {e.id};
      if !e.row.created && e.row.prevRev > maxRev {
        maxRev, maxId := e.row.prevRev, e.id;
      }
      i := i + 1;
    }
  }

  /** The whole verdict is what is out so far and the verdict on the rest. */
  predicate Remaining(v: Poller.Verdict, rest: Poller.Verdict, out: seq<Versioned>) {
    v.rev == rest.rev && v.skip == rest.skip && v.fill == rest.fill && v.out == out + rest.out
  }

  lemma RemainingNext(v: Poller.Verdict, rest: Poller.Verdict, out: seq<Versioned>, slot: seq<Versioned>, gap: bool)
    requires Remaining(v, rest.(out := slot + rest.out, skipped := gap || rest.skipped), out)
    ensures Remaining(v, rest, out + slot)
  {
    assert out + (slot + rest.out) == (out + slot) + rest.out;
  }

  /** The recursion of Decide, one event of the loop at a time. */
  lemma DecideAt(events: seq<Versioned>, i: nat, rev: nat, skip: nat, late: bool)
    requires i < |events|
    ensures var e, next := events[i], rev + 1;
            Poller.Decide(events[i..], rev, skip, late) ==
            if e.id != next && !(next == skip && late) then Poller.Verdict(rev, [], next, skip == next, false)
            else
              var rest := Poller.Decide(events[i + 1..], e.id, skip, late);
              rest.(out := (if IsFill(e.row.name) then [] else [e]) + rest.out, skipped := e.id != next || rest.skipped)
  {
    assert events[i..][1..] == events[i + 1..];
  }

  function Present(s: seq<Option<Versioned>>): seq<Versioned> {
    if s == [] then []
    else Present(s[..|s| - 1]) + (if s[|s| - 1].Some? then [s[|s| - 1].value] else [])
  }

  lemma PresentAppend(s: seq<Option<Versioned>>, e: Option<Versioned>)
    ensures Present(s + [e]) == Present(s) + (if e.Some? then [e.value] else [])
  {
    assert (s + [e])[..|s|] == s;
  }

  lemma {:induction false} PresentPadded(s: seq<Option<Versioned>>, n: nat)
    ensures Present(s + seq(n, _ => None)) == Present(s)
  {
    if n == 0 {
      assert s + seq(n, _ => None) == s;
    } else {
      PresentPadded(s, n - 1);
      PresentAppend(s + seq(n - 1, _ => None), None);
      assert s + seq(n, _ => None) == s + seq(n - 1, _ => None) + [None];
    }
  }

  // ------------------------------------------------------------ starting the log

  function CompactRows(t: Table): set<nat> {
    set i | i in t && t[i].name == COMPACT_REV_KEY
  }

  function Ids(events: seq<Versioned>, n: nat): set<nat>
    requires n <= |events|
  {
    set k | 0 <= k < n :: events[k].id
  }

  /** The row with the highest compact revision among those that were not created; 0 when none has one. */
  predicate Best(t: Table, ids: set<nat>, maxId: nat) {
    && (maxId != 0 ==> maxId in ids && maxId in t && !t[maxId].created && t[maxId].prevRev > 0)
    && (forall i :: i in ids && i in t && !t[i].created ==> t[i].prevRev <= if maxId == 0 then 0 else t[maxId].prevRev)
  }

  lemma BestSurvives(was: Table, t: Table, maxId: nat)
    requires NoZero(was) && Best(was, CompactRows(was), maxId) && t == was - (CompactRows(was) - {maxId})
    ensures HasCompactRow(t) <==> exists i :: i in CompactRows(was) && !was[i].created && was[i].prevRev > 0
  {
    if HasCompactRow(t) {
      var i :| i in t && t[i].name == COMPACT_REV_KEY;
      assert i in CompactRows(was);
    }
    if maxId != 0 { assert maxId in t; }
  }

  /** The start query returns exactly the rows of the compact-revision key. */
  lemma StartEvents(t: Table)
    requires NoZero(t)
    ensures var events := After(t, COMPACT_REV_KEY, "", 0, 0); Ids(events, |events|) == CompactRows(t)
  {
    assert COMPACT_REV_KEY != "";
    assert IdsAfter(t, COMPACT_REV_KEY, "", 0) == CompactRows(t);
    var events, ids := After(t, COMPACT_REV_KEY, "", 0, 0), SortedIds(CompactRows(t));
    assert |events| == |ids| && forall k :: 0 <= k < |ids| ==> events[k].id == ids[k];
    forall i | i in CompactRows(t) ensures i in Ids(events, |events|) {
      var k :| 0 <= k < |ids| && ids[k] == i;
      assert events[k].id == i;
    }
  }
}

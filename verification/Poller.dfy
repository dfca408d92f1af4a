/**
  The polling loop against writers that reserve ids and commit in any order, against the relief and
  against the caches of revisions. Every load, store, compare-and-swap, query and statement is a step
  of its own.

  full is the history of everything ever visible; it exists for the specification only.
 */
module Poller {
  import opened Options
  import opened KineTable

  // --------------------------------------------------------------- what was sent

  function EventAt(full: Table, i: nat): seq<Versioned> {
    if i in full && !IsFill(full[i].name) then [Versioned(i, full[i])] else []
  }

  /** The rows a watcher is owed: those that are no fill rows, with an id above a and up to b, oldest first. */
  function EventsBetween(full: Table, a: nat, b: nat): seq<Versioned>
    decreases b
  {
    if b <= a then [] else EventsBetween(full, a, b - 1) + EventAt(full, b)
  }

  /** Each such row is there, exactly once, in ascending order, and nothing else is. */
  lemma {:induction false} EventsBetweenExact(full: Table, a: nat, b: nat)
    ensures forall v :: v in EventsBetween(full, a, b) <==>
                        a < v.id <= b && v.id in full && full[v.id] == v.row && !IsFill(v.row.name)
    ensures forall i, j :: 0 <= i < j < |EventsBetween(full, a, b)| ==>
              EventsBetween(full, a, b)[i].id < EventsBetween(full, a, b)[j].id
    decreases b
  {
    if a < b {
      EventsBetweenExact(full, a, b - 1);
      var s, e := EventsBetween(full, a, b - 1), EventAt(full, b);
      assert forall v :: v in s + e <==> v in s || v in e;
      assert forall i :: 0 <= i < |s| ==> s[i] in s;
    }
  }

  /** Only what the slots in the range owe matters. */
  lemma {:induction false} SameEvents(full: Table, full': Table, a: nat, b: nat)
    requires forall i :: a < i <= b ==> EventAt(full, i) == EventAt(full', i)
    ensures EventsBetween(full, a, b) == EventsBetween(full', a, b)
    decreases b
  {
    if a < b { SameEvents(full, full', a, b - 1); }
  }

  lemma {:induction false} EventsSplit(full: Table, a: nat, m: nat, b: nat)
    requires a <= m <= b
    ensures EventsBetween(full, a, b) == EventsBetween(full, a, m) + EventsBetween(full, m, b)
    decreases b
  {
    if m < b {
      EventsSplit(full, a, m, b - 1);
      assert EventsBetween(full, a, m) + EventsBetween(full, m, b)
          == (EventsBetween(full, a, m) + EventsBetween(full, m, b - 1)) + EventAt(full, b);
    }
  }

  // ------------------------------------------------------------- one polled batch

  /**
    What the loop over one batch does. It stops at the first gap it meets for the first time (recording
    it in skip), and at one it has met before (asking for a fill row). skipped tells that it jumped a gap
    instead, the fallback for a gap older than a second.
   */
  datatype Verdict = Verdict(rev: nat, out: seq<Versioned>, skip: nat, fill: bool, skipped: bool)

  function Decide(batch: seq<Versioned>, rev: nat, skip: nat, late: bool): Verdict
    decreases |batch|
  {
    if batch == [] then Verdict(rev, [], skip, false, false)
    else
      var e, next := batch[0], rev + 1;
      if e.id != next && !(next == skip && late) then Verdict(rev, [], next, skip == next, false)
      else
        var rest := Decide(batch[1..], e.id, skip, late);
        rest.(out := (if IsFill(e.row.name) then [] else [e]) + rest.out, skipped := e.id != next || rest.skipped)
  }

  /** The events were rows of the table when the batch was read, all of them newer than rev. */
  predicate BatchOf(full: Table, rev: nat, batch: seq<Versioned>) {
    && (forall k :: 0 <= k < |batch| ==> rev < batch[k].id && batch[k].id in full && full[batch[k].id] == batch[k].row)
    && (forall j, k :: 0 <= j < k < |batch| ==> batch[j].id < batch[k].id)
  }

  /** Without the fallback the loop takes consecutive slots, and its output is what those slots owe. */
  lemma {:induction false} DecideExact(full: Table, batch: seq<Versioned>, rev: nat, skip: nat, late: bool)
    requires BatchOf(full, rev, batch) && !Decide(batch, rev, skip, late).skipped
    ensures var v := Decide(batch, rev, skip, late);
            && rev <= v.rev
            && (forall i :: rev < i <= v.rev ==> i in full)
            && v.out == EventsBetween(full, rev, v.rev)
    decreases |batch|
  {
    if batch != [] && batch[0].id == rev + 1 {
      var v := Decide(batch[1..], rev + 1, skip, late);
      DecideHead(batch, rev, skip, late);
      BatchHead(full, rev, batch);
      hide BatchOf, EventsBetween, EventAt, IsFill;
      DecideExact(full, batch[1..], rev + 1, skip, late);
      hide Decide;
      EventsSplit(full, rev, rev + 1, v.rev);
      OneSlot(full, rev);
    } else {
      assert EventsBetween(full, rev, rev) == [];
    }
  }

  lemma DecideHead(batch: seq<Versioned>, rev: nat, skip: nat, late: bool)
    requires batch != [] && batch[0].id == rev + 1
    ensures var v, rest := Decide(batch, rev, skip, late), Decide(batch[1..], rev + 1, skip, late);
            && v.rev == rest.rev && v.skipped == rest.skipped
            && v.out == (if IsFill(batch[0].row.name) then [] else [batch[0]]) + rest.out
  {
  }

  lemma BatchHead(full: Table, rev: nat, batch: seq<Versioned>)
    requires BatchOf(full, rev, batch) && batch != []
    ensures BatchOf(full, batch[0].id, batch[1..])
    ensures batch[0].id in full
    ensures EventAt(full, batch[0].id) == if IsFill(batch[0].row.name) then [] else [batch[0]]
  {
  }

  lemma OneSlot(full: Table, rev: nat)
    ensures EventsBetween(full, rev, rev + 1) == EventAt(full, rev + 1)
  {
    assert EventsBetween(full, rev, rev) == [];
  }

  predicate Rising(rev: nat, batch: seq<Versioned>) {
    && (forall k :: 0 <= k < |batch| ==> rev < batch[k].id)
    && (forall j, k :: 0 <= j < k < |batch| ==> batch[j].id < batch[k].id)
  }

  /** What the loop hands out is in the batch; what it takes of the batch it hands out, fill rows aside. */
  lemma {:induction false} DecideTakes(batch: seq<Versioned>, rev: nat, skip: nat, late: bool)
    requires Rising(rev, batch)
    ensures var v := Decide(batch, rev, skip, late);
            && rev <= v.rev && (if v.rev == rev then v.out == [] else exists k :: 0 <= k < |batch| && batch[k].id == v.rev)
            && (forall e :: e in v.out ==> e in batch && e.id <= v.rev && !IsFill(e.row.name))
            && (forall e :: e in batch && e.id <= v.rev && !IsFill(e.row.name) ==> e in v.out)
    decreases |batch|
  {
    var v := Decide(batch, rev, skip, late);
    if batch != [] && !(batch[0].id != rev + 1 && !(rev + 1 == skip && late)) {
      var e, rest := batch[0], batch[1..];
      var w := Decide(rest, e.id, skip, late);
      DecideTakes(rest, e.id, skip, late);
      assert v.out == (if IsFill(e.row.name) then [] else [e]) + w.out;
      assert forall x :: x in batch <==> x == e || x in rest;
      if w.rev == e.id {
        assert batch[0].id == v.rev;
      } else {
        var k :| 0 <= k < |rest| && rest[k].id == w.rev;
        assert batch[k + 1].id == v.rev;
      }
    }
  }

  /** A verdict that jumped no gap does not depend on the fallback. */
  lemma {:induction false} DecideUnskipped(batch: seq<Versioned>, rev: nat, skip: nat, late: bool)
    ensures !Decide(batch, rev, skip, false).skipped
    ensures !Decide(batch, rev, skip, late).skipped ==> Decide(batch, rev, skip, late) == Decide(batch, rev, skip, false)
    decreases |batch|
  {
    if batch != [] { DecideUnskipped(batch[1..], batch[0].id, skip, late); }
  }

  /** The fallback only takes more. */
  lemma {:induction false} LateTakesMore(batch: seq<Versioned>, rev: nat, skip: nat, late: bool)
    requires Rising(rev, batch)
    ensures Decide(batch, rev, skip, false).rev <= Decide(batch, rev, skip, late).rev
    decreases |batch|
  {
    if batch != [] {
      LateTakesMore(batch[1..], batch[0].id, skip, late);
      DecideTakes(batch[1..], batch[0].id, skip, late);
    }
  }

  lemma {:induction false} NoEvents(full: Table, a: nat, b: nat)
    requires forall i :: a < i <= b ==> EventAt(full, i) == []
    ensures EventsBetween(full, a, b) == []
    decreases b
  {
    if a < b { NoEvents(full, a, b - 1); }
  }

  /** The batch holds what the history owes up to where the loop comes. */
  predicate CoversOwed(full: Table, batch: seq<Versioned>, a: nat, b: nat) {
    forall i {:trigger i in full} :: a < i <= b && i in full && !IsFill(full[i].name) ==> Versioned(i, full[i]) in batch
  }

  /** Its client rows are rows of the history. */
  predicate OfHistory(full: Table, batch: seq<Versioned>) {
    forall k {:trigger batch[k]} :: 0 <= k < |batch| && !IsFill(batch[k].row.name) ==> batch[k].id in full && full[batch[k].id] == batch[k].row
  }

  lemma FirstOwed(full: Table, batch: seq<Versioned>, rev: nat, b: nat)
    requires batch != [] && Rising(rev, batch) && OfHistory(full, batch) && CoversOwed(full, batch, rev, b) && batch[0].id <= b
    ensures EventsBetween(full, rev, batch[0].id) == if IsFill(batch[0].row.name) then [] else [batch[0]]
    ensures CoversOwed(full, batch[1..], batch[0].id, b) && OfHistory(full, batch[1..]) && Rising(batch[0].id, batch[1..])
  {
    var e := batch[0];
    forall i | rev < i < e.id ensures EventAt(full, i) == [] { }
    NoEvents(full, rev, e.id - 1);
    if e.id in full && !IsFill(full[e.id].name) { assert Versioned(e.id, full[e.id]) in batch; }
    assert EventAt(full, e.id) == if IsFill(e.row.name) then [] else [e];
    forall i | e.id < i <= b && i in full && !IsFill(full[i].name) ensures Versioned(i, full[i]) in batch[1..] {
      assert Versioned(i, full[i]) in batch;
    }
  }

  /** With or without the fallback: when the batch covers the slots it passes, the loop hands out what they owe. */
  lemma {:induction false} DecideCovered(full: Table, batch: seq<Versioned>, rev: nat, skip: nat, late: bool)
    requires Rising(rev, batch) && OfHistory(full, batch) && CoversOwed(full, batch, rev, Decide(batch, rev, skip, late).rev)
    ensures var v := Decide(batch, rev, skip, late); v.out == EventsBetween(full, rev, v.rev)
    decreases |batch|
  {
    var v := Decide(batch, rev, skip, late);
    DecideTakes(batch, rev, skip, late);
    if v.rev == rev {
      assert EventsBetween(full, rev, rev) == [];
    } else {
      DecideTakes(batch[1..], batch[0].id, skip, late);
      FirstOwed(full, batch, rev, v.rev);
      DecideCovered(full, batch[1..], batch[0].id, skip, late);
      EventsSplit(full, rev, batch[0].id, v.rev);
    }
  }

  /** A fill is asked for below a row that is there. */
  lemma {:induction false} FillIsBelow(full: Table, batch: seq<Versioned>, rev: nat, skip: nat, late: bool)
    requires BatchOf(full, rev, batch) && !Decide(batch, rev, skip, late).skipped && Decide(batch, rev, skip, late).fill
    ensures exists k :: 0 <= k < |batch| && Decide(batch, rev, skip, late).rev + 1 < batch[k].id
    decreases |batch|
  {
    if batch[0].id == rev + 1 {
      FillIsBelow(full, batch[1..], rev + 1, skip, late);
      var v := Decide(batch[1..], rev + 1, skip, late);
      var k :| 0 <= k < |batch[1..]| && v.rev + 1 < batch[1..][k].id;
      assert v.rev + 1 < batch[k + 1].id;
    } else {
      assert rev + 1 < batch[0].id;
    }
  }

  // -------------------------------------------------------------------- the state

  /** Where a call stands: it loaded the cached revision, reserved an id, committed, or asked for MAX(id). */
  datatype Op =
    | Loaded(cur: nat)
    | Reserved(cur: nat, id: nat, row: Row)
    | Committed(cur: nat, id: nat)
    | Queried(max: nat)

  /** Where the loop stands. Saved has moved its revision on and still holds what it sends. */
  datatype Phase =
    | Waiting
    | Marked
    | Fetched(batch: seq<Versioned>)
    | Decided(v: Verdict)
    | Filled(v: Verdict)
    | Saved(from: nat, out: seq<Versioned>)

  datatype State = State(t: Table, full: Table, nextId: nat, ops: map<nat, Op>,
                         pollStart: nat, pollRev: nat, skip: nat, phase: Phase, sent: seq<Versioned>,
                         polledRev: nat, currentRev: nat, relief: Option<nat>)

  datatype Action =
    | Load(op: nat)
    | Reserve(op: nat, row: Row)
    | Commit(op: nat)
    | Cas(op: nat)
    | Query(op: nat)
    | Forget(op: nat)
    | PollMark
    | PollFetch(limit: int)
    | PollDecide(late: bool)
    | PollFill
    | PollCas
    | PollSend
    | ReliefStart(target: nat)
    | ReliefBatch(batchSize: int)
    | Compact(target: nat, minRetain: nat)

  /** reliefBatch: how far one batch goes, nothing when there is nothing below the target. */
  function BatchTarget(t: Table, target: nat, batchSize: int): (r: Option<nat>)
    ensures r.Some? ==> CompactRev(t) < r.value <= target && r.value < MaxId(t)
    ensures r.Some? && batchSize > 0 ==> r.value <= CompactRev(t) + batchSize
  {
    var current, compactRev := MaxId(t), CompactRev(t);
    var goal := if target < current - 1 then target else current - 1;
    if goal <= compactRev then None
    else if 0 < batchSize && compactRev + batchSize < goal then Some(compactRev + batchSize)
    else Some(goal)
  }

  /** safeCompactRev: never into the newest minRetain revisions, never below 0. */
  function SafeCompactRev(target: nat, current: nat, minRetain: nat): (r: nat)
    ensures r <= target && (r == 0 || r + minRetain <= current)
    ensures r == target || r + minRetain == current || (r == 0 && current < minRetain)
  {
    var safe := if target < current - minRetain then target as int else current - minRetain;
    if safe < 0 then 0 else safe
  }

  function Put(s: State, id: nat, row: Row): State {
    s.(t := s.t[id := row], full := s.full[id := row])
  }

  function Compacted(s: State, target: nat): State {
    s.(t := CompactTo(s.t, target), full := SetCompactRev(s.full, target))
  }

  function ApplyOp(s: State, a: Action): State {
    match a
    case Load(op) => s.(ops := s.ops[op := Loaded(s.currentRev)])
    case Reserve(op, row) =>
      if op in s.ops && s.ops[op].Loaded?
      then s.(ops := s.ops[op := Reserved(s.ops[op].cur, s.nextId, row)], nextId := s.nextId + 1) else s
    case Commit(op) =>
      if op in s.ops && s.ops[op].Reserved? then
        var Reserved(cur, id, row) := s.ops[op];
        if id in s.t || Conflict(s.t, row.name, row.prevRev) then s.(ops := s.ops[op := Loaded(cur)])
        else Put(s, id, row).(ops := s.ops[op := Committed(cur, id)])
      else s
    case Cas(op) =>
      if op in s.ops && s.ops[op].Committed? then
        s.(currentRev := if s.currentRev == s.ops[op].cur then s.ops[op].id else s.currentRev, ops := s.ops - {op})
      else if op in s.ops && s.ops[op].Queried? then
        s.(currentRev := if s.currentRev == 0 then s.ops[op].max else s.currentRev, ops := s.ops - {op})
      else s
    case Query(op) => if s.currentRev == 0 then s.(ops := s.ops[op := Queried(MaxId(s.t))]) else s
    case Forget(op) => s.(ops := s.ops - {op})
    case _ => s
  }

  function FetchStep(s: State, limit: int): State {
    var batch := After(s.t, "", "", s.pollRev, limit);
    s.(phase := if batch == [] then Waiting else Fetched(batch))
  }

  /** The history counts a slot that nobody has taken when the fallback jumps it as a fill row. */
  function FillGaps(full: Table, a: nat, b: nat): Table {
    full + map j: nat | a < j <= b && j !in full :: FillRow(j)
  }

  function DecideStep(s: State, batch: seq<Versioned>, late: bool): State {
    var v := Decide(batch, s.pollRev, s.skip, late);
    s.(skip := v.skip, phase := Decided(v), full := if v.skipped then FillGaps(s.full, s.pollRev, v.rev) else s.full)
  }

  /** Fill fails on a slot that is taken by now. */
  function FillStep(s: State, v: Verdict): State {
    var next := v.rev + 1;
    if v.fill && next !in s.t && !Conflict(s.t, FillRow(next).name, 0)
    then Put(s, next, FillRow(next)).(phase := Filled(v)) else s.(phase := Filled(v))
  }

  function CasStep(s: State, v: Verdict): State {
    if v.rev == s.pollRev then s.(phase := Waiting)
    else s.(currentRev := if s.currentRev == s.pollRev then v.rev else s.currentRev,
            pollRev := v.rev, phase := Saved(s.pollRev, v.out))
  }

  function ApplyPoll(s: State, a: Action): State {
    match (a, s.phase)
    case (PollMark, Waiting) => s.(polledRev := s.pollRev, phase := Marked)
    case (PollFetch(limit), Marked) => FetchStep(s, limit)
    case (PollDecide(late), Fetched(batch)) => DecideStep(s, batch, late)
    case (PollFill, Decided(v)) => FillStep(s, v)
    case (PollCas, Filled(v)) => CasStep(s, v)
    case (PollSend, Saved(_, out)) => s.(sent := s.sent + out, phase := Waiting)
    case _ => s
  }

  function ApplyCompact(s: State, a: Action): State {
    match a
    case ReliefStart(target) =>
      s.(relief := if s.polledRev == 0 then None else Some(if target < s.polledRev then target else s.polledRev))
    case ReliefBatch(batchSize) =>
      if s.relief == None then s
      else
        var to := BatchTarget(s.t, s.relief.value, batchSize);
        if to == None then s.(relief := None) else Compacted(s, to.value)
    case Compact(target, minRetain) =>
      var to := SafeCompactRev(target, MaxId(s.t), minRetain);
      if to <= CompactRev(s.t) then s else Compacted(s, to)
    case _ => s
  }

  predicate IsOpStep(a: Action) {
    a.Load? || a.Reserve? || a.Commit? || a.Cas? || a.Query? || a.Forget?
  }

  predicate IsCompactStep(a: Action) {
    a.ReliefStart? || a.ReliefBatch? || a.Compact?
  }

  function Apply(s: State, a: Action): State {
    if IsOpStep(a) then ApplyOp(s, a) else if IsCompactStep(a) then ApplyCompact(s, a) else ApplyPoll(s, a)
  }

  predicate OwnLink(full: Table, row: Row) {
    row.prevRev == 0 || (row.prevRev in full && full[row.prevRev].name == row.name)
  }

  /** The verdict on what the poller has in hand: the one to come when it has not decided yet. */
  function InHand(s: State): Option<Verdict> {
    match s.phase
    case Fetched(batch) => Some(Decide(batch, s.pollRev, s.skip, false))
    case Decided(v) => Some(v)
    case Filled(v) => Some(v)
    case _ => None
  }

  /** How far the poller has come with what it has in hand: nothing after that depends on rows up to there. */
  function HeldRev(s: State): nat {
    if InHand(s).Some? then InHand(s).value.rev else s.pollRev
  }

  /**
    An insert that holds an open slot at or before held can do no harm: it fails on the index, or its row
    is one the poller takes for a fill row. Slots from before the poller are never sent anyway.
   */
  predicate Harmless(t: Table, pollStart: nat, held: nat, id: nat, row: Row) {
    pollStart < id <= held && id !in t ==> IsFill(row.name) || Conflict(t, row.name, row.prevRev)
  }

  /** Every slot an insert still holds is taken, ahead of the poller, or harmless. */
  predicate AllHarmless(t: Table, ops: map<nat, Op>, pollStart: nat, held: nat) {
    forall op {:trigger ops[op]} :: op in ops && ops[op].Reserved? ==> Harmless(t, pollStart, held, ops[op].id, ops[op].row)
  }

  predicate SlotsSafe(s: State, target: nat) {
    AllHarmless(CompactTo(s.t, target), s.ops, s.pollStart, HeldRev(s))
  }

  /** The compaction takes no row but fill rows that the poller has not read. */
  predicate TakesNoUnread(t: Table, held: nat, target: nat) {
    forall i {:trigger i in t} :: i in t && held < i && SqlVictim(t, target, i) ==> IsFill(t[i].name)
  }

  predicate UnreadSafe(s: State, target: nat) {
    TakesNoUnread(s.t, HeldRev(s), target)
  }

  /** The fallback jumps no visible row that is not in the batch, and no insert can still come into a slot it jumps. */
  predicate SkipSafe(s: State, batch: seq<Versioned>, late: bool) {
    var rev := Decide(batch, s.pollRev, s.skip, late).rev;
    CoversOwed(s.t, batch, s.pollRev, rev) && AllHarmless(s.t, s.ops, s.pollStart, rev)
  }

  /**
    Client rows link to a row of their own key that exists already, and leave the compact-revision row alone.
    The poller uses its skip fallback where that is safe. Compactions stay below the head and keep slots
    and unread rows safe; for the relief the latter is proved.
   */
  predicate Allowed(s: State, a: Action) {
    match a
    case Load(op) => op !in s.ops
    case Query(op) => op !in s.ops
    case Reserve(op, row) => row.name != COMPACT_REV_KEY && OwnLink(s.full, row)
    case PollDecide(late) =>
      s.phase.Fetched? && Decide(s.phase.batch, s.pollRev, s.skip, late).skipped ==> SkipSafe(s, s.phase.batch, late)
    case ReliefBatch(batchSize) =>
      s.relief.Some? ==> (var to := BatchTarget(s.t, s.relief.value, batchSize); to.Some? ==> SlotsSafe(s, to.value))
    case Compact(target, minRetain) =>
      var to := SafeCompactRev(target, MaxId(s.t), minRetain);
      CompactRev(s.t) < to ==> to < MaxId(s.t) && SlotsSafe(s, to) && UnreadSafe(s, to)
    case _ => true
  }

  function Run(s: State, actions: seq<Action>): State
    decreases |actions|
  {
    if actions == [] then s else Run(Apply(s, actions[0]), actions[1..])
  }

  predicate AllowedRun(s: State, actions: seq<Action>)
    decreases |actions|
  {
    actions == [] || (Allowed(s, actions[0]) && AllowedRun(Apply(s, actions[0]), actions[1..]))
  }

  // -------------------------------------------------------------- the invariant

  /** The table is the history less rows the poller has come past and fill rows, and no slot up to there is open. */
  predicate Tables(t: Table, full: Table, nextId: nat, pollStart: nat, held: nat) {
    && NoZero(full) && pollStart <= held < nextId
    && (forall i {:trigger i in t} :: i in t ==> i in full && t[i] == full[i])
    && (forall i {:trigger i in full} :: i in full ==> i < nextId && (i in t || i <= held || IsFill(full[i].name)))
    && (forall i {:trigger i in full} :: pollStart < i <= held ==> i in full)
    && (forall i {:trigger full[i]} :: i in full ==>
          if full[i].name == COMPACT_REV_KEY then i <= pollStart else full[i].prevRev < i)
  }

  predicate NoCrkLink(full: Table, row: Row) {
    row.prevRev in full ==> full[row.prevRev].name != COMPACT_REV_KEY
  }

  /**
    The row of the compact revision is there and nothing can delete it: it is no tombstone, and no row of
    another key links to it. What is gone from the history is at or below the compact revision, fill rows aside.
   */
  predicate CompactRow(t: Table, full: Table) {
    && (exists i :: i in t && t[i].name == COMPACT_REV_KEY)
    && (forall i {:trigger full[i]} :: i in full && full[i].name == COMPACT_REV_KEY ==> !full[i].deleted)
    && (forall i {:trigger NoCrkLink(full, full[i])} :: i in full && full[i].name != COMPACT_REV_KEY ==> NoCrkLink(full, full[i]))
    && (forall i {:trigger i in full} :: i in full ==> i in t || i <= CompactRev(t) || IsFill(full[i].name))
  }

  /** Only a fill row can be in a slot an insert holds. */
  predicate OpOk(t: Table, full: Table, nextId: nat, pollStart: nat, held: nat, currentRev: nat, o: Op) {
    match o
    case Loaded(cur) => cur <= currentRev
    case Reserved(cur, id, row) =>
      cur < id < nextId && cur <= currentRev && row.name != COMPACT_REV_KEY && row.prevRev < id && NoCrkLink(full, row)
      && (id in full ==> IsFill(full[id].name)) && Harmless(t, pollStart, held, id, row)
    case Committed(cur, id) => cur < id <= MaxId(t)
    case Queried(max) => max <= MaxId(t)
  }

  predicate Ops(s: State) {
    && (forall op {:trigger OpOk(s.t, s.full, s.nextId, s.pollStart, HeldRev(s), s.currentRev, s.ops[op])} ::
          op in s.ops ==> OpOk(s.t, s.full, s.nextId, s.pollStart, HeldRev(s), s.currentRev, s.ops[op]))
    && (forall op, o :: op in s.ops && o in s.ops && op != o && s.ops[op].Reserved? && s.ops[o].Reserved?
                        ==> s.ops[op].id != s.ops[o].id)
  }

  /** Up to where everything has been handed to the watchers. */
  function SentRev(s: State): nat {
    if s.phase.Saved? then s.phase.from else s.pollRev
  }

  predicate VerdictOk(full: Table, nextId: nat, pollRev: nat, v: Verdict) {
    && pollRev <= v.rev && v.rev < nextId
    && (forall i {:trigger i in full} :: pollRev < i <= v.rev ==> i in full)
    && v.out == EventsBetween(full, pollRev, v.rev)
    && (v.fill ==> v.rev + 1 < nextId)
  }

  predicate PhaseOk(full: Table, nextId: nat, pollStart: nat, pollRev: nat, skip: nat, phase: Phase) {
    match phase
    case Waiting => true
    case Marked => true
    case Fetched(batch) =>
      Rising(pollRev, batch) && OfHistory(full, batch) && VerdictOk(full, nextId, pollRev, Decide(batch, pollRev, skip, false))
    case Decided(v) => VerdictOk(full, nextId, pollRev, v)
    case Filled(v) => VerdictOk(full, nextId, pollRev, v)
    case Saved(from, out) => pollStart <= from <= pollRev && out == EventsBetween(full, from, pollRev)
  }

  predicate Revisions(s: State) {
    && s.currentRev <= MaxId(s.t) && HeldRev(s) <= MaxId(s.t)
    && (s.phase.Fetched? ==> forall k :: 0 <= k < |s.phase.batch| ==> s.phase.batch[k].id <= MaxId(s.t))
    && s.polledRev <= SentRev(s) && s.pollStart <= s.pollRev
    && (s.relief.Some? ==> s.relief.value <= s.polledRev)
  }

  predicate Inv(s: State) {
    && Tables(s.t, s.full, s.nextId, s.pollStart, HeldRev(s))
    && CompactRow(s.t, s.full)
    && Ops(s)
    && s.sent == EventsBetween(s.full, s.pollStart, SentRev(s))
    && PhaseOk(s.full, s.nextId, s.pollStart, s.pollRev, s.skip, s.phase)
    && Revisions(s)
  }

  /** The poller starts at MAX(id); inserts may be under way, below it too, and rows may be compacted already. */
  predicate Init(s: State) {
    && s.pollStart == s.pollRev == MaxId(s.t) && s.sent == [] && s.phase == Waiting
    && s.polledRev == 0 && s.currentRev <= MaxId(s.t) && s.relief == None
    && Tables(s.t, s.full, s.nextId, s.pollStart, HeldRev(s))
    && CompactRow(s.t, s.full)
    && Ops(s)
  }

  lemma InitInv(s: State)
    requires Init(s)
    ensures Inv(s)
  {
  }

  // ---------------------------------------------------- a new row in an open slot

  /** What may become of a row of the history: only a fill row ahead of the poller, or from before it, gives way to a client's. */
  predicate KeptRow(r: Row, q: Row, i: nat, pollStart: nat, held: nat) {
    if r.name == COMPACT_REV_KEY then q.name == COMPACT_REV_KEY
    else if IsFill(r.name) then q.name != COMPACT_REV_KEY && (pollStart < i <= held ==> IsFill(q.name))
    else q == r
  }

  /** Whoever replaces the history keeps every slot the poller relies on. */
  predicate KeepsRows(full: Table, f: Table, pollStart: nat, held: nat) {
    forall i {:trigger i in full} {:trigger i in f} :: i in full ==> i in f && KeptRow(full[i], f[i], i, pollStart, held)
  }

  predicate NoCompactRevAbove(full: Table, pollStart: nat) {
    forall i {:trigger full[i]} :: i in full && full[i].name == COMPACT_REV_KEY ==> i <= pollStart
  }

  lemma KeepsEvents(full: Table, f: Table, pollStart: nat, held: nat, a: nat, b: nat)
    requires KeepsRows(full, f, pollStart, held) && NoCompactRevAbove(full, pollStart) && pollStart <= a && b <= held
    requires forall i {:trigger i in full} :: a < i <= b ==> i in full
    ensures EventsBetween(f, a, b) == EventsBetween(full, a, b)
  {
    forall i | a < i <= b ensures EventAt(full, i) == EventAt(f, i) { assert i in full; }
    SameEvents(full, f, a, b);
  }

  lemma KeepsHistory(full: Table, f: Table, pollStart: nat, held: nat, pollRev: nat, batch: seq<Versioned>)
    requires KeepsRows(full, f, pollStart, held) && NoCompactRevAbove(full, pollStart) && pollStart <= pollRev
    requires Rising(pollRev, batch) && OfHistory(full, batch)
    ensures OfHistory(f, batch)
  {
  }

  lemma KeepsPhase(full: Table, f: Table, nextId: nat, pollStart: nat, pollRev: nat, held: nat, skip: nat, phase: Phase)
    requires KeepsRows(full, f, pollStart, held) && NoCompactRevAbove(full, pollStart) && pollStart <= pollRev <= held
    requires forall i {:trigger i in full} :: pollStart < i <= held ==> i in full
    requires PhaseOk(full, nextId, pollStart, pollRev, skip, phase)
    requires phase.Fetched? ==> held == Decide(phase.batch, pollRev, skip, false).rev
    requires phase.Decided? || phase.Filled? ==> held == phase.v.rev
    ensures PhaseOk(f, nextId, pollStart, pollRev, skip, phase)
  {
    match phase {
      case Waiting =>
      case Marked =>
      case Fetched(batch) =>
        KeepsHistory(full, f, pollStart, held, pollRev, batch);
        KeepsEvents(full, f, pollStart, held, pollRev, held);
      case Decided(v) => KeepsEvents(full, f, pollStart, held, pollRev, v.rev);
      case Filled(v) => KeepsEvents(full, f, pollStart, held, pollRev, v.rev);
      case Saved(from, out) => KeepsEvents(full, f, pollStart, held, from, pollRev);
    }
  }

  lemma PutTables(t: Table, full: Table, nextId: nat, pollStart: nat, held: nat, id: nat, row: Row)
    requires Tables(t, full, nextId, pollStart, held)
    requires 0 < id < nextId && id !in t && row.name != COMPACT_REV_KEY && row.prevRev < id
    ensures Tables(t[id := row], full[id := row], nextId, pollStart, held)
  {
  }

  lemma TablesFacts(t: Table, full: Table, nextId: nat, pollStart: nat, held: nat)
    requires Tables(t, full, nextId, pollStart, held)
    ensures NoCompactRevAbove(full, pollStart)
  {
  }

  lemma FillIsNoCrk(name: string)
    requires IsFill(name)
    ensures name != COMPACT_REV_KEY
  {
    assert name[0] == 'g';
  }

  /** A slot that is open in the table: new to the history, or held there by a fill row. */
  predicate Open(t: Table, full: Table, pollStart: nat, held: nat, id: nat, row: Row) {
    id !in t && (id in full ==> IsFill(full[id].name) && (pollStart < id <= held ==> IsFill(row.name)))
  }

  lemma OpenKeepsRows(t: Table, full: Table, pollStart: nat, held: nat, id: nat, row: Row)
    requires Open(t, full, pollStart, held, id, row) && row.name != COMPACT_REV_KEY
    ensures KeepsRows(full, full[id := row], pollStart, held)
  {
    if id in full { FillIsNoCrk(full[id].name); }
  }

  /** A row that takes an open slot of its own keeps the invariant, whoever puts it there. */
  lemma PutKeeps(s: State, id: nat, row: Row)
    requires Inv(s) && 0 < id < s.nextId && Open(s.t, s.full, s.pollStart, HeldRev(s), id, row)
    requires row.name != COMPACT_REV_KEY && row.prevRev < id && NoCrkLink(s.full, row)
    requires forall o :: o in s.ops && s.ops[o].Reserved? && s.ops[o].id == id ==> IsFill(row.name)
    ensures Inv(Put(s, id, row))
  {
    OpenKeepsRows(s.t, s.full, s.pollStart, HeldRev(s), id, row);
    PutTables(s.t, s.full, s.nextId, s.pollStart, HeldRev(s), id, row);
    HistoryPhase(s, s.full[id := row]);
    PutMaxId(s.t, id, row);
    PutOps(s, id, row);
    PutCompactRow(s.t, s.full, id, row);
  }

  /** A new history that keeps the rows invalidates neither what is in hand nor what was sent. */
  lemma HistoryPhase(s: State, f: Table)
    requires Inv(s) && KeepsRows(s.full, f, s.pollStart, HeldRev(s))
    ensures PhaseOk(f, s.nextId, s.pollStart, s.pollRev, s.skip, s.phase)
    ensures EventsBetween(f, s.pollStart, SentRev(s)) == s.sent
  {
    HeldIsPast(s);
    TablesFacts(s.t, s.full, s.nextId, s.pollStart, HeldRev(s));
    KeepsPhase(s.full, f, s.nextId, s.pollStart, s.pollRev, HeldRev(s), s.skip, s.phase);
    KeepsEvents(s.full, f, s.pollStart, HeldRev(s), s.pollStart, SentRev(s));
  }

  lemma HeldIsPast(s: State)
    requires Inv(s)
    ensures s.pollStart <= s.pollRev <= HeldRev(s) && s.pollStart <= SentRev(s) <= s.pollRev && NoZero(s.full)
  {
  }

  lemma PutCompactRow(t: Table, full: Table, id: nat, row: Row)
    requires CompactRow(t, full) && id !in t && row.name != COMPACT_REV_KEY && NoCrkLink(full, row)
    ensures CompactRow(t[id := row], full[id := row])
  {
    var f, u := full[id := row], t[id := row];
    assert CompactRev(u) == CompactRev(t) by { PutCompactRev(t, id, row); }
    var c :| c in t && t[c].name == COMPACT_REV_KEY;
    assert u[c] == t[c];
    forall i | i in f && f[i].name != COMPACT_REV_KEY ensures NoCrkLink(f, f[i]) {
      if i != id { assert NoCrkLink(full, full[i]); }
    }
  }

  lemma PutOpOk(t: Table, full: Table, nextId: nat, pollStart: nat, held: nat, currentRev: nat, o: Op, id: nat, row: Row)
    requires OpOk(t, full, nextId, pollStart, held, currentRev, o) && id !in t && row.name != COMPACT_REV_KEY
    requires o.Reserved? && o.id == id ==> IsFill(row.name)
    ensures OpOk(t[id := row], full[id := row], nextId, pollStart, held, currentRev, o)
  {
    PutMaxId(t, id, row);
    if o.Reserved? && Conflict(t, o.row.name, o.row.prevRev) { ConflictStays(t, o.row.name, o.row.prevRev, id, row); }
  }

  lemma PutOps(s: State, id: nat, row: Row)
    requires Ops(s) && id !in s.t && row.name != COMPACT_REV_KEY
    requires forall o :: o in s.ops && s.ops[o].Reserved? && s.ops[o].id == id ==> IsFill(row.name)
    ensures Ops(Put(s, id, row))
  {
    var s' := Put(s, id, row);
    forall op | op in s'.ops ensures OpOk(s'.t, s'.full, s'.nextId, s'.pollStart, HeldRev(s'), s'.currentRev, s'.ops[op]) {
      PutOpOk(s.t, s.full, s.nextId, s.pollStart, HeldRev(s), s.currentRev, s.ops[op], id, row);
    }
  }

  // ------------------------------------------------------------ the steps one by one

  lemma OtherOps(s: State, s': State, mine: nat)
    requires Ops(s)
    requires s'.t == s.t && s'.full == s.full && s'.pollStart == s.pollStart && HeldRev(s') == HeldRev(s)
    requires s.nextId <= s'.nextId && s.currentRev <= s'.currentRev
    requires forall op {:trigger s'.ops[op]} :: op in s'.ops && op != mine ==> op in s.ops && s'.ops[op] == s.ops[op]
    requires mine in s'.ops ==> OpOk(s'.t, s'.full, s'.nextId, s'.pollStart, HeldRev(s'), s'.currentRev, s'.ops[mine])
    requires mine in s'.ops && s'.ops[mine].Reserved? ==> s'.ops[mine].id == s.nextId
    ensures Ops(s')
  {
    forall op | op in s'.ops ensures OpOk(s'.t, s'.full, s'.nextId, s'.pollStart, HeldRev(s'), s'.currentRev, s'.ops[op]) {
      if op != mine { assert OpOk(s.t, s.full, s.nextId, s.pollStart, HeldRev(s), s.currentRev, s.ops[op]); }
    }
    forall op, o | op in s'.ops && o in s'.ops && op != o && s'.ops[op].Reserved? && s'.ops[o].Reserved?
      ensures s'.ops[op].id != s'.ops[o].id
    {
      if op != mine { assert OpOk(s.t, s.full, s.nextId, s.pollStart, HeldRev(s), s.currentRev, s.ops[op]); }
      if o != mine { assert OpOk(s.t, s.full, s.nextId, s.pollStart, HeldRev(s), s.currentRev, s.ops[o]); }
    }
  }

  lemma TablesNext(t: Table, full: Table, nextId: nat, next': nat, pollStart: nat, pollRev: nat)
    requires Tables(t, full, nextId, pollStart, pollRev) && nextId <= next'
    ensures Tables(t, full, next', pollStart, pollRev)
  {
  }

  /** An operation that is gone is missed by nobody. */
  lemma WithoutKeeps(s: State, op: nat)
    requires Inv(s)
    ensures Inv(s.(ops := s.ops - {op}))
  {
    OtherOps(s, s.(ops := s.ops - {op}), op);
  }

  lemma CommittedKeeps(s: State, op: nat, cur: nat, id: nat)
    requires Inv(s) && op !in s.ops && cur < id <= MaxId(s.t)
    ensures Inv(s.(ops := s.ops[op := Committed(cur, id)]))
  {
    OtherOps(s, s.(ops := s.ops[op := Committed(cur, id)]), op);
  }

  lemma CommitLandsWell(s: State, op: nat)
    requires Inv(s) && op in s.ops && s.ops[op].Reserved?
    requires var o := s.ops[op]; o.id !in s.t && !Conflict(s.t, o.row.name, o.row.prevRev)
    ensures Open(s.t, s.full, s.pollStart, HeldRev(s), s.ops[op].id, s.ops[op].row)
    ensures Inv(Put(s.(ops := s.ops - {op}), s.ops[op].id, s.ops[op].row))
  {
    var Reserved(cur, id, row) := s.ops[op];
    assert OpOk(s.t, s.full, s.nextId, s.pollStart, HeldRev(s), s.currentRev, s.ops[op]);
    WithoutKeeps(s, op);
    PutKeeps(s.(ops := s.ops - {op}), id, row);
  }

  lemma CommitRefused(s: State, op: nat)
    requires Inv(s) && op in s.ops && s.ops[op].Reserved?
    ensures Inv(s.(ops := s.ops[op := Loaded(s.ops[op].cur)]))
  {
    assert OpOk(s.t, s.full, s.nextId, s.pollStart, HeldRev(s), s.currentRev, s.ops[op]);
    OtherOps(s, s.(ops := s.ops[op := Loaded(s.ops[op].cur)]), op);
  }

  lemma ReservedBelow(s: State, op: nat)
    requires Inv(s) && op in s.ops && s.ops[op].Reserved?
    ensures s.ops[op].cur < s.ops[op].id
  {
    assert OpOk(s.t, s.full, s.nextId, s.pollStart, HeldRev(s), s.currentRev, s.ops[op]);
  }

  lemma CommitKeeps(s: State, op: nat)
    requires Inv(s)
    ensures Inv(ApplyOp(s, Commit(op)))
  {
    hide Inv;
    if op in s.ops && s.ops[op].Reserved? {
      var Reserved(cur, id, row) := s.ops[op];
      if id in s.t || Conflict(s.t, row.name, row.prevRev) {
        CommitRefused(s, op);
      } else {
        ReservedBelow(s, op);
        CommitLandsWell(s, op);
        PutMaxId(s.t, id, row);
        var s1 := Put(s.(ops := s.ops - {op}), id, row);
        CommittedKeeps(s1, op, cur, id);
        assert ApplyOp(s, Commit(op)) == s1.(ops := s1.ops[op := Committed(cur, id)]);
      }
    }
  }

  lemma ReserveKeeps(s: State, op: nat, row: Row)
    requires Inv(s) && Allowed(s, Reserve(op, row))
    ensures Inv(ApplyOp(s, Reserve(op, row)))
  {
    if op in s.ops && s.ops[op].Loaded? {
      assert OpOk(s.t, s.full, s.nextId, s.pollStart, HeldRev(s), s.currentRev, s.ops[op]);
      TablesNext(s.t, s.full, s.nextId, s.nextId + 1, s.pollStart, HeldRev(s));
      OtherOps(s, ApplyOp(s, Reserve(op, row)), op);
    }
  }

  lemma CacheKeeps(s: State, a: Action)
    requires Inv(s) && Allowed(s, a) && (a.Load? || a.Cas? || a.Query? || a.Forget?)
    ensures Inv(ApplyOp(s, a))
  {
    assert a.op in s.ops ==> OpOk(s.t, s.full, s.nextId, s.pollStart, HeldRev(s), s.currentRev, s.ops[a.op]);
    if ApplyOp(s, a) != s { OtherOps(s, ApplyOp(s, a), a.op); }
  }

  lemma OpKeeps(s: State, a: Action)
    requires Inv(s) && Allowed(s, a) && IsOpStep(a)
    ensures Inv(ApplyOp(s, a))
  {
    match a {
      case Commit(op) => CommitKeeps(s, op);
      case Reserve(op, row) => ReserveKeeps(s, op, row);
      case _ => CacheKeeps(s, a);
    }
  }

  /** Moving a cache forward invalidates no operation. */
  lemma OpsForward(s: State, s': State)
    requires Ops(s)
    requires s'.t == s.t && s'.full == s.full && s'.nextId == s.nextId && s'.pollStart == s.pollStart
    requires s'.ops == s.ops && s.currentRev <= s'.currentRev && HeldRev(s) <= HeldRev(s')
    requires forall i {:trigger i in s.t} :: HeldRev(s) < i <= HeldRev(s') ==> i in s.t
    ensures Ops(s')
  {
    forall op | op in s'.ops ensures OpOk(s'.t, s'.full, s'.nextId, s'.pollStart, HeldRev(s'), s'.currentRev, s'.ops[op]) {
      assert OpOk(s.t, s.full, s.nextId, s.pollStart, HeldRev(s), s.currentRev, s.ops[op]);
    }
  }

  lemma FetchKeeps(s: State, limit: int)
    requires Inv(s) && s.phase.Marked?
    ensures Inv(FetchStep(s, limit))
  {
    var batch, e := After(s.t, "", "", s.pollRev, limit), FetchStep(s, limit);
    hide After, Decide, CompactRow, EventsBetween;
    FetchedVerdict(s.t, s.full, s.nextId, s.pollStart, s.pollRev, s.skip, batch);
    OpsForward(s, e);
  }

  /** The verdict that a fresh batch will get. */
  lemma FetchedVerdict(t: Table, full: Table, nextId: nat, pollStart: nat, pollRev: nat, skip: nat, batch: seq<Versioned>)
    requires Tables(t, full, nextId, pollStart, pollRev) && BatchOf(t, pollRev, batch)
    ensures Rising(pollRev, batch) && OfHistory(full, batch)
    ensures var v := Decide(batch, pollRev, skip, false);
            && VerdictOk(full, nextId, pollRev, v) && (pollRev <= MaxId(t) ==> v.rev <= MaxId(t))
            && (forall i {:trigger i in t} :: pollRev < i <= v.rev ==> i in t)
            && Tables(t, full, nextId, pollStart, v.rev)
  {
    var v := Decide(batch, pollRev, skip, false);
    DecideUnskipped(batch, pollRev, skip, false);
    DecideExact(t, batch, pollRev, skip, false);
    assert BatchOf(full, pollRev, batch);
    DecideExact(full, batch, pollRev, skip, false);
    if v.fill { FillIsBelow(full, batch, pollRev, skip, false); }
    DecideTakes(batch, pollRev, skip, false);
  }

  lemma DecideKeeps(s: State, late: bool)
    requires Inv(s) && s.phase.Fetched? && Allowed(s, PollDecide(late))
    ensures Inv(DecideStep(s, s.phase.batch, late))
  {
    var batch := s.phase.batch;
    DecideUnskipped(batch, s.pollRev, s.skip, late);
    if Decide(batch, s.pollRev, s.skip, late).skipped {
      SkipKeeps(s, late);
    } else {
      OpsForward(s, DecideStep(s, batch, late));
    }
  }

  lemma GapsKeepRows(full: Table, a: nat, b: nat, pollStart: nat, held: nat)
    ensures KeepsRows(full, FillGaps(full, a, b), pollStart, held)
    ensures forall i :: a < i <= b ==> i in FillGaps(full, a, b)
    ensures forall i :: EventAt(FillGaps(full, a, b), i) == EventAt(full, i)
  {
    SameHistory(full, pollStart, held);
    forall i ensures EventAt(FillGaps(full, a, b), i) == EventAt(full, i) {
      FillRowIsFill(i);
    }
  }

  lemma GapsTables(t: Table, full: Table, nextId: nat, pollStart: nat, held: nat, pollRev: nat, rev: nat)
    requires Tables(t, full, nextId, pollStart, held) && pollStart <= pollRev <= held <= rev < nextId
    ensures Tables(t, FillGaps(full, pollRev, rev), nextId, pollStart, rev)
  {
    forall j ensures IsFill(FillRow(j).name) && FillRow(j).name != COMPACT_REV_KEY { FillRowIsFill(j); }
  }

  lemma GapsCompactRow(t: Table, full: Table, a: nat, b: nat)
    requires CompactRow(t, full) && NoZero(full)
    ensures CompactRow(t, FillGaps(full, a, b))
  {
    var f := FillGaps(full, a, b);
    forall j ensures IsFill(FillRow(j).name) && FillRow(j).name != COMPACT_REV_KEY { FillRowIsFill(j); }
    forall i | i in f && f[i].name != COMPACT_REV_KEY ensures NoCrkLink(f, f[i]) {
      if i in full { assert NoCrkLink(full, full[i]); }
    }
  }

  /** A safe jump: the slots without a row count as filled, and what is in hand is what the history owes. */
  lemma SkipKeeps(s: State, late: bool)
    requires Inv(s) && s.phase.Fetched? && SkipSafe(s, s.phase.batch, late)
    requires Decide(s.phase.batch, s.pollRev, s.skip, late).skipped
    ensures Inv(DecideStep(s, s.phase.batch, late))
  {
    var batch := s.phase.batch;
    var v := Decide(batch, s.pollRev, s.skip, late);
    SkipVerdict(s, late);
    SkipTables(s, late);
    SkipPhase(s, late);
    hide FillGaps, CompactRow, VerdictOk, Decide, Tables, Ops, EventsBetween, PhaseOk, Revisions;
    SkipOps(s, late);
  }

  lemma SkipPhase(s: State, late: bool)
    requires Inv(s) && s.phase.Fetched? && Decide(s.phase.batch, s.pollRev, s.skip, late).skipped
    requires var v := Decide(s.phase.batch, s.pollRev, s.skip, late);
             v.rev <= MaxId(s.t) && VerdictOk(FillGaps(s.full, s.pollRev, v.rev), s.nextId, s.pollRev, v)
    ensures var e := DecideStep(s, s.phase.batch, late);
            PhaseOk(e.full, e.nextId, e.pollStart, e.pollRev, e.skip, e.phase) && Revisions(e)
  {
    hide FillGaps, CompactRow, VerdictOk, Decide, Tables, Ops, EventsBetween;
    var e := DecideStep(s, s.phase.batch, late);
    assert SentRev(e) == SentRev(s) && e.phase.Decided?;
  }

  lemma SkipHeld(s: State, late: bool)
    requires Inv(s) && s.phase.Fetched?
    ensures s.pollStart <= s.pollRev <= HeldRev(s) <= Decide(s.phase.batch, s.pollRev, s.skip, late).rev
  {
    LateTakesMore(s.phase.batch, s.pollRev, s.skip, late);
  }

  lemma GapsKeep(t: Table, full: Table, nextId: nat, pollStart: nat, held: nat, pollRev: nat, rev: nat)
    requires Tables(t, full, nextId, pollStart, held) && CompactRow(t, full) && pollStart <= pollRev <= held <= rev < nextId
    ensures Tables(t, FillGaps(full, pollRev, rev), nextId, pollStart, rev) && CompactRow(t, FillGaps(full, pollRev, rev))
    ensures KeepsRows(full, FillGaps(full, pollRev, rev), pollStart, held)
  {
    GapsKeepRows(full, pollRev, rev, pollStart, held);
    GapsTables(t, full, nextId, pollStart, held, pollRev, rev);
    GapsCompactRow(t, full, pollRev, rev);
  }

  lemma SkipTables(s: State, late: bool)
    requires Inv(s) && s.phase.Fetched?
    requires var v := Decide(s.phase.batch, s.pollRev, s.skip, late); v.skipped && v.rev < s.nextId
    ensures var e := DecideStep(s, s.phase.batch, late);
            && Tables(e.t, e.full, e.nextId, e.pollStart, HeldRev(e)) && CompactRow(e.t, e.full)
            && EventsBetween(e.full, e.pollStart, SentRev(e)) == e.sent
  {
    var v := Decide(s.phase.batch, s.pollRev, s.skip, late);
    SkipHeld(s, late);
    GapsKeep(s.t, s.full, s.nextId, s.pollStart, HeldRev(s), s.pollRev, v.rev);
    HistoryPhase(s, FillGaps(s.full, s.pollRev, v.rev));
    var e := DecideStep(s, s.phase.batch, late);
    assert e.full == FillGaps(s.full, s.pollRev, v.rev) && HeldRev(e) == v.rev && SentRev(e) == SentRev(s);
    hide FillGaps, CompactRow, Decide, Tables, Ops, EventsBetween, PhaseOk, KeepsRows;
  }

  lemma SkipVerdict(s: State, late: bool)
    requires Inv(s) && s.phase.Fetched? && SkipSafe(s, s.phase.batch, late)
    requires Decide(s.phase.batch, s.pollRev, s.skip, late).skipped
    ensures var v := Decide(s.phase.batch, s.pollRev, s.skip, late);
            && v.rev <= MaxId(s.t) < s.nextId
            && VerdictOk(FillGaps(s.full, s.pollRev, v.rev), s.nextId, s.pollRev, v)
  {
    var batch := s.phase.batch;
    var v := Decide(batch, s.pollRev, s.skip, late);
    DecideTakes(batch, s.pollRev, s.skip, late);
    LateAsksNoFill(batch, s.pollRev, s.skip, late);
    SkipCovers(s, late);
    DecideCovered(s.full, batch, s.pollRev, s.skip, late);
    GapsKeepRows(s.full, s.pollRev, v.rev, s.pollStart, HeldRev(s));
    SameEvents(s.full, FillGaps(s.full, s.pollRev, v.rev), s.pollRev, v.rev);
    assert MaxId(s.t) != 0 ==> MaxId(s.t) in s.full;
  }

  lemma {:induction false} LateAsksNoFill(batch: seq<Versioned>, rev: nat, skip: nat, late: bool)
    requires Decide(batch, rev, skip, late).skipped
    ensures !Decide(batch, rev, skip, late).fill
    decreases |batch|
  {
    var e := batch[0];
    if Decide(batch[1..], e.id, skip, late).skipped {
      LateAsksNoFill(batch[1..], e.id, skip, late);
    } else {
      LateEnds(batch[1..], e.id, skip);
    }
  }

  lemma {:induction false} LateEnds(batch: seq<Versioned>, rev: nat, skip: nat)
    ensures !Decide(batch, rev, skip, true).fill
    decreases |batch|
  {
    if batch != [] { LateEnds(batch[1..], batch[0].id, skip); }
  }

  /** What the poller came past and is compacted already is in the batch too. */
  lemma SkipCovers(s: State, late: bool)
    requires Inv(s) && s.phase.Fetched? && SkipSafe(s, s.phase.batch, late)
    ensures CoversOwed(s.full, s.phase.batch, s.pollRev, Decide(s.phase.batch, s.pollRev, s.skip, late).rev)
  {
    var batch := s.phase.batch;
    DecideTakes(batch, s.pollRev, s.skip, false);
    EventsBetweenExact(s.full, s.pollRev, HeldRev(s));
  }

  lemma SkipOps(s: State, late: bool)
    requires Ops(s) && s.phase.Fetched? && SkipSafe(s, s.phase.batch, late)
    requires Decide(s.phase.batch, s.pollRev, s.skip, late).skipped
    ensures Ops(DecideStep(s, s.phase.batch, late))
  {
    hide Ops, Decide, FillGaps, AllHarmless, CoversOwed;
    GapsOps(s, DecideStep(s, s.phase.batch, late));
  }

  lemma GapsOps(s: State, e: State)
    requires Ops(s) && AllHarmless(s.t, s.ops, s.pollStart, HeldRev(e))
    requires e.t == s.t && e.full == FillGaps(s.full, s.pollRev, HeldRev(e)) && e.nextId == s.nextId
    requires e.pollStart == s.pollStart && e.currentRev == s.currentRev && e.ops == s.ops
    ensures Ops(e)
  {
    forall op | op in e.ops ensures OpOk(e.t, e.full, e.nextId, e.pollStart, HeldRev(e), e.currentRev, e.ops[op]) {
      assert OpOk(s.t, s.full, s.nextId, s.pollStart, HeldRev(s), s.currentRev, s.ops[op]);
      GapsOpOk(s.t, s.full, s.nextId, s.pollStart, HeldRev(s), s.currentRev, s.ops[op], s.pollRev, HeldRev(e));
    }
    hide HeldRev, FillGaps, Harmless, OpOk;
  }

  lemma GapsOpOk(t: Table, full: Table, nextId: nat, pollStart: nat, held: nat, currentRev: nat, o: Op, a: nat, b: nat)
    requires OpOk(t, full, nextId, pollStart, held, currentRev, o)
    requires o.Reserved? ==> Harmless(t, pollStart, b, o.id, o.row)
    ensures OpOk(t, FillGaps(full, a, b), nextId, pollStart, b, currentRev, o)
  {
    forall j ensures IsFill(FillRow(j).name) && FillRow(j).name != COMPACT_REV_KEY { FillRowIsFill(j); }
  }

  lemma FillRowIsFill(n: nat)
    ensures IsFill(FillRow(n).name) && FillRow(n).name != COMPACT_REV_KEY
  {
    assert FillRow(n).name[0] == 'g';
  }

  /** The slot a fill goes to is above the poller: open in the table means open in the history. */
  lemma FillSlotOpen(s: State, v: Verdict)
    requires Inv(s) && s.phase == Decided(v) && v.rev + 1 !in s.t
    ensures v.rev + 1 in s.full ==> IsFill(s.full[v.rev + 1].name)
  {
  }

  lemma FillPuts(s: State, v: Verdict)
    requires Inv(s) && s.phase == Decided(v) && v.fill && v.rev + 1 !in s.t
    ensures Inv(Put(s, v.rev + 1, FillRow(v.rev + 1)))
  {
    FillRowIsFill(v.rev + 1);
    FillSlotOpen(s, v);
    assert 0 !in s.full;
    PutKeeps(s, v.rev + 1, FillRow(v.rev + 1));
  }

  lemma FillKeeps(s: State, v: Verdict)
    requires Inv(s) && s.phase == Decided(v)
    ensures Inv(FillStep(s, v))
  {
    hide Inv;
    var next := v.rev + 1;
    if v.fill && next !in s.t && !Conflict(s.t, FillRow(next).name, 0) {
      FillPuts(s, v);
      RephaseFilled(Put(s, next, FillRow(next)), v);
      assert FillStep(s, v) == Put(s, next, FillRow(next)).(phase := Filled(v));
    } else {
      RephaseFilled(s, v);
    }
  }

  lemma RephaseFilled(s: State, v: Verdict)
    requires Inv(s) && s.phase == Decided(v)
    ensures Inv(s.(phase := Filled(v)))
  {
    OpsForward(s, s.(phase := Filled(v)));
  }

  lemma PollCasKeeps(s: State, v: Verdict)
    requires Inv(s) && s.phase == Filled(v)
    ensures Inv(CasStep(s, v))
  {
    OpsForward(s, CasStep(s, v));
  }

  lemma SendKeeps(s: State)
    requires Inv(s) && s.phase.Saved?
    ensures Inv(s.(sent := s.sent + s.phase.out, phase := Waiting))
  {
    EventsSplit(s.full, s.pollStart, s.phase.from, s.pollRev);
    OpsForward(s, s.(sent := s.sent + s.phase.out, phase := Waiting));
  }

  lemma PollKeeps(s: State, a: Action)
    requires Inv(s) && Allowed(s, a)
    ensures Inv(ApplyPoll(s, a))
  {
    var e := ApplyPoll(s, a);
    if a.PollMark? || a.PollFetch? || a.PollDecide? {
      PollReadKeeps(s, a);
    } else if e != s {
      PollWriteKeeps(s, a);
    }
  }

  lemma PollReadKeeps(s: State, a: Action)
    requires Inv(s) && Allowed(s, a) && (a.PollMark? || a.PollFetch? || a.PollDecide?)
    ensures Inv(ApplyPoll(s, a))
  {
    match a {
      case PollMark => if s.phase.Waiting? { MarkKeeps(s); }
      case PollFetch(limit) => if s.phase.Marked? { FetchKeeps(s, limit); }
      case PollDecide(late) => if s.phase.Fetched? { DecideKeeps(s, late); }
    }
  }

  lemma PollWriteKeeps(s: State, a: Action)
    requires Inv(s) && !(a.PollMark? || a.PollFetch? || a.PollDecide?) && ApplyPoll(s, a) != s
    ensures Inv(ApplyPoll(s, a))
  {
    match a {
      case PollFill => FillKeeps(s, s.phase.v);
      case PollCas => PollCasKeeps(s, s.phase.v);
      case PollSend => SendKeeps(s);
    }
  }

  lemma MarkKeeps(s: State)
    requires Inv(s) && s.phase.Waiting?
    ensures Inv(s.(polledRev := s.pollRev, phase := Marked))
  {
    OpsForward(s, s.(polledRev := s.pollRev, phase := Marked));
  }

  // compaction

  /** Links point backwards, so a compaction deletes nothing above its target, and never the head. */
  lemma VictimsBelow(t: Table, full: Table, nextId: nat, pollStart: nat, held: nat, target: nat, i: nat)
    requires Tables(t, full, nextId, pollStart, held) && i in t && SqlVictim(t, target, i)
    ensures i <= target
  {
    if !(t[i].deleted && i <= target) {
      var j :| j in t && t[j].name != COMPACT_REV_KEY && t[j].prevRev != 0 && t[j].prevRev == i && j <= target;
      assert j in full && full[j].prevRev < j;
    }
  }

  lemma HeadStays(t: Table, full: Table, nextId: nat, pollStart: nat, held: nat, target: nat)
    requires Tables(t, full, nextId, pollStart, held) && target < MaxId(t)
    ensures MaxId(CompactTo(t, target)) == MaxId(t)
  {
    var h, c := MaxId(t), CompactTo(t, target);
    if SqlVictim(t, target, h) { VictimsBelow(t, full, nextId, pollStart, held, target, h); }
    assert h in c;
    assert MaxId(c) in c;
  }

  lemma CompactTables(t: Table, full: Table, nextId: nat, pollStart: nat, held: nat, target: nat)
    requires Tables(t, full, nextId, pollStart, held) && TakesNoUnread(t, held, target)
    ensures Tables(CompactTo(t, target), SetCompactRev(full, target), nextId, pollStart, held)
  {
    var c, f := CompactTo(t, target), SetCompactRev(full, target);
    forall i | i in f ensures i < nextId && (i in c || i <= held || IsFill(f[i].name)) {
      assert i in full;
      if i in t && IsFill(t[i].name) { FillIsNoCrk(t[i].name); }
    }
    forall i | i in c ensures i in f && c[i] == f[i] {
      assert i in t;
    }
  }

  /** Nothing links to the row of the compact revision, so it survives, and holds the target afterwards. */
  lemma CompactRowStays(t: Table, full: Table, target: nat, r: nat)
    requires CompactRow(t, full) && r in t && t[r].name == COMPACT_REV_KEY
    requires forall i {:trigger i in t} :: i in t ==> i in full && t[i] == full[i]
    ensures r in CompactTo(t, target) && CompactRev(CompactTo(t, target)) == target
  {
    forall j | j in t && t[j].name != COMPACT_REV_KEY && t[j].prevRev != 0 ensures t[j].prevRev != r {
      assert NoCrkLink(full, full[j]);
    }
    assert !SqlVictim(t, target, r);
    assert CompactTo(t, target)[r].prevRev == target;
  }

  lemma CompactLinks(full: Table, target: nat)
    requires forall i {:trigger NoCrkLink(full, full[i])} :: i in full && full[i].name != COMPACT_REV_KEY ==> NoCrkLink(full, full[i])
    ensures var f := SetCompactRev(full, target);
            forall i {:trigger NoCrkLink(f, f[i])} :: i in f && f[i].name != COMPACT_REV_KEY ==> NoCrkLink(f, f[i])
  {
    var f := SetCompactRev(full, target);
    forall i | i in f && f[i].name != COMPACT_REV_KEY ensures NoCrkLink(f, f[i]) {
      assert NoCrkLink(full, full[i]);
    }
  }

  lemma CompactCompactRow(t: Table, full: Table, nextId: nat, pollStart: nat, held: nat, target: nat)
    requires Tables(t, full, nextId, pollStart, held) && CompactRow(t, full) && CompactRev(t) < target
    ensures CompactRow(CompactTo(t, target), SetCompactRev(full, target)) && CompactRev(CompactTo(t, target)) == target
  {
    var c, f := CompactTo(t, target), SetCompactRev(full, target);
    var r :| r in t && t[r].name == COMPACT_REV_KEY;
    CompactRowStays(t, full, target, r);
    CompactLinks(full, target);
    CompactGone(t, full, nextId, pollStart, held, target);
    MakeCompactRow(c, f, r, target);
  }

  lemma MakeCompactRow(c: Table, f: Table, r: nat, target: nat)
    requires r in c && c[r].name == COMPACT_REV_KEY && CompactRev(c) == target
    requires forall i {:trigger f[i]} :: i in f && f[i].name == COMPACT_REV_KEY ==> !f[i].deleted
    requires forall i {:trigger NoCrkLink(f, f[i])} :: i in f && f[i].name != COMPACT_REV_KEY ==> NoCrkLink(f, f[i])
    requires forall i {:trigger i in f} :: i in f ==> i in c || i <= target || IsFill(f[i].name)
    ensures CompactRow(c, f)
  {
  }

  /** What is gone from the table is at or below the target. */
  lemma CompactGone(t: Table, full: Table, nextId: nat, pollStart: nat, held: nat, target: nat)
    requires Tables(t, full, nextId, pollStart, held)
    requires forall i {:trigger i in full} :: i in full ==> i in t || i <= target || IsFill(full[i].name)
    ensures var f := SetCompactRev(full, target);
            forall i {:trigger i in f} :: i in f ==> i in CompactTo(t, target) || i <= target || IsFill(f[i].name)
  {
    var c, f := CompactTo(t, target), SetCompactRev(full, target);
    forall i | i in f ensures i in c || i <= target || IsFill(f[i].name) {
      if i in t && SqlVictim(t, target, i) { VictimsBelow(t, full, nextId, pollStart, held, target, i); }
    }
  }

  lemma CompactOps(s: State, target: nat)
    requires Inv(s) && target < MaxId(s.t) && SlotsSafe(s, target)
    ensures Ops(Compacted(s, target))
  {
    var s' := Compacted(s, target);
    HeadStays(s.t, s.full, s.nextId, s.pollStart, HeldRev(s), target);
    forall op | op in s'.ops ensures OpOk(s'.t, s'.full, s'.nextId, s'.pollStart, HeldRev(s'), s'.currentRev, s'.ops[op]) {
      assert OpOk(s.t, s.full, s.nextId, s.pollStart, HeldRev(s), s.currentRev, s.ops[op]);
    }
  }

  lemma CompactKeeps(s: State, target: nat)
    requires Inv(s) && CompactRev(s.t) < target < MaxId(s.t) && SlotsSafe(s, target) && UnreadSafe(s, target)
    ensures Inv(Compacted(s, target))
  {
    CompactTables(s.t, s.full, s.nextId, s.pollStart, HeldRev(s), target);
    CompactCompactRow(s.t, s.full, s.nextId, s.pollStart, HeldRev(s), target);
    HeadStays(s.t, s.full, s.nextId, s.pollStart, HeldRev(s), target);
    CompactOps(s, target);
    CompactPhase(s, target);
  }

  lemma CompactPhase(s: State, target: nat)
    requires Inv(s)
    ensures var f := SetCompactRev(s.full, target);
            PhaseOk(f, s.nextId, s.pollStart, s.pollRev, s.skip, s.phase) && EventsBetween(f, s.pollStart, SentRev(s)) == s.sent
  {
    SetRevKeepsRows(s.full, target, s.pollStart, HeldRev(s));
    HistoryPhase(s, SetCompactRev(s.full, target));
  }

  lemma SetRevKeepsRows(full: Table, rev: nat, pollStart: nat, held: nat)
    ensures KeepsRows(full, SetCompactRev(full, rev), pollStart, held)
  {
    forall i | i in full ensures KeptRow(full[i], SetCompactRev(full, rev)[i], i, pollStart, held) {
      if IsFill(full[i].name) { FillIsNoCrk(full[i].name); }
    }
  }

  /** A compaction that stays behind the poller takes nothing unread. */
  lemma BehindIsSafe(s: State, target: nat)
    requires Inv(s) && target <= HeldRev(s)
    ensures UnreadSafe(s, target)
  {
    forall i | i in s.t && SqlVictim(s.t, target, i) ensures i <= HeldRev(s) {
      VictimsBelow(s.t, s.full, s.nextId, s.pollStart, HeldRev(s), target, i);
    }
  }

  /**
    What a caller can look at: a periodic compactor that retains a revision, and as many as the poller is
    behind the head, stays below the head and takes nothing unread.
   */
  lemma RetainKeepsBehind(s: State, target: nat, minRetain: nat)
    requires Inv(s) && 0 < minRetain && MaxId(s.t) <= s.pollRev + minRetain
    ensures var to := SafeCompactRev(target, MaxId(s.t), minRetain);
            0 < to ==> to < MaxId(s.t) && UnreadSafe(s, to)
  {
    HeldIsPast(s);
    var to := SafeCompactRev(target, MaxId(s.t), minRetain);
    if 0 < to { BehindIsSafe(s, to); }
  }

  lemma ReliefIsBehind(s: State)
    requires Inv(s) && s.relief.Some?
    ensures s.relief.value <= s.pollRev <= HeldRev(s)
  {
  }

  lemma ReliefDone(s: State)
    requires Inv(s)
    ensures Inv(s.(relief := None))
  {
    OpsForward(s, s.(relief := None));
  }

  lemma ReliefKeeps(s: State, batchSize: int)
    requires Inv(s) && Allowed(s, ReliefBatch(batchSize))
    ensures Inv(ApplyCompact(s, ReliefBatch(batchSize)))
  {
    hide Inv;
    if s.relief.Some? {
      ReliefIsBehind(s);
      var to := BatchTarget(s.t, s.relief.value, batchSize);
      if to.Some? {
        BehindIsSafe(s, to.value);
        CompactKeeps(s, to.value);
        assert ApplyCompact(s, ReliefBatch(batchSize)) == Compacted(s, to.value);
      } else {
        ReliefDone(s);
        assert ApplyCompact(s, ReliefBatch(batchSize)) == s.(relief := None);
      }
    }
  }

  lemma CompactStepKeeps(s: State, a: Action)
    requires Inv(s) && Allowed(s, a) && IsCompactStep(a)
    ensures Inv(ApplyCompact(s, a))
  {
    match a
    case ReliefStart(target) => OpsForward(s, ApplyCompact(s, a));
    case ReliefBatch(batchSize) => ReliefKeeps(s, batchSize);
    case Compact(target, minRetain) =>
      var to := SafeCompactRev(target, MaxId(s.t), minRetain);
      if CompactRev(s.t) < to { CompactKeeps(s, to); }
  }

  lemma StepKeeps(s: State, a: Action)
    requires Inv(s) && Allowed(s, a)
    ensures Inv(Apply(s, a))
  {
    if IsOpStep(a) { OpKeeps(s, a); }
    else if IsCompactStep(a) { CompactStepKeeps(s, a); }
    else { PollKeeps(s, a); }
  }

  lemma {:induction false} RunKeeps(s: State, actions: seq<Action>)
    requires Inv(s) && AllowedRun(s, actions)
    ensures Inv(Run(s, actions))
    decreases |actions|
  {
    if actions != [] {
      StepKeeps(s, actions[0]);
      RunKeeps(Apply(s, actions[0]), actions[1..]);
    }
  }

  // ------------------------------------------------------------------ main results

  /**
    Over every run the watchers have been handed exactly the visible rows that are no fill rows and whose
    slots the poller has passed, each once and in ascending order; every slot it has passed holds or
    held a row, or was jumped; no insert that still holds a slot the poller has come to can commit a row
    watchers are owed into it; and every row that is owed and not in hand yet is still in the table.
   */
  lemma DeliversExactlyOnce(s: State, actions: seq<Action>)
    requires Init(s) && AllowedRun(s, actions)
    ensures var e := Run(s, actions);
            && e.sent == EventsBetween(e.full, e.pollStart, SentRev(e))
            && (forall i :: e.pollStart < i <= HeldRev(e) ==> i in e.full)
            && (forall op :: op in e.ops && e.ops[op].Reserved? && e.pollStart < e.ops[op].id <= HeldRev(e) ==>
                  IsFill(e.ops[op].row.name) || Apply(e, Commit(op)).t == e.t)
            && (forall i :: i in e.full && HeldRev(e) < i && !IsFill(e.full[i].name) ==> i in e.t && e.t[i] == e.full[i])
  {
    InitInv(s);
    RunKeeps(s, actions);
    Delivered(Run(s, actions));
  }

  lemma Delivered(e: State)
    requires Inv(e)
    ensures e.sent == EventsBetween(e.full, e.pollStart, SentRev(e))
    ensures forall i :: e.pollStart < i <= HeldRev(e) ==> i in e.full
    ensures forall op :: op in e.ops && e.ops[op].Reserved? && e.pollStart < e.ops[op].id <= HeldRev(e) ==>
              IsFill(e.ops[op].row.name) || Apply(e, Commit(op)).t == e.t
    ensures forall i :: i in e.full && HeldRev(e) < i && !IsFill(e.full[i].name) ==> i in e.t && e.t[i] == e.full[i]
  {
    forall op | op in e.ops && e.ops[op].Reserved? && e.pollStart < e.ops[op].id <= HeldRev(e)
      ensures IsFill(e.ops[op].row.name) || Apply(e, Commit(op)).t == e.t
    {
      assert OpOk(e.t, e.full, e.nextId, e.pollStart, HeldRev(e), e.currentRev, e.ops[op]);
    }
  }

  /**
    In every run a relief batch deletes only rows that were sent, are fill rows, or were there before the
    poller, and it leaves MAX(id) alone.
   */
  lemma ReliefStaysBehind(s: State, actions: seq<Action>, batchSize: int)
    requires Init(s) && AllowedRun(s, actions)
    ensures var e := Run(s, actions);
            var after := ApplyCompact(e, ReliefBatch(batchSize)).t;
            && (forall i :: i in e.t && i !in after ==>
                  && i <= e.polledRev && i < MaxId(e.t)
                  && (IsFill(e.t[i].name) || i <= e.pollStart || (i in e.full && Versioned(i, e.full[i]) in e.sent)))
            && MaxId(after) == MaxId(e.t)
  {
    InitInv(s);
    RunKeeps(s, actions);
    var e := Run(s, actions);
    if e.relief.Some? {
      BatchKeepsHead(e, batchSize);
      forall i | i in e.t && i !in ApplyCompact(e, ReliefBatch(batchSize)).t
        ensures i <= e.polledRev && i < MaxId(e.t)
        ensures IsFill(e.t[i].name) || i <= e.pollStart || (i in e.full && Versioned(i, e.full[i]) in e.sent)
      {
        BatchStaysBehind(e, batchSize, i);
      }
    }
  }

  predicate NoReliefStart(actions: seq<Action>) {
    forall a :: a in actions ==> !a.ReliefStart?
  }

  lemma {:induction false} ReliefUnchanged(s: State, actions: seq<Action>)
    requires NoReliefStart(actions)
    ensures Run(s, actions).relief == s.relief || Run(s, actions).relief == None
    decreases |actions|
  {
    if actions != [] {
      assert actions[0] in actions;
      ReliefUnchanged(Apply(s, actions[0]), actions[1..]);
    }
  }

  /** And until the next pass begins, a relief pass deletes nothing past the target it was given. */
  lemma ReliefKeepsToTarget(s: State, target: nat, actions: seq<Action>, batchSize: int)
    requires Inv(s) && AllowedRun(Apply(s, ReliefStart(target)), actions) && NoReliefStart(actions)
    ensures var e := Run(Apply(s, ReliefStart(target)), actions);
            forall i :: i in e.t && i !in ApplyCompact(e, ReliefBatch(batchSize)).t ==> i <= target
  {
    hide Inv, Tables, Run, AllowedRun, BatchTarget, CompactTo;
    var s1 := Apply(s, ReliefStart(target));
    var e := Run(s1, actions);
    assert s1.relief.Some? ==> s1.relief.value <= target;
    hide ApplyCompact;
    StepKeeps(s, ReliefStart(target));
    RunKeeps(s1, actions);
    ReliefUnchanged(s1, actions);
    InvTables(e);
    forall i | i in e.t && i !in ApplyCompact(e, ReliefBatch(batchSize)).t ensures i <= target {
      TakenByBatch(e, batchSize, i);
    }
  }

  lemma TakenByBatch(s: State, batchSize: int, i: nat)
    requires Tables(s.t, s.full, s.nextId, s.pollStart, HeldRev(s))
    requires i in s.t && i !in ApplyCompact(s, ReliefBatch(batchSize)).t
    ensures s.relief.Some? && i <= s.relief.value
  {
    var to := BatchTarget(s.t, s.relief.value, batchSize).value;
    assert SqlVictim(s.t, to, i);
    VictimsBelow(s.t, s.full, s.nextId, s.pollStart, HeldRev(s), to, i);
  }

  lemma InvTables(s: State)
    requires Inv(s)
    ensures Tables(s.t, s.full, s.nextId, s.pollStart, HeldRev(s))
  {
  }

  lemma BatchKeepsHead(s: State, batchSize: int)
    requires Inv(s) && s.relief.Some?
    ensures MaxId(ApplyCompact(s, ReliefBatch(batchSize)).t) == MaxId(s.t)
  {
    InvTables(s);
    hide Inv, Tables;
    var to := BatchTarget(s.t, s.relief.value, batchSize);
    if to.Some? { HeadStays(s.t, s.full, s.nextId, s.pollStart, HeldRev(s), to.value); }
  }

  lemma BatchStaysBehind(s: State, batchSize: int, i: nat)
    requires Inv(s) && s.relief.Some? && i in s.t && i !in ApplyCompact(s, ReliefBatch(batchSize)).t
    ensures i <= s.polledRev && i < MaxId(s.t)
    ensures IsFill(s.t[i].name) || i <= s.pollStart || (i in s.full && Versioned(i, s.full[i]) in s.sent)
  {
    var to := BatchTarget(s.t, s.relief.value, batchSize).value;
    assert SqlVictim(s.t, to, i);
    VictimsBelow(s.t, s.full, s.nextId, s.pollStart, HeldRev(s), to, i);
    if s.pollStart < i && !IsFill(s.t[i].name) { PassedIsSent(s, i); }
  }

  lemma PassedIsSent(s: State, i: nat)
    requires Inv(s) && i in s.t && s.pollStart < i <= SentRev(s) && !IsFill(s.t[i].name)
    ensures i in s.full && Versioned(i, s.full[i]) in s.sent
  {
    EventsBetweenExact(s.full, s.pollStart, SentRev(s));
  }

  /** Nothing ever moves back: not MAX(id), not the caches, not the poller, not what was sent, not the history. */
  predicate Forward(s: State, e: State) {
    && MaxId(s.t) <= MaxId(e.t) && s.currentRev <= e.currentRev && s.polledRev <= e.polledRev
    && s.pollStart == e.pollStart && s.pollRev <= e.pollRev && SentRev(s) <= SentRev(e) && HeldRev(s) <= HeldRev(e)
    && s.sent <= e.sent
    && CompactRev(s.t) <= CompactRev(e.t) && KeepsRows(s.full, e.full, s.pollStart, HeldRev(s))
  }

  lemma PutForward(s: State, id: nat, row: Row)
    requires Open(s.t, s.full, s.pollStart, HeldRev(s), id, row) && row.name != COMPACT_REV_KEY
    ensures Forward(s, Put(s, id, row))
  {
    PutMaxId(s.t, id, row);
    PutCompactRev(s.t, id, row);
    if id in s.full { FillIsNoCrk(s.full[id].name); }
    SameHistory(s.full, s.pollStart, HeldRev(s));
  }

  lemma SameHistory(full: Table, pollStart: nat, held: nat)
    ensures KeepsRows(full, full, pollStart, held)
  {
    forall i | i in full ensures KeptRow(full[i], full[i], i, pollStart, held) {
      if IsFill(full[i].name) { FillIsNoCrk(full[i].name); }
    }
  }

  /** What Forward asks of a step that only replaces the tables. */
  lemma TablesMoveForward(s: State, t: Table, full: Table)
    requires MaxId(s.t) <= MaxId(t) && CompactRev(s.t) <= CompactRev(t) && KeepsRows(s.full, full, s.pollStart, HeldRev(s))
    ensures Forward(s, s.(t := t, full := full))
  {
  }

  lemma CompactedForward(s: State, target: nat)
    requires Tables(s.t, s.full, s.nextId, s.pollStart, HeldRev(s)) && CompactRow(s.t, s.full)
    requires CompactRev(s.t) < target && target < MaxId(s.t)
    ensures Forward(s, Compacted(s, target))
  {
    HeadStays(s.t, s.full, s.nextId, s.pollStart, HeldRev(s), target);
    var r :| r in s.t && s.t[r].name == COMPACT_REV_KEY;
    CompactRowStays(s.t, s.full, target, r);
    SetRevKeepsRows(s.full, target, s.pollStart, HeldRev(s));
    TablesMoveForward(s, CompactTo(s.t, target), SetCompactRev(s.full, target));
  }

  lemma CommitForward(s: State, op: nat)
    requires Inv(s)
    ensures Forward(s, ApplyOp(s, Commit(op)))
  {
    if op in s.ops && s.ops[op].Reserved? {
      var Reserved(cur, id, row) := s.ops[op];
      if id in s.t || Conflict(s.t, row.name, row.prevRev) {
        QuietForward(s, ApplyOp(s, Commit(op)));
      } else {
        CommitLandsWell(s, op);
        assert OpOk(s.t, s.full, s.nextId, s.pollStart, HeldRev(s), s.currentRev, s.ops[op]);
        PutForward(s, id, row);
      }
    }
  }

  lemma OpForward(s: State, a: Action)
    requires Inv(s) && Allowed(s, a) && IsOpStep(a)
    ensures Forward(s, ApplyOp(s, a))
  {
    if a.Commit? {
      CommitForward(s, a.op);
    } else {
      assert a.op in s.ops ==> OpOk(s.t, s.full, s.nextId, s.pollStart, HeldRev(s), s.currentRev, s.ops[a.op]);
      QuietForward(s, ApplyOp(s, a));
    }
  }

  lemma FillForward(s: State, v: Verdict)
    requires s.phase == Decided(v) && (v.rev + 1 !in s.t && v.rev + 1 in s.full ==> IsFill(s.full[v.rev + 1].name))
    ensures Forward(s, FillStep(s, v))
  {
    var next := v.rev + 1;
    FillRowIsFill(next);
    if next !in s.t {
      PutForward(s, next, FillRow(next));
      PutRephase(s, Put(s, next, FillRow(next)), Filled(v));
    }
    QuietForward(s, s.(phase := Filled(v)));
  }

  lemma PutRephase(s: State, e: State, phase: Phase)
    requires Forward(s, e) && !e.phase.Saved? && !phase.Saved? && HeldRev(e.(phase := phase)) == HeldRev(e)
    ensures Forward(s, e.(phase := phase))
  {
  }

  lemma CasForward(s: State, v: Verdict)
    requires Inv(s) && s.phase == Filled(v)
    ensures Forward(s, CasStep(s, v))
  {
    QuietForward(s, CasStep(s, v));
  }

  /** What Forward asks of a step that leaves the tables alone. */
  lemma QuietForward(s: State, e: State)
    requires e.t == s.t && e.full == s.full && s.currentRev <= e.currentRev && s.polledRev <= e.polledRev
    requires s.pollStart == e.pollStart && s.pollRev <= e.pollRev && SentRev(s) <= SentRev(e) && s.sent <= e.sent
    requires HeldRev(s) <= HeldRev(e)
    ensures Forward(s, e)
  {
    SameHistory(s.full, s.pollStart, HeldRev(s));
  }

  lemma SentRevBehind(s: State)
    requires Inv(s)
    ensures s.polledRev <= SentRev(s) <= s.pollRev
  {
  }

  /** Fetching and deciding: what is in hand only reaches further. */
  lemma ReadForward(s: State, a: Action)
    requires Inv(s) && (a.PollFetch? || a.PollDecide?)
    ensures Forward(s, ApplyPoll(s, a))
  {
    SameHistory(s.full, s.pollStart, HeldRev(s));
    hide After, Decide, KeepsRows, FillGaps, CompactRow, Ops, EventsBetween;
    if a.PollFetch? && s.phase.Marked? {
      var batch := After(s.t, "", "", s.pollRev, a.limit);
      FetchedVerdict(s.t, s.full, s.nextId, s.pollStart, s.pollRev, s.skip, batch);
    } else if a.PollDecide? && s.phase.Fetched? {
      LateTakesMore(s.phase.batch, s.pollRev, s.skip, a.late);
      GapsKeepRows(s.full, s.pollRev, Decide(s.phase.batch, s.pollRev, s.skip, a.late).rev, s.pollStart, HeldRev(s));
    }
  }

  lemma QuietPollForward(s: State, a: Action)
    requires s.polledRev <= SentRev(s) <= s.pollRev
    requires a.PollMark? || a.PollSend? || (a.PollFill? && !s.phase.Decided?) || (a.PollCas? && !s.phase.Filled?)
             || IsOpStep(a) || IsCompactStep(a)
    ensures Forward(s, ApplyPoll(s, a))
  {
    QuietForward(s, ApplyPoll(s, a));
  }

  lemma PollForward(s: State, a: Action)
    requires Inv(s) && Allowed(s, a)
    ensures Forward(s, ApplyPoll(s, a))
  {
    hide Inv, Forward;
    if a.PollFill? && s.phase.Decided? {
      if s.phase.v.rev + 1 !in s.t { FillSlotOpen(s, s.phase.v); }
      FillForward(s, s.phase.v);
    } else if a.PollCas? && s.phase.Filled? {
      CasForward(s, s.phase.v);
    } else if a.PollFetch? || a.PollDecide? {
      ReadForward(s, a);
    } else {
      SentRevBehind(s);
      QuietPollForward(s, a);
    }
  }

  lemma CompactForward(s: State, a: Action)
    requires Inv(s) && Allowed(s, a) && IsCompactStep(a)
    ensures Forward(s, ApplyCompact(s, a))
  {
    match a
    case Compact(target, minRetain) =>
      var to := SafeCompactRev(target, MaxId(s.t), minRetain);
      if CompactRev(s.t) < to { CompactedForward(s, to); } else { QuietForward(s, s); }
    case ReliefStart(_) => QuietForward(s, ApplyCompact(s, a));
    case ReliefBatch(batchSize) => ReliefForward(s, batchSize);
  }

  lemma ReliefForward(s: State, batchSize: int)
    requires Tables(s.t, s.full, s.nextId, s.pollStart, HeldRev(s)) && CompactRow(s.t, s.full)
    ensures Forward(s, ApplyCompact(s, ReliefBatch(batchSize)))
  {
    hide Forward, Tables, CompactRow;
    if s.relief.Some? {
      var to := BatchTarget(s.t, s.relief.value, batchSize);
      if to.Some? { CompactedForward(s, to.value); } else { QuietForward(s, ApplyCompact(s, ReliefBatch(batchSize))); }
    } else {
      QuietForward(s, s);
    }
  }

  lemma StepForward(s: State, a: Action)
    requires Inv(s) && Allowed(s, a)
    ensures Forward(s, Apply(s, a))
  {
    if IsOpStep(a) { OpForward(s, a); }
    else if IsCompactStep(a) { CompactForward(s, a); }
    else { PollForward(s, a); }
  }

  lemma CachesBelowHead(s: State)
    requires Inv(s)
    ensures s.currentRev <= MaxId(s.t) && s.polledRev <= MaxId(s.t)
  {
  }

  /** In every run both caches only move forward and stay at or below MAX(id), which itself never moves back. */
  lemma {:induction false} CachesMoveForward(s: State, actions: seq<Action>)
    requires Inv(s) && AllowedRun(s, actions)
    ensures var e := Run(s, actions);
            Forward(s, e) && e.currentRev <= MaxId(e.t) && e.polledRev <= MaxId(e.t)
    decreases |actions|
  {
    RunKeeps(s, actions);
    CachesBelowHead(Run(s, actions));
    SameHistory(s.full, s.pollStart, HeldRev(s));
    hide Inv;
    if actions != [] {
      var s1 := Apply(s, actions[0]);
      StepKeeps(s, actions[0]);
      StepForward(s, actions[0]);
      CachesMoveForward(s1, actions[1..]);
      ForwardTransitive(s, s1, Run(s, actions));
    }
  }

  lemma ForwardTransitive(a: State, b: State, c: State)
    requires Forward(a, b) && Forward(b, c)
    ensures Forward(a, c)
  {
    assert a.sent <= b.sent <= c.sent;
  }

  predicate NobodyWrites(actions: seq<Action>) {
    forall a :: a in actions ==> !a.Cas?
  }

  lemma QuietCache(s: State, a: Action)
    requires s.currentRev == s.pollRev && !a.Cas?
    ensures Apply(s, a).currentRev == Apply(s, a).pollRev
  {
  }

  /** Once the cached revision is the poller's, it stays so in every run while no writer moves it. */
  lemma {:induction false} CacheFollowsPoller(s: State, actions: seq<Action>)
    requires s.currentRev == s.pollRev && NobodyWrites(actions)
    ensures Run(s, actions).currentRev == Run(s, actions).pollRev
    decreases |actions|
  {
    if actions != [] {
      assert actions[0] in actions;
      QuietCache(s, actions[0]);
      CacheFollowsPoller(Apply(s, actions[0]), actions[1..]);
    }
  }

  /**
    A writer that loaded the cached revision moves it to its own row when nobody else has moved it since. Of two
    that loaded the same, only the first does: the other leaves the cache behind its own row.
   */
  lemma WritersMoveCache(s: State, a: nat, b: nat)
    requires a in s.ops && b in s.ops && a != b && s.ops[a].Committed? && s.ops[b].Committed?
    requires s.ops[a].cur == s.ops[b].cur == s.currentRev && s.currentRev < s.ops[a].id < s.ops[b].id
    ensures Apply(s, Cas(b)).currentRev == s.ops[b].id
    ensures Apply(Apply(s, Cas(b)), Cas(a)).currentRev == s.ops[b].id
    ensures Apply(Apply(s, Cas(a)), Cas(b)).currentRev == s.ops[a].id
  {
  }

  /** The first call for the current revision fills the cache with MAX(id), unless somebody was faster. */
  lemma QueryFillsCache(s: State, op: nat)
    requires op !in s.ops && s.currentRev == 0
    ensures Apply(Apply(s, Query(op)), Cas(op)).currentRev == MaxId(s.t)
  {
  }

  /** WaitForSyncTo returns once polledRev reaches the revision: everything up to it was handed out by then. */
  lemma SyncMeansSent(s: State, revision: nat)
    requires Inv(s) && revision <= s.polledRev
    ensures EventsBetween(s.full, s.pollStart, revision) <= s.sent
    ensures forall i :: s.pollStart < i <= revision && i in s.t && !IsFill(s.t[i].name) ==> Versioned(i, s.t[i]) in s.sent
  {
    if s.pollStart <= revision {
      EventsSplit(s.full, s.pollStart, revision, SentRev(s));
    }
    EventsBetweenExact(s.full, s.pollStart, SentRev(s));
  }
}

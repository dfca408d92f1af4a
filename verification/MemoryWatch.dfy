/**
  The log of the in-memory backend under compaction, and what its watchers get. A compaction keeps the
  entry at its target, while the index of a watch pass assumes that it does not: from then on every pass
  starts one entry too early for each compaction there has been.
 */
module MemoryWatch {
  import opened Names
  import opened MemoryStore

  /** After n compactions: dense, ordered, and n entries longer than its index assumes. */
  predicate LogOk(s: Store, n: nat) {
    && n <= s.compact <= s.current
    && |s.log| == s.current - s.compact + n
    && forall i :: 0 <= i < |s.log| ==> s.log[i].revision == s.compact + 1 - n + i
  }

  /** The successful compactions of a run. */
  function Compactions(ops: seq<Op>): nat {
    if ops == [] then 0
    else
      var before, op := ops[..|ops| - 1], ops[|ops| - 1];
      Compactions(before) + if op.Compact? && AnswerTo(Run(EMPTY, before), op).Compacted? then 1 else 0
  }

  lemma WriteKeepsLog(s: Store, op: Op, n: nat)
    requires LogOk(s, n) && !op.Compact?
    ensures LogOk(ApplyWrite(s, op), n)
  {
  }

  lemma CompactKeepsLog(s: Store, revision: int, n: nat)
    requires LogOk(s, n) && CompactAnswer(s, revision).Compacted?
    ensures 0 <= revision - s.compact - 1 < |s.log|
    ensures LogOk(CompactTo(s, revision), n + 1)
  {
  }

  /** The log of the store is the newest part of the log that was never trimmed. */
  predicate LogTail(s: Store, r: Store, n: nat) {
    && LogOk(s, n)
    && |r.log| == s.current == r.current
    && (forall i :: 0 <= i < |r.log| ==> r.log[i].revision == i + 1)
    && (forall i {:trigger s.log[i]} :: 0 <= i < |s.log| ==> Same(s.log[i], r.log[s.compact - n + i], s.compact))
  }

  lemma AppendKeepsTail(s: Store, r: Store, a: Entry, b: Entry, n: nat)
    requires LogTail(s, r, n) && Same(a, b, s.compact) && b.revision == s.current + 1
    ensures LogTail(Append(s, a), Append(r, b), n)
  {
    var s', r' := Append(s, a), Append(r, b);
    forall i | 0 <= i < |s'.log| ensures Same(s'.log[i], r'.log[s'.compact - n + i], s'.compact) {
      if i < |s.log| { assert Same(s.log[i], r.log[s.compact - n + i], s.compact); }
    }
  }

  lemma WriteKeepsTail(s: Store, r: Store, op: Op, n: nat)
    requires LogTail(s, r, n) && Reference(s, r) && !op.Compact?
    ensures LogTail(ApplyWrite(s, op), ApplyWrite(r, op), n)
  {
    var g, h := HistoryOf(s.keys, op.key), HistoryOf(r.keys, op.key);
    assert KeyOk(s.keys, r.keys, s.compact, op.key);
    WriteSame(g, h, s.compact, op, s.current);
    if Prepare(g, op, s.current).Some? {
      AppendKeepsTail(s, r, Prepare(g, op, s.current).value, Prepare(h, op, s.current).value, n);
    }
  }

  lemma CompactKeepsTail(s: Store, r: Store, revision: int, n: nat)
    requires LogTail(s, r, n) && CompactAnswer(s, revision).Compacted?
    ensures LogTail(CompactTo(s, revision), r.(compact := revision), n + 1)
  {
    CompactKeepsLog(s, revision, n);
    var cut := revision - s.compact - 1;
    var s' := CompactTo(s, revision);
    forall i | 0 <= i < |s'.log| ensures Same(s'.log[i], r.log[revision - (n + 1) + i], revision) {
      var j := cut + i;
      assert Same(s.log[j], r.log[s.compact - n + j], s.compact);
    }
  }

  lemma CompactStepKeepsTail(s: Store, r: Store, revision: int, n: nat)
    requires LogTail(s, r, n) && s.compact == r.compact
    ensures LogTail(Apply(s, Compact(revision)), ApplyReference(r, Compact(revision)),
                    n + if CompactAnswer(s, revision).Compacted? then 1 else 0)
  {
    if CompactAnswer(s, revision).Compacted? {
      assert Apply(s, Compact(revision)) == CompactTo(s, revision);
      assert ApplyReference(r, Compact(revision)) == r.(compact := revision);
      CompactKeepsTail(s, r, revision, n);
    }
  }

  lemma StepKeepsTail(s: Store, r: Store, op: Op, n: nat)
    requires LogTail(s, r, n) && Reference(s, r)
    ensures LogTail(Apply(s, op), ApplyReference(r, op), n + if op.Compact? && AnswerTo(s, op).Compacted? then 1 else 0)
  {
    if op.Compact? { CompactStepKeepsTail(s, r, op.revision, n); } else { WriteKeepsTail(s, r, op, n); }
  }

  /**
    After any operations the log is dense, holds one entry per revision from compact + 1 - n on (n the
    number of compactions), and holds what was written at those revisions.
   */
  lemma {:induction false} LogArithmetic(ops: seq<Op>)
    ensures LogTail(Run(EMPTY, ops), RunReference(EMPTY, ops), Compactions(ops))
  {
    if ops != [] {
      var before, op := ops[..|ops| - 1], ops[|ops| - 1];
      LogArithmetic(before);
      RunsAgree(before);
      hide LogTail, Reference, Apply, ApplyReference, AnswerTo;
      StepKeepsTail(Run(EMPTY, before), RunReference(EMPTY, before), op, Compactions(before));
    }
  }

  /** The next trim stays inside the log and never empties it. */
  lemma TrimInBounds(ops: seq<Op>, revision: int)
    requires CompactAnswer(Run(EMPTY, ops), revision).Compacted?
    ensures 0 <= revision - Run(EMPTY, ops).compact - 1 < |Run(EMPTY, ops).log|
  {
    LogArithmetic(ops);
    CompactKeepsLog(Run(EMPTY, ops), revision, Compactions(ops));
  }

  // --------------------------------------------------------------------- a pass

  datatype Event = Event(create: bool, delete: bool, kv: KeyValue, prevKv: KeyValue)

  function EventOf(e: Entry, prev: map<nat, Entry>): Event {
    Event(e.created, e.deleted, ToKeyValue(e),
          if e.revision in prev then ToKeyValue(prev[e.revision]) else KeyValue("", "", 0, e.prevRevision, 0, 0))
  }

  function Events(entries: seq<Entry>, prev: map<nat, Entry>, key: string, end: string): seq<Event> {
    if entries == [] then []
    else
      var e := entries[|entries| - 1];
      Events(entries[..|entries| - 1], prev, key, end) + (if InRange(e.key, key, end) then [EventOf(e, prev)] else [])
  }

  // ------------------------------------------------- the pointers to what was replaced

  /** A pointer of an entry leads to the entry before it in its history. */
  predicate PointsBack(h: History, prev: map<nat, Entry>) {
    forall j {:trigger h[j]} :: 1 <= j < |h| && h[j].revision in prev ==> prev[h[j].revision] == h[j - 1]
  }

  predicate Recorded(h: History, current: nat) {
    forall j :: 0 <= j < |h| ==> h[j].revision <= current
  }

  predicate PointerOk(s: Store, r: Store, v: nat) {
    && (v in s.prev ==> v in r.prev && Same(s.prev[v], r.prev[v], s.compact))
    && (v in r.prev && v !in s.prev ==> r.prev[v].revision <= s.compact)
    && (v in r.prev ==> v <= s.current)
  }

  /** Only pointers to what compaction has dropped are missing. */
  ghost predicate Pointers(s: Store, r: Store) {
    && (forall k {:trigger s.keys[k]} :: k in s.keys ==> PointsBack(s.keys[k], s.prev) && Recorded(s.keys[k], s.current))
    && (forall v {:trigger PointerOk(s, r, v)} :: PointerOk(s, r, v))
  }

  lemma AppendPointsBack(h: History, prev: map<nat, Entry>, e: Entry, current: nat)
    requires PointsBack(h, prev) && Recorded(h, current) && current < e.revision
    ensures PointsBack(h + [e], if h == [] then prev else prev[e.revision := h[|h| - 1]])
    ensures Recorded(h + [e], e.revision)
  {
  }

  lemma OtherPointsBack(h: History, prev: map<nat, Entry>, v: nat, e: Entry, current: nat)
    requires PointsBack(h, prev) && Recorded(h, current) && current < v
    ensures PointsBack(h, prev[v := e]) && Recorded(h, v)
  {
  }

  lemma AppendKeepsPointers(s: Store, r: Store, a: Entry, b: Entry)
    requires Pointers(s, r) && Reference(s, r) && Same(a, b, s.compact) && b.revision == s.current + 1
    ensures Pointers(Append(s, a), Append(r, b))
  {
    var s' := Append(s, a);
    var g := HistoryOf(s.keys, a.key);
    AppendPointersSame(s, r, a, b);
    forall k | k in s'.keys ensures PointsBack(s'.keys[k], s'.prev) && Recorded(s'.keys[k], s'.current) {
      if k == a.key {
        AppendPointsBack(g, s.prev, a, s.current);
      } else {
        OtherPointsBack(s.keys[k], s.prev, a.revision, if g == [] then a else g[|g| - 1], s.current);
      }
    }
  }

  lemma AppendPointersSame(s: Store, r: Store, a: Entry, b: Entry)
    requires Pointers(s, r) && Reference(s, r) && Same(a, b, s.compact) && b.revision == s.current + 1
    ensures forall v {:trigger PointerOk(Append(s, a), Append(r, b), v)} :: PointerOk(Append(s, a), Append(r, b), v)
  {
    assert KeyOk(s.keys, r.keys, s.compact, a.key);
    LatestSame(HistoryOf(s.keys, a.key), HistoryOf(r.keys, a.key), s.compact);
    forall v ensures PointerOk(Append(s, a), Append(r, b), v) { assert PointerOk(s, r, v); }
  }

  lemma TrimPointsBack(h: History, prev: map<nat, Entry>, cleared: set<nat>, revision: int, current: nat)
    requires PointsBack(h, prev) && Recorded(h, current)
    ensures PointsBack(Trim(h, revision), prev - cleared) && Recorded(Trim(h, revision), current)
  {
    var d, t := Rest(h, revision), Trim(h, revision);
    assert forall j :: 0 <= j < |t| ==> t[j] == h[d + j];
  }

  /** What a cleared pointer led to is at or below the target. */
  lemma ClearedWasOld(h: History, prev: map<nat, Entry>, revision: int, v: nat)
    requires PointsBack(h, prev) && v in ClearedOf(h, revision) && v in prev
    ensures prev[v].revision <= revision
  {
    var d := Rest(h, revision);
    assert h[d].revision == v && 1 <= d;
  }

  lemma CompactKeepsPointers(s: Store, r: Store, revision: nat)
    requires Pointers(s, r) && s.compact <= revision
    ensures Pointers(CompactTo(s, revision), r.(compact := revision))
  {
    var s', r' := CompactTo(s, revision), r.(compact := revision);
    forall k | k in s'.keys ensures PointsBack(s'.keys[k], s'.prev) && Recorded(s'.keys[k], s'.current) {
      TrimPointsBack(s.keys[k], s.prev, Cleared(s.keys, revision), revision, s.current);
    }
    forall v ensures PointerOk(s', r', v) {
      assert PointerOk(s, r, v);
      if v in s.prev && v !in s'.prev {
        var k :| k in s.keys && v in ClearedOf(s.keys[k], revision);
        ClearedWasOld(s.keys[k], s.prev, revision, v);
      }
    }
  }

  lemma StepKeepsPointers(s: Store, r: Store, op: Op)
    requires Pointers(s, r) && Reference(s, r)
    ensures Pointers(Apply(s, op), ApplyReference(r, op))
  {
    if op.Compact? {
      if CompactAnswer(s, op.revision).Compacted? { CompactKeepsPointers(s, r, op.revision); }
    } else {
      var g, h := HistoryOf(s.keys, op.key), HistoryOf(r.keys, op.key);
      assert KeyOk(s.keys, r.keys, s.compact, op.key);
      WriteSame(g, h, s.compact, op, s.current);
      if Prepare(g, op, s.current).Some? {
        AppendKeepsPointers(s, r, Prepare(g, op, s.current).value, Prepare(h, op, s.current).value);
      }
    }
  }

  lemma {:induction false} PointersHold(ops: seq<Op>)
    ensures Pointers(Run(EMPTY, ops), RunReference(EMPTY, ops))
  {
    if ops == [] {
      forall v ensures PointerOk(EMPTY, EMPTY, v) { }
    } else {
      var before := ops[..|ops| - 1];
      PointersHold(before);
      RunsAgree(before);
      StepKeepsPointers(Run(EMPTY, before), RunReference(EMPTY, before), ops[|ops| - 1]);
    }
  }

  /**
    Watchers of the compacted store are sent the events of the one that forgot nothing. They differ in the
    previous value alone, and only where that is of an entry at or below the compact revision.
   */
  lemma EventsAgree(ops: seq<Op>, i: nat)
    requires i < |Run(EMPTY, ops).log|
    ensures var s, r := Run(EMPTY, ops), RunReference(EMPTY, ops);
            var j := s.log[i].revision - 1;
            && 0 <= j < |r.log|
            && var a, b := EventOf(s.log[i], s.prev), EventOf(r.log[j], r.prev);
               && a.(prevKv := b.prevKv) == b
               && (a == b || b.prevKv.modRevision <= s.compact)
  {
    LogArithmetic(ops);
    PointersHold(ops);
    EventSame(Run(EMPTY, ops), RunReference(EMPTY, ops), Compactions(ops), i);
  }

  lemma EventSame(s: Store, r: Store, n: nat, i: nat)
    requires LogTail(s, r, n) && Pointers(s, r) && i < |s.log|
    ensures var j := s.log[i].revision - 1;
            && 0 <= j < |r.log|
            && var a, b := EventOf(s.log[i], s.prev), EventOf(r.log[j], r.prev);
               && a.(prevKv := b.prevKv) == b
               && (a == b || b.prevKv.modRevision <= s.compact)
  {
    var v := s.log[i].revision;
    assert Same(s.log[i], r.log[v - 1], s.compact);
    assert PointerOk(s, r, v);
  }

  /** logIndexAfter. */
  function IndexAfter(s: Store, rev: int): (i: nat)
    ensures i <= |s.log|
  {
    var i := rev - s.compact;
    if i < 0 then 0 else if i > |s.log| then |s.log| else i
  }

  /** What one pass looks at. */
  function PassEntries(s: Store, lastSeen: int): seq<Entry> {
    s.log[IndexAfter(s, lastSeen)..]
  }

  function SeenAfter(s: Store, lastSeen: int): int {
    var p := PassEntries(s, lastSeen);
    if p == [] then lastSeen else p[|p| - 1].revision
  }

  /** The first revision a pass sends. */
  function First(s: Store, n: nat, lastSeen: int): int {
    (if lastSeen < s.compact then s.compact else lastSeen) + 1 - n
  }

  /** A pass sends the revisions from First to the current one, and nothing else. */
  lemma PassIs(s: Store, n: nat, lastSeen: int)
    requires LogOk(s, n)
    ensures var p, first := PassEntries(s, lastSeen), First(s, n, lastSeen);
            && |p| == (if first <= s.current then s.current + 1 - first else 0)
            && (forall i :: 0 <= i < |p| ==> p[i].revision == first + i)
            && SeenAfter(s, lastSeen) == if first <= s.current then s.current else lastSeen
  {
  }

  predicate Sends(p: seq<Entry>, rev: int) {
    exists i :: 0 <= i < |p| && p[i].revision == rev
  }

  lemma SendsRange(s: Store, n: nat, lastSeen: int, rev: int)
    requires LogOk(s, n)
    ensures Sends(PassEntries(s, lastSeen), rev) <==> First(s, n, lastSeen) <= rev <= s.current
  {
    PassIs(s, n, lastSeen);
    if First(s, n, lastSeen) <= rev <= s.current {
      assert PassEntries(s, lastSeen)[rev - First(s, n, lastSeen)].revision == rev;
    }
  }

  /**
    From a position the compaction has not passed, a pass skips nothing; it sends nothing again exactly when
    there has been no compaction (or nothing lies that far back).
   */
  lemma NeverSkipsInWindow(s: Store, n: nat, lastSeen: int)
    requires LogOk(s, n) && s.compact <= lastSeen <= s.current
    ensures forall rev :: lastSeen < rev <= s.current ==> Sends(PassEntries(s, lastSeen), rev)
    ensures forall rev :: Sends(PassEntries(s, lastSeen), rev) <==> lastSeen + 1 - n <= rev <= s.current
    ensures (forall rev :: Sends(PassEntries(s, lastSeen), rev) ==> lastSeen < rev) <==> n == 0
  {
    forall rev ensures Sends(PassEntries(s, lastSeen), rev) <==> lastSeen + 1 - n <= rev <= s.current {
      SendsRange(s, n, lastSeen, rev);
    }
    if n > 0 { SendsRange(s, n, lastSeen, lastSeen); }
  }

  /** Elsewhere: a pass loses a revision exactly when compaction has passed the watcher by more than the extra entries. */
  lemma SkipsIffFarBehind(s: Store, n: nat, lastSeen: int)
    requires LogOk(s, n) && lastSeen < s.current
    ensures (exists rev :: lastSeen < rev <= s.current && !Sends(PassEntries(s, lastSeen), rev)) <==> lastSeen + n < s.compact
  {
    SendsRange(s, n, lastSeen, lastSeen + 1);
    if s.compact <= lastSeen + n {
      forall rev | lastSeen < rev <= s.current ensures Sends(PassEntries(s, lastSeen), rev) {
        SendsRange(s, n, lastSeen, rev);
      }
    }
  }

  // ------------------------------------------------------------- a whole watch

  datatype Step = Do(op: Op) | Pass

  datatype Watch = Watch(s: Store, lastSeen: int, delivered: seq<Entry>, compactions: nat)

  function Take(w: Watch, step: Step): Watch {
    match step
    case Pass => w.(lastSeen := SeenAfter(w.s, w.lastSeen), delivered := w.delivered + PassEntries(w.s, w.lastSeen))
    case Do(op) =>
      w.(s := Apply(w.s, op),
         compactions := w.compactions + if op.Compact? && CompactAnswer(w.s, op.revision).Compacted? then 1 else 0)
  }

  function Steps(w: Watch, steps: seq<Step>): Watch {
    if steps == [] then w else Take(Steps(w, steps[..|steps| - 1]), steps[|steps| - 1])
  }

  /** No pass comes after a compaction has moved past the watcher by more than the extra entries. */
  predicate KeepsUp(w: Watch, steps: seq<Step>) {
    steps == []
    || (KeepsUp(w, steps[..|steps| - 1])
        && var v := Steps(w, steps[..|steps| - 1]);
           steps[|steps| - 1].Pass? ==> v.s.compact <= v.lastSeen + v.compactions)
  }

  lemma StepKeepsLog(w: Watch, step: Step)
    requires LogOk(w.s, w.compactions)
    ensures LogOk(Take(w, step).s, Take(w, step).compactions)
  {
    if step.Do? {
      if !step.op.Compact? { WriteKeepsLog(w.s, step.op, w.compactions); }
      else if CompactAnswer(w.s, step.op.revision).Compacted? { CompactKeepsLog(w.s, step.op.revision, w.compactions); }
    }
  }

  lemma PassCovers(w: Watch, from: int, rev: int)
    requires LogOk(w.s, w.compactions) && w.s.compact <= w.lastSeen + w.compactions
    requires from < rev <= Take(w, Pass).lastSeen
    requires rev <= w.lastSeen ==> Sends(w.delivered, rev)
    ensures Sends(Take(w, Pass).delivered, rev)
  {
    var p := PassEntries(w.s, w.lastSeen);
    PassIs(w.s, w.compactions, w.lastSeen);
    if rev <= w.lastSeen {
      var i :| 0 <= i < |w.delivered| && w.delivered[i].revision == rev;
      assert (w.delivered + p)[i].revision == rev;
    } else {
      SendsRange(w.s, w.compactions, w.lastSeen, rev);
      var i :| 0 <= i < |p| && p[i].revision == rev;
      assert (w.delivered + p)[|w.delivered| + i].revision == rev;
    }
  }

  /** A watch that keeps up is sent every revision from its start on, whatever writes and compactions come in between. */
  lemma {:induction false} NothingIsSkipped(w: Watch, steps: seq<Step>)
    requires LogOk(w.s, w.compactions) && w.delivered == [] && KeepsUp(w, steps)
    ensures var e := Steps(w, steps);
            && LogOk(e.s, e.compactions)
            && forall rev :: w.lastSeen < rev <= e.lastSeen ==> Sends(e.delivered, rev)
  {
    if steps != [] {
      var before, last := steps[..|steps| - 1], steps[|steps| - 1];
      NothingIsSkipped(w, before);
      var v := Steps(w, before);
      StepKeepsLog(v, last);
      if last.Pass? {
        forall rev | w.lastSeen < rev <= Take(v, Pass).lastSeen ensures Sends(Take(v, Pass).delivered, rev) {
          PassCovers(v, w.lastSeen, rev);
        }
      }
    }
  }

  // -------------------------------------------------------------- accepted watches

  /** Where a watch starts: the revision before the requested one, or the current one. */
  function StartSeen(s: Store, startRevision: int): int {
    if startRevision - 1 < 0 then s.current else startRevision - 1
  }

  /** No compaction goes past what the watcher has been sent. */
  predicate CompactsBehind(w: Watch, steps: seq<Step>) {
    steps == []
    || (CompactsBehind(w, steps[..|steps| - 1])
        && var v, last := Steps(w, steps[..|steps| - 1]), steps[|steps| - 1];
           last.Do? && last.op.Compact? && CompactAnswer(v.s, last.op.revision).Compacted? ==> last.op.revision <= v.lastSeen)
  }

  lemma {:induction false} StaysInWindow(w: Watch, steps: seq<Step>)
    requires LogOk(w.s, w.compactions) && w.s.compact <= w.lastSeen && CompactsBehind(w, steps)
    ensures var e := Steps(w, steps);
            KeepsUp(w, steps) && LogOk(e.s, e.compactions) && e.s.compact <= e.lastSeen
  {
    if steps != [] {
      var before, last := steps[..|steps| - 1], steps[|steps| - 1];
      StaysInWindow(w, before);
      var v := Steps(w, before);
      StepKeepsLog(v, last);
      if last.Pass? { PassIs(v.s, v.compactions, v.lastSeen); }
    }
  }

  /**
    A watch is refused from a revision at or before the compact one. Any other is sent every revision from the
    requested one, or past the current one when none is requested, up to the current one of its last pass, as
    long as no compaction goes past what it has been sent.
   */
  lemma AcceptedWatchGetsAll(s: Store, n: nat, startRevision: int, steps: seq<Step>)
    requires LogOk(s, n) && !(0 < startRevision <= s.compact)
    requires CompactsBehind(Watch(s, StartSeen(s, startRevision), [], n), steps + [Pass])
    ensures var e := Steps(Watch(s, StartSeen(s, startRevision), [], n), steps + [Pass]);
            && (forall rev :: 0 < startRevision <= rev <= e.s.current ==> Sends(e.delivered, rev))
            && (startRevision <= 0 ==> forall rev :: s.current < rev <= e.s.current ==> Sends(e.delivered, rev))
  {
    var w, all := Watch(s, StartSeen(s, startRevision), [], n), steps + [Pass];
    assert all[..|all| - 1] == steps;
    StaysInWindow(w, steps);
    StaysInWindow(w, all);
    NothingIsSkipped(w, all);
    var v := Steps(w, steps);
    PassIs(v.s, v.compactions, v.lastSeen);
  }

  /** With no compaction at all, a watch is sent every revision from its start on exactly once, in order. */
  lemma {:induction false} ExactWithoutCompaction(w: Watch, steps: seq<Step>)
    requires LogOk(w.s, 0) && w.compactions == 0 && w.delivered == [] && w.lastSeen >= 0
    requires w.s.compact == 0 && Steps(w, steps).compactions == 0
    ensures var e := Steps(w, steps);
            && LogOk(e.s, 0) && e.s.compact == 0
            && w.lastSeen <= e.lastSeen && |e.delivered| == e.lastSeen - w.lastSeen
            && forall i :: 0 <= i < |e.delivered| ==> e.delivered[i].revision == w.lastSeen + 1 + i
  {
    if steps != [] {
      var before, last := steps[..|steps| - 1], steps[|steps| - 1];
      var v := Steps(w, before);
      ExactWithoutCompaction(w, before);
      StepKeepsLog(v, last);
      if last.Pass? { PassIs(v.s, 0, v.lastSeen); }
    }
  }

  /** After a compaction, two passes with nothing new in between send entries again. */
  lemma IdlePassRepeats(w: Watch)
    requires LogOk(w.s, w.compactions) && 0 < w.compactions && w.lastSeen == w.s.current
    ensures Take(w, Pass).delivered == w.delivered + w.s.log[|w.s.log| - w.compactions..]
    ensures w.s.log[|w.s.log| - w.compactions..] != []
  {
  }
}

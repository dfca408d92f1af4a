/**
  What the calls of the in-memory backend mean, told from the log of everything that was ever written and from
  the operations that wrote it.
 */
module MemoryMeaning {
  import opened Options
  import opened Names
  import opened MemoryStore
  import opened MemoryWatch

  /** Every entry ever written, the oldest first. */
  function Written(ops: seq<Op>): seq<Entry> {
    RunReference(EMPTY, ops).log
  }

  /** The newest entry of a key. */
  function LastOf(log: seq<Entry>, key: string): (r: Option<Entry>)
    ensures r.Some? ==> r.value.key == key && exists i :: 0 <= i < |log| && log[i] == r.value
  {
    if log == [] then None
    else
      var e := log[|log| - 1];
      if e.key == key then Some(e) else LastOf(log[..|log| - 1], key)
  }

  /** The revision of the key's last create, 0 when there is none. */
  function Born(log: seq<Entry>, key: string): nat {
    if log == [] then 0
    else
      var e := log[|log| - 1];
      if e.key == key && e.created then e.revision else Born(log[..|log| - 1], key)
  }

  /** How many entries the key has since its last create, that one included. */
  function Since(log: seq<Entry>, key: string): nat {
    if log == [] then 0
    else
      var e := log[|log| - 1];
      if e.key != key then Since(log[..|log| - 1], key)
      else if e.created then 1
      else Since(log[..|log| - 1], key) + 1
  }

  predicate IsLive(log: seq<Entry>, key: string) {
    LastOf(log, key).Some? && !LastOf(log, key).value.deleted
  }

  /** The operation writes: a create of what is not live, an update of exactly the live revision, a delete of it or of any. */
  predicate Writes(log: seq<Entry>, op: Op) {
    if op.Compact? then false
    else if op.Create? then !IsLive(log, op.key)
    else IsLive(log, op.key) && (LastOf(log, op.key).value.revision == op.revision || (op.Delete? && op.revision == 0))
  }

  /** Field by field, what e is when op appends it to the log. */
  predicate Appended(log: seq<Entry>, op: Op, e: Entry)
    requires Writes(log, op)
  {
    var last := LastOf(log, op.key);
    && e.revision == |log| + 1 && e.key == op.key
    && (e.created <==> op.Create?) && (e.deleted <==> op.Delete?)
    && e.prevRevision == (if last.Some? then last.value.revision else 0)
    && e.value == (if op.Delete? then last.value.value else op.value)
    && e.lease == (if op.Delete? then last.value.lease else op.lease)
    && e.createRevision == (if op.Create? then |log| + 1 else Born(log, op.key))
    && e.version == (if op.Create? then 1 else if op.Update? then Since(log, op.key) + 1 else Since(log, op.key))
  }

  predicate Shows(kv: KeyValue, e: Entry) {
    && kv.key == e.key && kv.value == e.value && kv.lease == e.lease
    && kv.createRevision == e.createRevision && kv.modRevision == e.revision && kv.version == e.version
  }

  /** The newest entry when it is live, else nothing. */
  predicate ShowsLive(kv: Option<KeyValue>, log: seq<Entry>, key: string) {
    if IsLive(log, key) then kv.Some? && Shows(kv.value, LastOf(log, key).value) else kv == None
  }

  // -------------------------------------------------------------- the invariant

  function OfKey(log: seq<Entry>, key: string): History {
    if log == [] then []
    else OfKey(log[..|log| - 1], key) + if log[|log| - 1].key == key then [log[|log| - 1]] else []
  }

  /** The newest entry of a key carries its create revision and its version; a tombstone adds none. */
  predicate Dated(log: seq<Entry>, key: string) {
    var last := LastOf(log, key);
    last.Some? ==>
      && last.value.createRevision == Born(log, key)
      && last.value.version + (if last.value.deleted then 1 else 0) == Since(log, key)
  }

  /** The pointer of the entry at v leads to the entry of the key before it. */
  predicate PrevIs(log: seq<Entry>, prev: map<nat, Entry>, v: nat) {
    if 1 <= v <= |log| then
      var last := LastOf(log[..v - 1], log[v - 1].key);
      (v in prev <==> last.Some?) && (v in prev ==> prev[v] == last.value)
    else v !in prev
  }

  predicate KeyMeant(r: Store, k: string) {
    HistoryOf(r.keys, k) == OfKey(r.log, k) && Dated(r.log, k)
  }

  ghost predicate Meant(r: Store) {
    && r.current == |r.log|
    && (forall i :: 0 <= i < |r.log| ==> r.log[i].revision == i + 1)
    && (forall k {:trigger KeyMeant(r, k)} :: KeyMeant(r, k))
    && (forall v {:trigger PrevIs(r.log, r.prev, v)} :: PrevIs(r.log, r.prev, v))
  }

  lemma {:induction false} LatestOfKey(log: seq<Entry>, key: string)
    ensures Latest(OfKey(log, key)) == LastOf(log, key)
  {
    if log != [] { LatestOfKey(log[..|log| - 1], key); }
  }

  /** One more entry. */
  lemma OneMore(log: seq<Entry>, e: Entry, key: string)
    ensures LastOf(log + [e], key) == if e.key == key then Some(e) else LastOf(log, key)
    ensures Born(log + [e], key) == if e.key == key && e.created then e.revision else Born(log, key)
    ensures Since(log + [e], key) == if e.key != key then Since(log, key) else if e.created then 1 else Since(log, key) + 1
    ensures OfKey(log + [e], key) == OfKey(log, key) + if e.key == key then [e] else []
  {
    assert (log + [e])[..|log|] == log;
  }

  lemma PreparedIs(r: Store, op: Op)
    requires Meant(r) && !op.Compact?
    ensures var e := Prepare(HistoryOf(r.keys, op.key), op, r.current);
            (e.Some? <==> Writes(r.log, op)) && (e.Some? ==> Appended(r.log, op, e.value))
  {
    assert KeyMeant(r, op.key);
    LatestOfKey(r.log, op.key);
  }

  lemma AppendMeant(r: Store, op: Op, e: Entry)
    requires Meant(r) && Writes(r.log, op) && Appended(r.log, op, e)
    ensures Meant(Append(r, e))
  {
    var r' := Append(r, e);
    forall k ensures KeyMeant(r', k) { AppendKeyMeant(r, op, e, k); }
    forall v: nat ensures PrevIs(r'.log, r'.prev, v) { AppendPrevIs(r, e, v); }
  }

  lemma AppendKeyMeant(r: Store, op: Op, e: Entry, k: string)
    requires KeyMeant(r, e.key) && KeyMeant(r, k) && Writes(r.log, op) && Appended(r.log, op, e)
    ensures KeyMeant(Append(r, e), k)
  {
    LatestOfKey(r.log, e.key);
    OneMore(r.log, e, k);
  }

  lemma AppendPrevIs(r: Store, e: Entry, v: nat)
    requires KeyMeant(r, e.key) && PrevIs(r.log, r.prev, v) && e.revision == |r.log| + 1
    ensures PrevIs(Append(r, e).log, Append(r, e).prev, v)
  {
    var log, log' := r.log, Append(r, e).log;
    LatestOfKey(log, e.key);
    if 1 <= v <= |log'| {
      assert log'[..v - 1] == log[..v - 1] && log'[v - 1] == if v <= |log| then log[v - 1] else e;
      assert log[..|log|] == log;
    }
  }

  lemma StepMeant(r: Store, op: Op)
    requires Meant(r)
    ensures Meant(ApplyReference(r, op))
  {
    if op.Compact? {
      var r' := ApplyReference(r, op);
      forall k ensures KeyMeant(r', k) { assert KeyMeant(r, k); }
      forall v: nat ensures PrevIs(r'.log, r'.prev, v) { assert PrevIs(r.log, r.prev, v); }
    } else {
      PreparedIs(r, op);
      var e := Prepare(HistoryOf(r.keys, op.key), op, r.current);
      if e.Some? { AppendMeant(r, op, e.value); }
    }
  }

  lemma {:induction false} RunMeant(ops: seq<Op>)
    ensures Meant(RunReference(EMPTY, ops))
  {
    if ops == [] {
      forall k ensures KeyMeant(EMPTY, k) { }
      forall v: nat ensures PrevIs(EMPTY.log, EMPTY.prev, v) { }
    } else {
      RunMeant(ops[..|ops| - 1]);
      StepMeant(RunReference(EMPTY, ops[..|ops| - 1]), ops[|ops| - 1]);
    }
  }

  // ------------------------------------------------------------------ the writes

  lemma RunOneMore(ops: seq<Op>, op: Op)
    ensures Run(EMPTY, ops + [op]) == Apply(Run(EMPTY, ops), op)
    ensures RunReference(EMPTY, ops + [op]) == ApplyReference(RunReference(EMPTY, ops), op)
  {
    assert (ops + [op])[..|ops|] == ops;
  }

  /**
    After any operations, a write appends exactly when the key's newest entry allows it: a create when it is
    missing or deleted, an update when it is live and has exactly the given revision, a delete when it is
    live and the revision is that or 0. Field by field, the entry is the one asked for; otherwise the store
    stays as it is.
   */
  lemma WritesMean(ops: seq<Op>, op: Op)
    requires !op.Compact?
    ensures var log, log' := Written(ops), Written(ops + [op]);
            if Writes(log, op) then |log'| == |log| + 1 && log == log'[..|log|] && Appended(log, op, log'[|log|])
            else log' == log
    ensures var s, s' := Run(EMPTY, ops), Run(EMPTY, ops + [op]);
            if Writes(Written(ops), op)
            then exists e :: s'.log == s.log + [e] && Same(e, Written(ops + [op])[|Written(ops)|], s.compact)
            else s' == s
  {
    RunMeant(ops);
    RunsAgree(ops);
    RunOneMore(ops, op);
    var s, r := Run(EMPTY, ops), RunReference(EMPTY, ops);
    PreparedIs(r, op);
    var g, h := HistoryOf(s.keys, op.key), HistoryOf(r.keys, op.key);
    assert KeyOk(s.keys, r.keys, s.compact, op.key);
    WriteSame(g, h, s.compact, op, s.current);
    if Writes(r.log, op) {
      var a := Prepare(g, op, s.current).value;
      assert Run(EMPTY, ops + [op]).log == s.log + [a];
      assert r.log == (r.log + [Prepare(h, op, r.current).value])[..|r.log|];
    }
  }

  /** The answer to an operation: the new revision or the current one, and what it wrote, removed or found. */
  predicate Answers(log: seq<Entry>, op: Op, log': seq<Entry>, r: Result)
    requires !op.Compact?
  {
    if Writes(log, op) then
      && r.Wrote? && r.rev == |log| + 1 == |log'|
      && (op.Create? ==> r.kv == None)
      && (op.Update? ==> r.kv.Some? && Shows(r.kv.value, log'[|log|]))
      && (op.Delete? ==> ShowsLive(r.kv, log, op.key))
    else if op.Create? then r == KeyExists(|log|)
    else r.NotWritten? && r.rev == |log| && ShowsLive(r.kv, log, op.key)
  }

  /** And so it answers. */
  lemma AnswersMean(ops: seq<Op>, op: Op)
    requires !op.Compact?
    ensures Answers(Written(ops), op, Written(ops + [op]), AnswerTo(Run(EMPTY, ops), op))
  {
    WritesMean(ops, op);
    RunMeant(ops);
    CompactionIsInvisible(ops, op, "", "", 0, 0, false);
    RunOneMore(ops, op);
    AnswerIs(RunReference(EMPTY, ops), op);
    hide Meant, Run, RunReference, Answers;
  }

  lemma AnswerIs(r: Store, op: Op)
    requires Meant(r) && !op.Compact?
    ensures Answers(r.log, op, ApplyWrite(r, op).log, AnswerTo(r, op))
  {
    PreparedIs(r, op);
    assert KeyMeant(r, op.key);
    LatestOfKey(r.log, op.key);
  }

  /** The last compaction that succeeded: past the one before, and not past the newest revision of its time. */
  function LastCompaction(ops: seq<Op>): nat {
    if ops == [] then 0
    else
      var before, op := ops[..|ops| - 1], ops[|ops| - 1];
      if op.Compact? && LastCompaction(before) < op.revision <= |Written(before)| then op.revision else LastCompaction(before)
  }

  lemma {:induction false} CompactIsLast(ops: seq<Op>)
    ensures Run(EMPTY, ops).compact == LastCompaction(ops) && Run(EMPTY, ops).current == |Written(ops)|
  {
    RunsAgree(ops);
    RunMeant(ops);
    if ops != [] { CompactIsLast(ops[..|ops| - 1]); }
  }

  /** A compaction is refused past the newest revision, and at or before the last one. */
  lemma CompactionMeans(ops: seq<Op>, revision: int)
    ensures var current, last := |Written(ops)|, LastCompaction(ops);
            && (AnswerTo(Run(EMPTY, ops), Compact(revision)).ErrFutureRev? <==> current < revision)
            && (AnswerTo(Run(EMPTY, ops), Compact(revision)).ErrCompacted? <==> revision <= current && revision <= last)
            && (last < revision <= current ==>
                  AnswerTo(Run(EMPTY, ops), Compact(revision)) == Compacted(current)
                  && Run(EMPTY, ops + [Compact(revision)]).compact == revision)
            && Written(ops + [Compact(revision)]) == Written(ops)
  {
    CompactIsLast(ops);
    RunOneMore(ops, Compact(revision));
  }

  // ------------------------------------------------------------------ the reads

  /** m is what the keys of the range were when the log ended here. */
  ghost predicate IsView(m: map<string, KeyValue>, log: seq<Entry>, key: string, end: string, keysOnly: bool) {
    && (forall n :: n in m <==> Between(n, key, end) && IsLive(log, n))
    && (forall n :: n in m ==> Shows(m[n], LastOf(log, n).value.(value := if keysOnly then "" else LastOf(log, n).value.value)))
  }

  lemma {:induction false} FloorAll(h: History, rev: int)
    requires forall i :: 0 <= i < |h| ==> h[i].revision <= rev
    ensures Floor(h, rev) == |h|
  {
    if h != [] { FloorAll(h[1..], rev); }
  }

  lemma {:induction false} OfKeyFrom(log: seq<Entry>, key: string)
    ensures forall i :: 0 <= i < |OfKey(log, key)| ==> OfKey(log, key)[i] in log
  {
    if log != [] { OfKeyFrom(log[..|log| - 1], key); }
  }

  /** The entry of a key at a revision is the newest one of the log up to that revision. */
  lemma {:induction false} AtIsLast(log: seq<Entry>, key: string, rev: nat)
    requires (forall i :: 0 <= i < |log| ==> log[i].revision == i + 1) && rev <= |log|
    ensures AtRevision(OfKey(log, key), rev) == LastOf(log[..rev], key)
  {
    if rev == |log| {
      AtNewest(log, key, rev);
      assert log[..rev] == log;
    } else {
      var before, e := log[..|log| - 1], log[|log| - 1];
      hide LastOf, OfKey, AtRevision;
      AtIsLast(before, key, rev);
      assert before[..rev] == log[..rev] && log == before + [e];
      AtAppended(before, e, key, rev);
    }
  }

  lemma AtAppended(log: seq<Entry>, e: Entry, key: string, rev: nat)
    requires rev < e.revision
    ensures AtRevision(OfKey(log + [e], key), rev) == AtRevision(OfKey(log, key), rev)
  {
    hide OfKey, Floor, LastOf, Born, Since;
    OneMore(log, e, key);
    var h := OfKey(log, key);
    FloorAppend(h, e, rev);
    assert h + [] == h;
    if Floor(h, rev) != 0 { assert (h + [e])[Floor(h, rev) - 1] == h[Floor(h, rev) - 1]; }
  }

  lemma AtNewest(log: seq<Entry>, key: string, rev: nat)
    requires forall i :: 0 <= i < |log| ==> log[i].revision <= rev
    ensures AtRevision(OfKey(log, key), rev) == LastOf(log, key)
  {
    var h := OfKey(log, key);
    OfKeyFrom(log, key);
    forall i | 0 <= i < |h| ensures h[i].revision <= rev { assert h[i] in log; }
    FloorAll(h, rev);
    LatestOfKey(log, key);
  }

  lemma ViewOf(r: Store, key: string, end: string, revision: int, keysOnly: bool)
    requires Meant(r) && revision <= r.current
    ensures IsView(Selected(r.keys, key, end, revision, keysOnly), r.log[..if revision > 0 then revision else |r.log|], key, end, keysOnly)
  {
    var at := if revision > 0 then revision else |r.log|;
    var m := Selected(r.keys, key, end, revision, keysOnly);
    hide LastOf, OfKey, Floor, Dated, PrevIs;
    forall n ensures n in m <==> Between(n, key, end) && IsLive(r.log[..at], n)
             ensures n in m ==> Shows(m[n], LastOf(r.log[..at], n).value.(value := if keysOnly then "" else LastOf(r.log[..at], n).value.value))
    {
      assert KeyMeant(r, n);
      AtIsLast(r.log, n, at);
      LatestOfKey(r.log, n);
      assert r.log[..|r.log|] == r.log;
    }
  }

  /**
    A list shows, in order of name and up to the limit, what was live in the range when the log ended at the
    given revision, or what is live now. It is refused exactly past the newest revision and before the
    last compaction.
   */
  lemma ListMeans(ops: seq<Op>, key: string, end: string, limit: int, revision: int, keysOnly: bool)
    ensures var log, last, reply := Written(ops), LastCompaction(ops), List(Run(EMPTY, ops), key, end, limit, revision, keysOnly);
            if revision > |log| then reply == FutureRev(|log|)
            else if 0 < revision < last then reply == CompactedRev(|log|)
            else
              && reply.Reply? && reply.rev == (if revision > 0 then revision else |log|)
              && exists m :: IsView(m, log[..reply.rev], key, end, keysOnly) && reply.kvs == Limit(Ordered(m), limit)
  {
    CompactIsLast(ops);
    RunMeant(ops);
    CompactionIsInvisible(ops, Compact(0), key, end, limit, revision, keysOnly);
    if revision <= |Written(ops)| { ViewOf(RunReference(EMPTY, ops), key, end, revision, keysOnly); }
  }

  // ------------------------------------------------------------------ the events

  /** The j-th operation wrote revision v. */
  predicate WroteAt(ops: seq<Op>, j: nat, v: nat) {
    j < |ops| && !ops[j].Compact? && |Written(ops[..j])| + 1 == v == |Written(ops[..j + 1])|
  }

  /** The last operation appended its entry, or nothing. */
  lemma LastStep(ops: seq<Op>)
    requires ops != []
    ensures var log, log', op := Written(ops[..|ops| - 1]), Written(ops), ops[|ops| - 1];
            log' == log
            || (Writes(log, op) && |log'| == |log| + 1 && log'[..|log|] == log && Appended(log, op, log'[|log|]))
  {
    var before, op := ops[..|ops| - 1], ops[|ops| - 1];
    assert ops == before + [op];
    if op.Compact? { CompactionMeans(before, op.revision); } else { WritesMean(before, op); }
  }

  /** Every entry was appended by one operation, to the log of its time. */
  lemma {:induction false} Writer(ops: seq<Op>, v: nat) returns (j: nat)
    requires 1 <= v <= |Written(ops)|
    ensures WroteAt(ops, j, v) && Written(ops[..j]) == Written(ops)[..v - 1]
    ensures Writes(Written(ops[..j]), ops[j]) && Appended(Written(ops[..j]), ops[j], Written(ops)[v - 1])
  {
    assert Written([]) == [];
    LastStep(ops);
    hide Written, Appended;
    var before := ops[..|ops| - 1];
    if v <= |Written(before)| {
      j := Writer(before, v);
      assert before[..j] == ops[..j] && before[..j + 1] == ops[..j + 1];
      assert Written(before)[..v - 1] == Written(ops)[..v - 1] && Written(before)[v - 1] == Written(ops)[v - 1];
    } else {
      j := |ops| - 1;
      assert ops[..j + 1] == ops;
    }
  }

  /** A previous value that is known by its revision alone. */
  function Bare(rev: nat): KeyValue {
    KeyValue("", "", 0, rev, 0, 0)
  }

  /** What an event says of the operation that wrote revision v on top of the log. */
  predicate Tells(log: seq<Entry>, op: Op, v: nat, compact: nat, ev: Event)
    requires Writes(log, op)
  {
    var last := LastOf(log, op.key);
    && (ev.create <==> op.Create?) && (ev.delete <==> op.Delete?)
    && ev.kv.key == op.key && ev.kv.modRevision == v
    && ev.kv.value == (if op.Delete? then last.value.value else op.value)
    && ev.kv.lease == (if op.Delete? then last.value.lease else op.lease)
    && ev.kv.createRevision == (if op.Create? then v else Born(log, op.key))
    && ev.kv.version == (if op.Create? then 1 else if op.Update? then Since(log, op.key) + 1 else Since(log, op.key))
    && (if last.None? then ev.prevKv == Bare(0)
        else Shows(ev.prevKv, last.value)
             || (last.value.revision <= compact
                 && (ev.prevKv == Bare(last.value.revision) || (op.Create? && ev.prevKv == Bare(0)))))
  }

  /**
    After any operations, the event of an entry in the log tells of the one operation that wrote its revision:
    its kind, its key and value, and what it replaced. Only of a replaced entry at or below the compact
    revision may it know no more than the revision.
   */
  lemma EventTells(ops: seq<Op>, i: nat) returns (j: nat)
    requires i < |Run(EMPTY, ops).log|
    ensures var s := Run(EMPTY, ops);
            var v := s.log[i].revision;
            && WroteAt(ops, j, v) && Writes(Written(ops[..j]), ops[j])
            && Tells(Written(ops[..j]), ops[j], v, s.compact, EventOf(s.log[i], s.prev))
  {
    var s, r := Run(EMPTY, ops), RunReference(EMPTY, ops);
    var v := s.log[i].revision;
    EntryFacts(ops, i);
    hide Run, RunReference, Same, PointerOk, PrevIs, Appended, Tells;
    j := Writer(ops, v);
    EntryTells(s, r, s.log[i], ops[j]);
  }

  lemma EntryFacts(ops: seq<Op>, i: nat)
    requires i < |Run(EMPTY, ops).log|
    ensures var s, r := Run(EMPTY, ops), RunReference(EMPTY, ops);
            var v := s.log[i].revision;
            1 <= v <= |r.log| && Same(s.log[i], r.log[v - 1], s.compact) && PointerOk(s, r, v) && PrevIs(r.log, r.prev, v)
  {
    LogArithmetic(ops);
    PointersHold(ops);
    RunMeant(ops);
    hide Run, RunReference;
    var s, r := Run(EMPTY, ops), RunReference(EMPTY, ops);
    var v := s.log[i].revision;
    assert Same(s.log[i], r.log[v - 1], s.compact);
    assert PointerOk(s, r, v) && PrevIs(r.log, r.prev, v);
  }

  lemma EntryTells(s: Store, r: Store, e: Entry, op: Op)
    requires 1 <= e.revision <= |r.log| && Same(e, r.log[e.revision - 1], s.compact)
    requires PointerOk(s, r, e.revision) && PrevIs(r.log, r.prev, e.revision)
    requires Writes(r.log[..e.revision - 1], op) && Appended(r.log[..e.revision - 1], op, r.log[e.revision - 1])
    ensures Tells(r.log[..e.revision - 1], op, e.revision, s.compact, EventOf(e, s.prev))
  {
  }

  /** An event of one of these entries, with a key in range. */
  predicate OneOf(ev: Event, entries: seq<Entry>, prev: map<nat, Entry>, key: string, end: string) {
    exists e :: e in entries && InRange(e.key, key, end) && ev == EventOf(e, prev)
  }

  /** The events of one pass: one for each entry it looks at whose key is in range, in order, and no other. */
  lemma {:induction false} EventsAre(entries: seq<Entry>, prev: map<nat, Entry>, key: string, end: string)
    requires forall a, b :: 0 <= a < b < |entries| ==> entries[a].revision < entries[b].revision
    ensures var evs := Events(entries, prev, key, end);
            && (forall ev :: ev in evs <==> OneOf(ev, entries, prev, key, end))
            && (forall a, b :: 0 <= a < b < |evs| ==> evs[a].kv.modRevision < evs[b].kv.modRevision)
  {
    if entries != [] {
      var before, e := entries[..|entries| - 1], entries[|entries| - 1];
      var evs, all := Events(before, prev, key, end), Events(entries, prev, key, end);
      EventsAre(before, prev, key, end);
      assert entries == before + [e];
      assert all == evs + if InRange(e.key, key, end) then [EventOf(e, prev)] else [];
      forall ev ensures ev in all <==> OneOf(ev, entries, prev, key, end) {
        assert ev in evs <==> OneOf(ev, before, prev, key, end);
      }
      forall k | 0 <= k < |evs| ensures evs[k].kv.modRevision < e.revision {
        assert evs[k] in evs && OneOf(evs[k], before, prev, key, end);
        var x :| x in before && InRange(x.key, key, end) && evs[k] == EventOf(x, prev);
        var i :| 0 <= i < |before| && before[i] == x;
        assert before[i] == entries[i];
      }
    }
  }

  /** The event tells of the operation that wrote its revision, which touched a key in range. */
  predicate ToldBy(ops: seq<Op>, j: nat, compact: nat, key: string, end: string, ev: Event) {
    && 0 <= ev.kv.modRevision && WroteAt(ops, j, ev.kv.modRevision) && Writes(Written(ops[..j]), ops[j])
    && InRange(ops[j].key, key, end) && Tells(Written(ops[..j]), ops[j], ev.kv.modRevision, compact, ev)
  }

  /**
    What a pass sends: for each revision it covers whose operation touched a key in range exactly one event,
    in order of revision, that tells of that operation.
   */
  lemma PassTells(ops: seq<Op>, lastSeen: int, key: string, end: string)
    ensures var s := Run(EMPTY, ops);
            var evs := Events(PassEntries(s, lastSeen), s.prev, key, end);
            && (forall a, b :: 0 <= a < b < |evs| ==> evs[a].kv.modRevision < evs[b].kv.modRevision)
            && (forall ev :: ev in evs ==>
                  Sends(PassEntries(s, lastSeen), ev.kv.modRevision) && exists j: nat :: ToldBy(ops, j, s.compact, key, end, ev))
            && (forall j: nat, v: nat :: WroteAt(ops, j, v) && Sends(PassEntries(s, lastSeen), v) && InRange(ops[j].key, key, end) ==>
                  exists ev :: ev in evs && ev.kv.modRevision == v)
  {
    var s := Run(EMPTY, ops);
    var entries := PassEntries(s, lastSeen);
    LogArithmetic(ops);
    PassIs(s, Compactions(ops), lastSeen);
    EventsAre(entries, s.prev, key, end);
    hide Run, Written, LogTail, Tells, Events, WroteAt, Writes, PassEntries, OneOf;
    var evs := Events(entries, s.prev, key, end);
    forall ev | ev in evs ensures Sends(entries, ev.kv.modRevision) && exists j: nat :: ToldBy(ops, j, s.compact, key, end, ev) {
      EachTold(ops, lastSeen, key, end, ev);
    }
    forall j: nat, v: nat | WroteAt(ops, j, v) && Sends(entries, v) && InRange(ops[j].key, key, end)
      ensures exists ev :: ev in evs && ev.kv.modRevision == v
    {
      var ev := EachSent(ops, lastSeen, key, end, j, v);
      assert ev in evs;
    }
  }

  lemma EachTold(ops: seq<Op>, lastSeen: int, key: string, end: string, ev: Event)
    requires OneOf(ev, PassEntries(Run(EMPTY, ops), lastSeen), Run(EMPTY, ops).prev, key, end)
    ensures Sends(PassEntries(Run(EMPTY, ops), lastSeen), ev.kv.modRevision)
    ensures exists j: nat :: ToldBy(ops, j, Run(EMPTY, ops).compact, key, end, ev)
  {
    hide Run, Written, Tells, Writes;
    var s := Run(EMPTY, ops);
    var entries := PassEntries(s, lastSeen);
    var e :| e in entries && InRange(e.key, key, end) && ev == EventOf(e, s.prev);
    var i :| 0 <= i < |entries| && entries[i] == e;
    assert s.log[IndexAfter(s, lastSeen) + i] == e;
    var j := EventTells(ops, IndexAfter(s, lastSeen) + i);
    EventKey(ops, j, e, s.compact, ev);
    assert ToldBy(ops, j, s.compact, key, end, ev);
  }

  lemma EventKey(ops: seq<Op>, j: nat, e: Entry, compact: nat, ev: Event)
    requires j < |ops| && Writes(Written(ops[..j]), ops[j]) && ev.kv.key == e.key && ev.kv.modRevision == e.revision
    requires Tells(Written(ops[..j]), ops[j], e.revision, compact, ev)
    ensures ops[j].key == e.key
  {
  }

  lemma EachSent(ops: seq<Op>, lastSeen: int, key: string, end: string, j: nat, v: nat) returns (ev: Event)
    requires WroteAt(ops, j, v) && InRange(ops[j].key, key, end) && Sends(PassEntries(Run(EMPTY, ops), lastSeen), v)
    ensures OneOf(ev, PassEntries(Run(EMPTY, ops), lastSeen), Run(EMPTY, ops).prev, key, end) && ev.kv.modRevision == v
  {
    hide Run, Written, Tells, Writes;
    var s := Run(EMPTY, ops);
    var entries := PassEntries(s, lastSeen);
    var i :| 0 <= i < |entries| && entries[i].revision == v;
    assert s.log[IndexAfter(s, lastSeen) + i] == entries[i];
    var k := EventTells(ops, IndexAfter(s, lastSeen) + i);
    OneWriter(ops, j, k, v);
    ev := EventOf(entries[i], s.prev);
    EventKey(ops, k, entries[i], s.compact, ev);
    assert entries[i] in entries;
  }

  lemma {:induction false} WrittenGrows(ops: seq<Op>, a: nat, b: nat)
    requires a <= b <= |ops|
    ensures |Written(ops[..a])| <= |Written(ops[..b])|
  {
    if a < b {
      WrittenGrows(ops, a, b - 1);
      assert ops[..b] == ops[..b - 1] + [ops[b - 1]];
      if ops[b - 1].Compact? { CompactionMeans(ops[..b - 1], ops[b - 1].revision); } else { WritesMean(ops[..b - 1], ops[b - 1]); }
    }
  }

  lemma OneWriter(ops: seq<Op>, j: nat, k: nat, v: nat)
    requires WroteAt(ops, j, v) && WroteAt(ops, k, v)
    ensures j == k
  {
    if j < k { WrittenGrows(ops, j + 1, k); }
    if k < j { WrittenGrows(ops, k + 1, j); }
  }
}

/**
  The in-memory backend: a log of entries by revision, a history of entries by key, and compaction that
  trims both. The store nobody compacts is its reference.
 */
module MemoryStore {
  import opened Options
  import opened Names

  type Bytes = string

  datatype Entry = Entry(revision: nat, key: string, value: Bytes, createRevision: nat, version: nat,
                         prevRevision: nat, lease: int, created: bool, deleted: bool)

  datatype KeyValue = KeyValue(key: string, value: Bytes, createRevision: nat, modRevision: nat, version: nat, lease: int)

  function ToKeyValue(e: Entry): KeyValue {
    KeyValue(e.key, e.value, e.createRevision, e.revision, e.version, e.lease)
  }

  type History = seq<Entry>

  /** prev is the pointer of an entry, by revision, to the entry it replaced. */
  datatype Store = Store(log: seq<Entry>, keys: map<string, History>, prev: map<nat, Entry>, current: nat, compact: nat)

  datatype Op =
    | Create(key: string, value: Bytes, lease: int)
    | Update(key: string, value: Bytes, revision: int, lease: int)
    | Delete(key: string, revision: int)
    | Compact(revision: int)

  datatype Result =
    | Wrote(rev: nat, kv: Option<KeyValue>)
    | KeyExists(rev: nat)
    | NotWritten(rev: nat, kv: Option<KeyValue>)
    | Compacted(rev: nat)
    | ErrFutureRev(rev: nat)
    | ErrCompacted(rev: nat)

  // ------------------------------------------------------------------- histories

  /** How many leading entries are at or below the revision: one more than the floor index of the loops. */
  function Floor(h: History, rev: int): (n: nat)
    ensures n <= |h|
    ensures forall i :: 0 <= i < n ==> h[i].revision <= rev
    ensures n < |h| ==> rev < h[n].revision
  {
    if h != [] && h[0].revision <= rev then 1 + Floor(h[1..], rev) else 0
  }

  function AtRevision(h: History, rev: int): Option<Entry> {
    if Floor(h, rev) == 0 then None else Some(h[Floor(h, rev) - 1])
  }

  function Latest(h: History): Option<Entry> {
    if h == [] then None else Some(h[|h| - 1])
  }

  /** Where the rest of a compacted history starts: at its floor, or after it when that is a tombstone. */
  function Rest(h: History, rev: int): (n: nat)
    ensures n <= Floor(h, rev) <= n + 1
  {
    var n := Floor(h, rev);
    if n == 0 || h[n - 1].deleted then n else n - 1
  }

  function Trim(h: History, rev: int): History {
    h[Rest(h, rev)..]
  }

  function HistoryOf(keys: map<string, History>, key: string): History {
    if key in keys then keys[key] else []
  }

  // ------------------------------------------------------------------- the steps

  /** The entry a write appends, or what it answers without one. */
  function Prepare(h: History, op: Op, rev: nat): (r: Option<Entry>)
    requires !op.Compact?
    ensures r.Some? ==> r.value.revision == rev + 1 && r.value.key == op.key
  {
    match op
    case Create(key, value, lease) =>
      if h != [] && !h[|h| - 1].deleted then None
      else Some(Entry(rev + 1, key, value, rev + 1, 1, if h == [] then 0 else h[|h| - 1].revision, lease, true, false))
    case Update(key, value, revision, lease) =>
      if h == [] || h[|h| - 1].deleted || h[|h| - 1].revision != revision then None
      else Some(Entry(rev + 1, key, value, h[|h| - 1].createRevision, h[|h| - 1].version + 1, h[|h| - 1].revision, lease, false, false))
    case Delete(key, revision) =>
      if h == [] || h[|h| - 1].deleted || (revision != 0 && h[|h| - 1].revision != revision) then None
      else var l := h[|h| - 1];
           Some(Entry(rev + 1, key, l.value, l.createRevision, l.version, l.revision, l.lease, false, true))
  }

  function Answer(h: History, op: Op, rev: nat): Result
    requires !op.Compact?
  {
    var e := Prepare(h, op, rev);
    match op
    case Create(_, _, _) => if e.Some? then Wrote(rev + 1, None) else KeyExists(rev)
    case Update(_, _, _, _) =>
      if e.Some? then Wrote(rev + 1, Some(ToKeyValue(e.value)))
      else NotWritten(rev, if h == [] || h[|h| - 1].deleted then None else Some(ToKeyValue(h[|h| - 1])))
    case Delete(_, _) =>
      if e.Some? then Wrote(rev + 1, Some(ToKeyValue(h[|h| - 1])))
      else NotWritten(rev, if h == [] || h[|h| - 1].deleted then None else Some(ToKeyValue(h[|h| - 1])))
  }

  /** appendEntry. */
  function Append(s: Store, e: Entry): Store {
    var h := HistoryOf(s.keys, e.key);
    s.(log := s.log + [e], keys := s.keys[e.key := h + [e]], current := e.revision,
       prev := if h == [] then s.prev else s.prev[e.revision := h[|h| - 1]])
  }

  function TrimKeys(keys: map<string, History>, rev: int): map<string, History> {
    map k | k in keys && Trim(keys[k], rev) != [] :: Trim(keys[k], rev)
  }

  /** The entry that becomes first of a shortened history loses its pointer. */
  function ClearedOf(h: History, rev: int): set<nat> {
    if Trim(h, rev) != [] && |Trim(h, rev)| != |h| then {Trim(h, rev)[0].revision} else {}
  }

  function Cleared(keys: map<string, History>, rev: int): set<nat> {
    set k, r | k in keys && r in ClearedOf(keys[k], rev) :: r
  }

  function Cut(log: seq<Entry>, n: int): seq<Entry> {
    if 0 < n <= |log| then log[n..] else log
  }

  function CompactTo(s: Store, rev: nat): Store {
    s.(log := Cut(s.log, rev - s.compact - 1), keys := TrimKeys(s.keys, rev), prev := s.prev - Cleared(s.keys, rev), compact := rev)
  }

  /** The answer of a compaction, the same for both stores. */
  function CompactAnswer(s: Store, revision: int): Result {
    if revision > s.current then ErrFutureRev(0)
    else if revision <= s.compact then ErrCompacted(0)
    else Compacted(s.current)
  }

  function AnswerTo(s: Store, op: Op): Result {
    if op.Compact? then CompactAnswer(s, op.revision) else Answer(HistoryOf(s.keys, op.key), op, s.current)
  }

  function ApplyWrite(s: Store, op: Op): Store
    requires !op.Compact?
  {
    var e := Prepare(HistoryOf(s.keys, op.key), op, s.current);
    if e.Some? then Append(s, e.value) else s
  }

  function Apply(s: Store, op: Op): Store {
    if !op.Compact? then ApplyWrite(s, op)
    else if CompactAnswer(s, op.revision).Compacted? then CompactTo(s, op.revision) else s
  }

  /** The reference remembers the compact revision and forgets nothing. */
  function ApplyReference(s: Store, op: Op): Store {
    if !op.Compact? then ApplyWrite(s, op)
    else if CompactAnswer(s, op.revision).Compacted? then s.(compact := op.revision) else s
  }

  const EMPTY: Store := Store([], map[], map[], 0, 0)

  function Run(s: Store, ops: seq<Op>): Store {
    if ops == [] then s else Apply(Run(s, ops[..|ops| - 1]), ops[|ops| - 1])
  }

  function RunReference(s: Store, ops: seq<Op>): Store {
    if ops == [] then s else ApplyReference(RunReference(s, ops[..|ops| - 1]), ops[|ops| - 1])
  }

  // ----------------------------------------------------------------------- reads

  datatype Reply = Reply(rev: nat, kvs: seq<KeyValue>) | FutureRev(rev: nat) | CompactedRev(rev: nat)

  function Seen(h: History, revision: int): Option<Entry> {
    if revision > 0 then AtRevision(h, revision) else Latest(h)
  }

  function Show(e: Entry, keysOnly: bool): KeyValue {
    var kv := ToKeyValue(e);
    if keysOnly then kv.(value := "") else kv
  }

  predicate Visible(h: History, revision: int) {
    Seen(h, revision).Some? && !Seen(h, revision).value.deleted
  }

  function Selected(keys: map<string, History>, key: string, end: string, revision: int, keysOnly: bool): (m: map<string, KeyValue>)
    ensures forall n :: n in m <==> n in keys && Between(n, key, end) && Visible(keys[n], revision)
  {
    map n | n in keys && Between(n, key, end) && Visible(keys[n], revision) :: Show(Seen(keys[n], revision).value, keysOnly)
  }

  function List(s: Store, key: string, end: string, limit: int, revision: int, keysOnly: bool): Reply {
    if revision > 0 && revision > s.current then FutureRev(s.current)
    else if revision > 0 && revision < s.compact then CompactedRev(s.current)
    else Reply(if revision > 0 then revision else s.current,
               Limit(Ordered(Selected(s.keys, key, end, revision, keysOnly)), limit))
  }

  // ------------------------------------------------------------------ simulation

  /** Only a create over a tombstone that was compacted away differs: it names no previous revision. */
  predicate Same(a: Entry, b: Entry, compact: nat) {
    && a == b.(prevRevision := a.prevRevision)
    && (a.prevRevision == b.prevRevision || (b.created && a.prevRevision == 0 && 0 < b.prevRevision <= compact))
  }

  predicate SameHistory(g: History, h: History, compact: nat) {
    |g| == |h| && forall i {:trigger Same(g[i], h[i], compact)} :: 0 <= i < |g| ==> Same(g[i], h[i], compact)
  }

  /** The history of one key in the store, and in its reference. */
  predicate KeyOk(keys: map<string, History>, full: map<string, History>, compact: nat, k: string) {
    Compares(HistoryOf(keys, k), HistoryOf(full, k), compact) && (k in keys ==> keys[k] != [])
  }

  predicate Compares(g: History, h: History, compact: nat) {
    SameHistory(g, Trim(h, compact), compact) && forall i :: 0 <= i < |h| ==> 0 < h[i].revision
  }

  ghost predicate Reference(s: Store, r: Store) {
    && s.current == r.current && s.compact == r.compact && s.compact <= s.current
    && forall k {:trigger KeyOk(s.keys, r.keys, s.compact, k)} :: KeyOk(s.keys, r.keys, s.compact, k)
  }

  lemma {:induction false} FloorAppend(h: History, e: Entry, rev: int)
    requires rev < e.revision
    ensures Floor(h + [e], rev) == Floor(h, rev)
  {
    if h == [] {
    } else if h[0].revision <= rev {
      FloorAppend(h[1..], e, rev);
      assert (h + [e])[1..] == h[1..] + [e];
    }
  }

  /** A new entry is beyond every compaction so far: trimming and appending commute. */
  lemma TrimAppend(h: History, e: Entry, rev: int)
    requires rev < e.revision
    ensures Trim(h + [e], rev) == Trim(h, rev) + [e]
  {
    FloorAppend(h, e, rev);
  }

  lemma {:induction false} FloorDrop(h: History, d: nat, rev: int)
    requires d <= Floor(h, rev)
    ensures Floor(h[d..], rev) == Floor(h, rev) - d
  {
    if d > 0 {
      FloorDrop(h[1..], d - 1, rev);
      assert h[1..][d - 1..] == h[d..];
    } else {
      assert h[d..] == h;
    }
  }

  lemma {:induction false} FloorGrows(h: History, first: int, second: int)
    requires first <= second
    ensures Floor(h, first) <= Floor(h, second)
  {
    if h != [] { FloorGrows(h[1..], first, second); }
  }

  /** Compacting twice is compacting to the later revision. */
  lemma TrimTwice(h: History, first: int, second: int)
    requires first <= second
    ensures Trim(Trim(h, first), second) == Trim(h, second)
  {
    var d := Rest(h, first);
    FloorGrows(h, first, second);
    FloorDrop(h, d, second);
    RestDrop(h, first, second);
    assert h[d..][Rest(h[d..], second)..] == h[d + Rest(h[d..], second)..];
  }

  lemma RestDrop(h: History, first: int, second: int)
    requires first <= second && Floor(h, first) <= Floor(h, second)
    requires Floor(Trim(h, first), second) == Floor(h, second) - Rest(h, first)
    ensures Rest(h, first) + Rest(Trim(h, first), second) == Rest(h, second)
  {
    var d, b := Rest(h, first), Floor(h, second);
    if d < b { assert h[d..][b - d - 1] == h[b - 1]; }
  }

  lemma FloorSame(g: History, h: History, compact: nat, rev: int)
    requires SameHistory(g, h, compact)
    ensures Floor(g, rev) == Floor(h, rev)
  {
    if g != [] {
      assert Same(g[0], h[0], compact);
      assert SameHistory(g[1..], h[1..], compact) by {
        forall i | 0 <= i < |g[1..]| ensures Same(g[1..][i], h[1..][i], compact) { assert Same(g[i + 1], h[i + 1], compact); }
      }
      FloorSame(g[1..], h[1..], compact, rev);
    }
  }

  lemma TrimSame(g: History, h: History, compact: nat, rev: nat)
    requires SameHistory(g, h, compact) && compact <= rev
    ensures SameHistory(Trim(g, rev), Trim(h, rev), rev)
  {
    FloorSame(g, h, compact, rev);
    var n := Floor(g, rev);
    if n > 0 { assert Same(g[n - 1], h[n - 1], compact); }
    var d := |g| - |Trim(g, rev)|;
    forall i | 0 <= i < |Trim(g, rev)| ensures Same(Trim(g, rev)[i], Trim(h, rev)[i], rev) {
      assert Same(g[d + i], h[d + i], compact);
    }
  }

  /** Writes see the two histories alike: the newest entry is the same, or a tombstone against nothing. */
  lemma LatestSame(g: History, h: History, compact: nat)
    requires SameHistory(g, Trim(h, compact), compact)
    ensures if g == [] then h == [] || (h[|h| - 1].deleted && h[|h| - 1].revision <= compact)
            else h != [] && Same(g[|g| - 1], h[|h| - 1], compact)
  {
    var t := Trim(h, compact);
    if g != [] { assert Same(g[|g| - 1], t[|t| - 1], compact); }
  }

  lemma AtSame(g: History, h: History, compact: nat, revision: int)
    requires SameHistory(g, Trim(h, compact), compact) && compact <= revision
    ensures var a, b := AtRevision(g, revision), AtRevision(h, revision);
            if a.Some? then b.Some? && Same(a.value, b.value, compact) else b.Some? ==> b.value.deleted
  {
    var t, d, f := Trim(h, compact), Rest(h, compact), Floor(h, revision);
    FloorGrows(h, compact, revision);
    FloorDrop(h, d, revision);
    FloorSame(g, t, compact, revision);
    if d < f {
      assert t[f - d - 1] == h[f - 1] && Same(g[f - d - 1], t[f - d - 1], compact);
    }
  }

  lemma SeenSame(g: History, h: History, compact: nat, revision: int)
    requires SameHistory(g, Trim(h, compact), compact) && (revision <= 0 || compact <= revision)
    ensures Visible(g, revision) <==> Visible(h, revision)
    ensures Visible(g, revision) ==> Same(Seen(g, revision).value, Seen(h, revision).value, compact)
  {
    if revision > 0 { AtSame(g, h, compact, revision); } else { LatestSame(g, h, compact); }
  }

  /** A write gives the same answer, and appends the same entry up to the previous revision. */
  lemma WriteSame(g: History, h: History, compact: nat, op: Op, rev: nat)
    requires !op.Compact? && SameHistory(g, Trim(h, compact), compact)
    requires forall i :: 0 <= i < |h| ==> 0 < h[i].revision
    ensures Answer(g, op, rev) == Answer(h, op, rev)
    ensures Prepare(g, op, rev).Some? <==> Prepare(h, op, rev).Some?
    ensures Prepare(g, op, rev).Some? ==> Same(Prepare(g, op, rev).value, Prepare(h, op, rev).value, compact)
  {
    LatestSame(g, h, compact);
  }

  lemma CompareAppended(g: History, h: History, compact: nat, a: Entry, b: Entry)
    requires Compares(g, h, compact) && Same(a, b, compact) && compact < b.revision
    ensures Compares(g + [a], h + [b], compact)
  {
    TrimAppend(h, b, compact);
  }

  lemma CompareTrimmed(g: History, h: History, compact: nat, revision: nat)
    requires Compares(g, h, compact) && compact <= revision
    ensures Compares(Trim(g, revision), h, revision)
  {
    TrimSame(g, Trim(h, compact), compact, revision);
    TrimTwice(h, compact, revision);
  }

  lemma AppendKeeps(s: Store, r: Store, a: Entry, b: Entry)
    requires Reference(s, r) && Same(a, b, s.compact) && b.revision == s.current + 1
    ensures Reference(Append(s, a), Append(r, b))
  {
    var s', r' := Append(s, a), Append(r, b);
    forall k ensures KeyOk(s'.keys, r'.keys, s'.compact, k) {
      assert KeyOk(s.keys, r.keys, s.compact, k);
      if k == a.key { CompareAppended(HistoryOf(s.keys, k), HistoryOf(r.keys, k), s.compact, a, b); }
    }
  }

  lemma WriteKeeps(s: Store, r: Store, op: Op)
    requires Reference(s, r) && !op.Compact?
    ensures Reference(ApplyWrite(s, op), ApplyWrite(r, op)) && AnswerTo(s, op) == AnswerTo(r, op)
  {
    var g, h := HistoryOf(s.keys, op.key), HistoryOf(r.keys, op.key);
    assert KeyOk(s.keys, r.keys, s.compact, op.key);
    WriteSame(g, h, s.compact, op, s.current);
    if Prepare(g, op, s.current).Some? {
      AppendKeeps(s, r, Prepare(g, op, s.current).value, Prepare(h, op, s.current).value);
    }
  }

  lemma TrimmedHistory(keys: map<string, History>, revision: int, k: string)
    ensures HistoryOf(TrimKeys(keys, revision), k) == Trim(HistoryOf(keys, k), revision)
    ensures k in TrimKeys(keys, revision) ==> TrimKeys(keys, revision)[k] != []
  {
  }

  lemma CompactKey(keys: map<string, History>, full: map<string, History>, compact: nat, revision: nat, k: string)
    requires KeyOk(keys, full, compact, k) && compact <= revision
    ensures KeyOk(TrimKeys(keys, revision), full, revision, k)
  {
    CompareTrimmed(HistoryOf(keys, k), HistoryOf(full, k), compact, revision);
    TrimmedHistory(keys, revision, k);
  }

  lemma CompactKeeps(s: Store, r: Store, revision: int)
    requires Reference(s, r)
    ensures Reference(Apply(s, Compact(revision)), ApplyReference(r, Compact(revision)))
    ensures AnswerTo(s, Compact(revision)) == AnswerTo(r, Compact(revision))
  {
    if CompactAnswer(s, revision).Compacted? {
      forall k ensures KeyOk(TrimKeys(s.keys, revision), r.keys, revision, k) {
        assert KeyOk(s.keys, r.keys, s.compact, k);
        CompactKey(s.keys, r.keys, s.compact, revision, k);
      }
    }
  }

  lemma {:induction false} RunsAgree(ops: seq<Op>)
    ensures Reference(Run(EMPTY, ops), RunReference(EMPTY, ops))
  {
    if ops == [] {
      forall k ensures KeyOk(map[], map[], 0, k) { }
    } else {
      var before, op := ops[..|ops| - 1], ops[|ops| - 1];
      RunsAgree(before);
      if op.Compact? { CompactKeeps(Run(EMPTY, before), RunReference(EMPTY, before), op.revision); }
      else { WriteKeeps(Run(EMPTY, before), RunReference(EMPTY, before), op); }
    }
  }

  /**
    Memory compaction is a simulation. After any operations, the compacted store and the one that forgot
    nothing answer the next operation alike and list alike, for every range, limit and revision. Below
    the compact revision both refuse.
   */
  lemma CompactionIsInvisible(ops: seq<Op>, next: Op, key: string, end: string, limit: int, revision: int, keysOnly: bool)
    ensures AnswerTo(Run(EMPTY, ops), next) == AnswerTo(RunReference(EMPTY, ops), next)
    ensures List(Run(EMPTY, ops), key, end, limit, revision, keysOnly) == List(RunReference(EMPTY, ops), key, end, limit, revision, keysOnly)
  {
    RunsAgree(ops);
    var s, r := Run(EMPTY, ops), RunReference(EMPTY, ops);
    if next.Compact? { CompactKeeps(s, r, next.revision); } else { WriteKeeps(s, r, next); }
    if revision <= 0 || s.compact <= revision { SelectedSame(s, r, key, end, revision, keysOnly); }
  }

  lemma SelectedSame(s: Store, r: Store, key: string, end: string, revision: int, keysOnly: bool)
    requires Reference(s, r) && (revision <= 0 || s.compact <= revision)
    ensures Selected(s.keys, key, end, revision, keysOnly) == Selected(r.keys, key, end, revision, keysOnly)
  {
    var a, b := Selected(s.keys, key, end, revision, keysOnly), Selected(r.keys, key, end, revision, keysOnly);
    forall n ensures n in a <==> n in b
             ensures n in a && n in b ==> a[n] == b[n]
    {
      assert KeyOk(s.keys, r.keys, s.compact, n);
      SeenSame(HistoryOf(s.keys, n), HistoryOf(r.keys, n), s.compact, revision);
    }
  }
}

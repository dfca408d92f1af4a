/** The calls of the in-memory backend. Each holds the lock, so each is one step of the store. */
module MemoryBackend {
  import opened Options
  import opened Names
  import opened MemoryStore
  import opened MemoryWatch

  // --------------------------------------------------- walking the keys in order

  predicate Ascends(names: seq<string>) {
    forall i, j :: 0 <= i < j < |names| ==> Less(names[i], names[j])
  }

  /** Names in ascending order that leave out only greater ones are where the sorted list starts. */
  lemma {:induction false} PrefixOfSorted(names: seq<string>, s: set<string>)
    requires Ascends(names) && forall n :: n in names ==> n in s
    requires forall n, m :: n in names && m in s && m !in names ==> Less(n, m)
    ensures names <= Sorted(s)
    decreases |names|
  {
    if names != [] {
      FirstIsLeast(names, s);
      var rest := s - {names[0]};
      assert names[1..] <= Sorted(rest) by {
        assert forall n :: n in names[1..] ==> n in names;
        assert names == [names[0]] + names[1..];
        forall n | n in names[1..] ensures n in rest { NotFirst(names, n); }
        PrefixOfSorted(names[1..], rest);
      }
      assert Sorted(s) == [names[0]] + Sorted(rest);
    }
  }

  lemma NotFirst(names: seq<string>, n: string)
    requires Ascends(names) && names != [] && n in names[1..]
    ensures n != names[0]
  {
    var i :| 0 <= i < |names| - 1 && names[1..][i] == n;
    assert Less(names[0], names[i + 1]);
    Trichotomy(names[0], n);
  }

  lemma FirstIsLeast(names: seq<string>, s: set<string>)
    requires Ascends(names) && names != [] && forall n :: n in names ==> n in s
    requires forall n, m :: n in names && m in s && m !in names ==> Less(n, m)
    ensures s != {} && names[0] == Least(s)
  {
    assert names[0] in names;
    forall m | m in s ensures !Less(m, names[0]) {
      Trichotomy(m, names[0]);
      if m in names {
        var i :| 0 <= i < |names| && names[i] == m;
      }
    }
    LeastIsUnique(s, names[0], Least(s));
  }

  /** The values of a map at some of its keys. */
  function At<V>(m: map<string, V>, names: seq<string>): (r: seq<V>)
    requires forall n :: n in names ==> n in m
    ensures |r| == |names| && forall i :: 0 <= i < |names| ==> names[i] in names && r[i] == m[names[i]]
  {
    seq(|names|, i requires 0 <= i < |names| => assert names[i] in names; m[names[i]])
  }

  lemma PrefixOfOrdered<V>(m: map<string, V>, names: seq<string>)
    requires Ascends(names) && forall n :: n in names ==> n in m
    requires forall n, k :: n in names && k in m && k !in names ==> Less(n, k)
    ensures At(m, names) <= Ordered(m)
  {
    PrefixOfSorted(names, m.Keys);
  }

  /** n is one of the first i names. */
  predicate Passed(s: set<string>, i: nat, n: string) {
    exists a :: 0 <= a < i <= |Sorted(s)| && Sorted(s)[a] == n
  }

  /** What has not been passed comes after what has. */
  lemma AfterPassed(s: set<string>, i: nat, n: string, k: string)
    requires i <= |Sorted(s)| && Passed(s, i, n) && k in s && !Passed(s, i, k)
    ensures Less(n, k)
  {
    var a :| 0 <= a < i && Sorted(s)[a] == n;
    var b :| 0 <= b < |Sorted(s)| && Sorted(s)[b] == k;
    SortedAscends(s, a, b);
  }

  lemma NextNotPassed(s: set<string>, i: nat)
    requires i < |Sorted(s)|
    ensures Sorted(s)[i] in s && !Passed(s, i, Sorted(s)[i])
  {
    forall a | 0 <= a < i ensures Sorted(s)[a] != Sorted(s)[i] {
      SortedAscends(s, a, i);
      Trichotomy(Sorted(s)[a], Sorted(s)[i]);
    }
  }

  /** The walk so far: shown are the names passed that have something to show. */
  ghost predicate Walked<V>(m: map<string, V>, s: set<string>, i: nat, shown: seq<string>) {
    && i <= |Sorted(s)| && (forall n :: n in m ==> n in s)
    && Ascends(shown)
    && forall n {:trigger n in shown} {:trigger Passed(s, i, n)} :: n in shown <==> n in m && Passed(s, i, n)
  }

  lemma WalkedIsPrefix<V>(m: map<string, V>, s: set<string>, i: nat, shown: seq<string>)
    requires Walked(m, s, i, shown)
    ensures At(m, shown) <= Ordered(m)
  {
    forall n, k | n in shown && k in m && k !in shown ensures Less(n, k) { AfterPassed(s, i, n, k); }
    PrefixOfOrdered(m, shown);
  }

  lemma WalkedAll<V>(m: map<string, V>, s: set<string>, i: nat, shown: seq<string>)
    requires Walked(m, s, i, shown) && forall k :: k in m ==> Passed(s, i, k)
    ensures At(m, shown) == Ordered(m)
  {
    WalkedIsPrefix(m, s, i, shown);
    AscendsFit(shown, m.Keys);
  }

  lemma {:induction false} AscendsFit(names: seq<string>, s: set<string>)
    requires Ascends(names) && forall n :: n in names <==> n in s
    ensures |names| == |s|
    decreases |names|
  {
    if names == [] {
      assert s == {};
    } else {
      var rest := s - {names[0]};
      assert names == [names[0]] + names[1..];
      forall n ensures n in names[1..] <==> n in rest {
        if n in names[1..] { NotFirst(names, n); }
      }
      AscendsFit(names[1..], rest);
    }
  }

  lemma AscendsAppend(shown: seq<string>, k: string)
    requires Ascends(shown) && forall n :: n in shown ==> Less(n, k)
    ensures Ascends(shown + [k])
  {
    forall a | 0 <= a < |shown| ensures Less(shown[a], k) { assert shown[a] in shown; }
  }

  lemma PassedNext(s: set<string>, i: nat, n: string)
    requires i < |Sorted(s)|
    ensures Passed(s, i + 1, n) <==> Passed(s, i, n) || n == Sorted(s)[i]
  {
  }

  lemma WalkedNext<V>(m: map<string, V>, s: set<string>, i: nat, shown: seq<string>)
    requires Walked(m, s, i, shown) && i < |Sorted(s)|
    ensures Walked(m, s, i + 1, if Sorted(s)[i] in m then shown + [Sorted(s)[i]] else shown)
  {
    var k := Sorted(s)[i];
    NextNotPassed(s, i);
    forall n | n in shown ensures Less(n, k) { AfterPassed(s, i, n, k); }
    AscendsAppend(shown, k);
    forall n ensures Passed(s, i + 1, n) <==> Passed(s, i, n) || n == k { PassedNext(s, i, n); }
  }

  lemma AtAppend<V>(m: map<string, V>, shown: seq<string>, k: string)
    requires forall n :: n in shown ==> n in m
    ensures k in m ==> At(m, shown + [k]) == At(m, shown) + [m[k]]
  {
  }

  /** The name that ends the walk: no name from there on is in the range. */
  predicate Ends(k: string, key: string, end: string) {
    (end == "" && k != key) || (end != "" && !Less(k, end))
  }

  lemma NothingAfterEnd(s: set<string>, i: nat, key: string, end: string, n: string)
    requires i < |Sorted(s)| && Ends(Sorted(s)[i], key, end) && (forall m :: m in s ==> !Less(m, key))
    requires n in s && Between(n, key, end)
    ensures Passed(s, i, n)
  {
    var k := Sorted(s)[i];
    var b: nat :| b < |Sorted(s)| && Sorted(s)[b] == n;
    if i <= b {
      assert k in s;
      Trichotomy(k, n);
      if i < b {
        SortedAscends(s, i, b);
        if end != "" { Transitive(k, n, end); }
      }
    }
  }

  /** What the walk has collected so far. */
  ghost predicate Gathered<V>(m: map<string, V>, s: set<string>, i: nat, shown: seq<string>, kvs: seq<V>) {
    Walked(m, s, i, shown) && kvs == At(m, shown)
  }

  lemma GatheredNext<V>(m: map<string, V>, s: set<string>, i: nat, shown: seq<string>, kvs: seq<V>)
    requires Gathered(m, s, i, shown, kvs) && i < |Sorted(s)|
    ensures var k := Sorted(s)[i];
            && k in s
            && if k in m then Gathered(m, s, i + 1, shown + [k], kvs + [m[k]]) else Gathered(m, s, i + 1, shown, kvs)
  {
    NextNotPassed(s, i);
    WalkedNext(m, s, i, shown);
    AtAppend(m, shown, Sorted(s)[i]);
  }

  lemma GatheredSome<V>(m: map<string, V>, s: set<string>, i: nat, shown: seq<string>, kvs: seq<V>, limit: int)
    requires Gathered(m, s, i, shown, kvs) && 0 < limit == |kvs|
    ensures kvs == Limit(Ordered(m), limit)
  {
    WalkedIsPrefix(m, s, i, shown);
  }

  lemma GatheredAll<V>(m: map<string, V>, s: set<string>, i: nat, shown: seq<string>, kvs: seq<V>, limit: int)
    requires Gathered(m, s, i, shown, kvs) && (forall k :: k in m ==> Passed(s, i, k)) && (limit > 0 ==> |kvs| < limit)
    ensures kvs == Limit(Ordered(m), limit)
  {
    WalkedAll(m, s, i, shown);
  }

  // ----------------------------------------------------------------- the backend

  class Memory {
    var log: seq<Entry>
    var keys: map<string, History>
    var prev: map<nat, Entry>
    var currentRevision: nat
    var compactRevision: nat
    /** How many compactions there have been. */
    ghost var compactions: nat

    constructor ()
      ensures Now() == EMPTY && Valid()
    {
      log, keys, prev, currentRevision, compactRevision, compactions := [], map[], map[], 0, 0, 0;
    }

    function Now(): Store
      reads this
    {
      Store(log, keys, prev, currentRevision, compactRevision)
    }

    ghost predicate Valid()
      reads this
    {
      LogOk(Now(), compactions)
    }

    method AppendEntry(e: Entry)
      modifies this`log, this`keys, this`prev
      ensures Now() == Append(old(Now()), e).(current := currentRevision)
    {
      log := log + [e];
      var hist := if e.key in keys then keys[e.key] else [];
      if |hist| > 0 {
        prev := prev[e.revision := hist[|hist| - 1]];
      }
      keys := keys[e.key := hist + [e]];
    }

    method LatestOf(key: string) returns (e: Option<Entry>)
      ensures e == Latest(HistoryOf(keys, key))
    {
      if key !in keys || |keys[key]| == 0 {
        return None;
      }
      e := Some(keys[key][|keys[key]| - 1]);
    }

    method Create(key: string, value: Bytes, lease: int) returns (rev: nat, ok: bool)
      requires Valid()
      modifies this
      ensures Valid() && Now() == Apply(old(Now()), Op.Create(key, value, lease))
      ensures (if ok then Wrote(rev, None) else KeyExists(rev)) == AnswerTo(old(Now()), Op.Create(key, value, lease))
    {
      WriteKeepsLog(Now(), Op.Create(key, value, lease), compactions);
      var latest := LatestOf(key);
      if latest.Some? && !latest.value.deleted {
        return currentRevision, false;
      }
      rev := currentRevision + 1;
      currentRevision := rev;
      var prevRev := if latest.Some? then latest.value.revision else 0;
      AppendEntry(Entry(rev, key, value, rev, 1, prevRev, lease, true, false));
      ok := true;
    }

    method Update(key: string, value: Bytes, revision: int, lease: int) returns (rev: nat, kv: Option<KeyValue>, ok: bool)
      requires Valid()
      modifies this
      ensures Valid() && Now() == Apply(old(Now()), Op.Update(key, value, revision, lease))
      ensures (if ok then Wrote(rev, kv) else NotWritten(rev, kv)) == AnswerTo(old(Now()), Op.Update(key, value, revision, lease))
    {
      WriteKeepsLog(Now(), Op.Update(key, value, revision, lease), compactions);
      var latest := LatestOf(key);
      if latest == None || latest.value.deleted {
        return currentRevision, None, false;
      }
      if latest.value.revision != revision {
        return currentRevision, Some(ToKeyValue(latest.value)), false;
      }
      var l := latest.value;
      rev := currentRevision + 1;
      currentRevision := rev;
      var e := Entry(rev, key, value, l.createRevision, l.version + 1, l.revision, lease, false, false);
      AppendEntry(e);
      kv, ok := Some(ToKeyValue(e)), true;
    }

    method Delete(key: string, revision: int) returns (rev: nat, kv: Option<KeyValue>, ok: bool)
      requires Valid()
      modifies this
      ensures Valid() && Now() == Apply(old(Now()), Op.Delete(key, revision))
      ensures (if ok then Wrote(rev, kv) else NotWritten(rev, kv)) == AnswerTo(old(Now()), Op.Delete(key, revision))
    {
      WriteKeepsLog(Now(), Op.Delete(key, revision), compactions);
      var latest := LatestOf(key);
      if latest == None || latest.value.deleted {
        return currentRevision, None, false;
      }
      if revision != 0 && latest.value.revision != revision {
        return currentRevision, Some(ToKeyValue(latest.value)), false;
      }
      var l := latest.value;
      rev := currentRevision + 1;
      currentRevision := rev;
      AppendEntry(Entry(rev, key, l.value, l.createRevision, l.version, l.revision, l.lease, false, true));
      kv, ok := Some(ToKeyValue(l)), true;
    }

    /** The loop over one history, shared by atRevision and Compact: the last entry at or below the revision. */
    method FloorIndex(hist: History, revision: int) returns (floor: int)
      ensures floor == Floor(hist, revision) - 1
    {
      floor := -1;
      var i := 0;
      assert hist[0..] == hist;
      while i < |hist|
        invariant 0 <= i <= |hist| && floor == i - 1
        invariant Floor(hist, revision) == i + Floor(hist[i..], revision)
      {
        assert hist[i..][1..] == hist[i + 1..];
        if hist[i].revision <= revision {
          floor := i;
        } else {
          break;
        }
        i := i + 1;
      }
    }

    method SeenOf(key: string, revision: int) returns (e: Option<Entry>)
      requires key in keys
      ensures e == Seen(keys[key], revision)
    {
      if revision > 0 {
        var floor := FloorIndex(keys[key], revision);
        e := if floor < 0 then None else Some(keys[key][floor]);
      } else {
        e := LatestOf(key);
      }
    }

    method List(key: string, end: string, limit: int, revision: int, keysOnly: bool) returns (reply: Reply)
      ensures reply == MemoryStore.List(Now(), key, end, limit, revision, keysOnly)
    {
      var rev := currentRevision;
      if revision > 0 {
        if revision > rev {
          return FutureRev(rev);
        }
        if revision < compactRevision {
          return CompactedRev(rev);
        }
        rev := revision;
      }
      var kvs := Walk(key, end, limit, revision, keysOnly);
      reply := Reply(rev, kvs);
    }

    /** The walk over the tree from the first name at or after the key. */
    method Walk(key: string, end: string, limit: int, revision: int, keysOnly: bool) returns (kvs: seq<KeyValue>)
      ensures kvs == Limit(Ordered(Selected(keys, key, end, revision, keysOnly)), limit)
    {
      Trichotomy(key, key);
      var from := set n | n in keys && !Less(n, key);
      kvs := WalkFrom(from, Selected(keys, key, end, revision, keysOnly), key, end, limit, revision, keysOnly);
    }

    method WalkFrom(from: set<string>, ghost m: map<string, KeyValue>, key: string, end: string, limit: int, revision: int, keysOnly: bool)
      returns (kvs: seq<KeyValue>)
      requires forall n :: n in m ==> n in from && Between(n, key, end)
      requires forall n :: n in from ==> n in keys && !Less(n, key)
      requires forall n :: n in from && !Ends(n, key, end) ==> (n in m <==> Visible(keys[n], revision))
      requires forall n :: n in m ==> Visible(keys[n], revision) && m[n] == Show(Seen(keys[n], revision).value, keysOnly)
      ensures kvs == Limit(Ordered(m), limit)
    {
      var names := Sorted(from);
      ghost var shown: seq<string> := [];
      kvs := [];
      var i := 0;
      while i < |names|
        invariant 0 <= i <= |names|
        invariant Gathered(m, from, i, shown, kvs)
        invariant limit > 0 ==> |kvs| < limit
      {
        var k := names[i];
        GatheredNext(m, from, i, shown, kvs);
        if (end == "" && k != key) || (end != "" && !Less(k, end)) {
          forall n | n in m ensures Passed(from, i, n) { NothingAfterEnd(from, i, key, end, n); }
          break;
        }
        var e := SeenOf(k, revision);
        if e.Some? && !e.value.deleted {
          kvs := kvs + [Show(e.value, keysOnly)];
          shown := shown + [k];
        }
        i := i + 1;
        if limit > 0 && |kvs| >= limit {
          GatheredSome(m, from, i, shown, kvs, limit);
          return;
        }
      }
      GatheredAll(m, from, i, shown, kvs, limit);
    }

    method Get(key: string, revision: int, keysOnly: bool) returns (reply: Reply)
      ensures reply == MemoryStore.List(Now(), key, "", 1, revision, keysOnly)
      ensures reply.Reply? ==> |reply.kvs| == if key in keys && Visible(keys[key], revision) then 1 else 0
      ensures reply.Reply? && |reply.kvs| == 1 ==> reply.kvs[0] == Show(Seen(keys[key], revision).value, keysOnly)
    {
      reply := List(key, "", 1, revision, keysOnly);
      OneName(keys, key, revision, keysOnly);
    }

    method Count(key: string, end: string, revision: int) returns (reply: Reply, count: nat)
      ensures reply == MemoryStore.List(Now(), key, end, 0, revision, true)
      ensures count == if reply.Reply? then |Selected(keys, key, end, revision, true)| else 0
    {
      reply := List(key, end, 0, revision, true);
      count := if reply.Reply? then |reply.kvs| else 0;
    }

    /** One pass of a watch over the log. */
    method WatchPass(key: string, end: string, lastSeen: int) returns (batch: seq<Event>, seen: int)
      ensures batch == Events(PassEntries(Now(), lastSeen), prev, key, end)
      ensures seen == SeenAfter(Now(), lastSeen)
    {
      batch, seen := [], lastSeen;
      var from := IndexAfter(Now(), lastSeen);
      ghost var entries := PassEntries(Now(), lastSeen);
      var i := from;
      while i < |log|
        invariant from <= i <= |log|
        invariant batch == Events(entries[..i - from], prev, key, end)
        invariant seen == if i == from then lastSeen else log[i - 1].revision
      {
        var e := log[i];
        assert entries[..i + 1 - from][..i - from] == entries[..i - from] && entries[i - from] == e;
        if InRange(e.key, key, end) {
          batch := batch + [EventOf(e, prev)];
        }
        seen := e.revision;
        i := i + 1;
      }
      assert entries[..i - from] == entries;
    }

    method Compact(revision: int) returns (result: Result)
      requires Valid()
      modifies this
      ensures Valid() && Now() == Apply(old(Now()), Op.Compact(revision))
      ensures result == AnswerTo(old(Now()), Op.Compact(revision))
      ensures compactions == old(compactions) + if result.Compacted? then 1 else 0
    {
      var rev := currentRevision;
      if revision > rev {
        return ErrFutureRev(0);
      }
      if revision <= compactRevision {
        return ErrCompacted(0);
      }
      CompactKeepsLog(Now(), revision, compactions);
      hide LogOk, TrimKeys, Cleared;
      ghost var was := Now();
      TrimHistories(revision);
      var cut := revision - compactRevision - 1;
      if cut > 0 {
        log := log[cut..];
      }
      compactRevision := revision;
      compactions := compactions + 1;
      assert Now() == CompactTo(was, revision);
      result := Compacted(rev);
    }

    /** The scan over the tree. Emptied histories are removed after it. */
    method TrimHistories(revision: nat)
      modifies this`keys, this`prev
      ensures keys == TrimKeys(old(keys), revision)
      ensures prev == old(prev) - Cleared(old(keys), revision)
    {
      ghost var was, pointers := keys, prev;
      var todo := keys.Keys;
      var toRemove: set<string> := {};
      ScanStarts(was, prev, revision);
      while todo != {}
        invariant Scan(was, pointers, todo, keys, prev, toRemove, revision)
        decreases |todo|
      {
        var k :| k in todo;
        ScanNext(was, pointers, todo, keys, prev, toRemove, k, revision);
        var empty := TrimOne(k, revision);
        if empty {
          toRemove := toRemove + {k};
        }
        todo := todo - {k};
      }
      ScanEnds(was, pointers, keys, prev, toRemove, revision);
      keys := keys - toRemove;
    }

    method TrimOne(k: string, revision: nat) returns (empty: bool)
      requires k in keys
      modifies this`keys, this`prev
      ensures empty <==> Trim(old(keys)[k], revision) == []
      ensures keys == old(keys)[k := if empty then old(keys)[k] else Trim(old(keys)[k], revision)]
      ensures prev == old(prev) - ClearedOf(old(keys)[k], revision)
    {
      var hist := keys[k];
      var floor := FloorIndex(hist, revision);
      var newHist := if floor < 0 then hist else if hist[floor].deleted then hist[floor + 1..] else hist[floor..];
      assert newHist == Trim(hist, revision);
      empty := |newHist| == 0;
      if !empty && |newHist| != |hist| {
        prev := prev - {newHist[0].revision};
        keys := keys[k := newHist];
      }
    }
  }

  function Scanned(was: map<string, History>, todo: set<string>, revision: int): map<string, History> {
    map k | k in was :: if k in todo || Trim(was[k], revision) == [] then was[k] else Trim(was[k], revision)
  }

  /** The scan with todo left to visit. */
  predicate Scan(was: map<string, History>, pointers: map<nat, Entry>, todo: set<string>,
                 keys: map<string, History>, prev: map<nat, Entry>, toRemove: set<string>, revision: int) {
    && todo <= was.Keys && keys == Scanned(was, todo, revision)
    && toRemove == Emptied(was, todo, revision)
    && prev == pointers - Cleared(was - todo, revision)
  }

  lemma ScanStarts(was: map<string, History>, pointers: map<nat, Entry>, revision: int)
    ensures Scan(was, pointers, was.Keys, was, pointers, {}, revision)
  {
    assert Cleared(was - was.Keys, revision) == {};
  }

  lemma ScanEnds(was: map<string, History>, pointers: map<nat, Entry>, keys: map<string, History>, prev: map<nat, Entry>,
                 toRemove: set<string>, revision: int)
    requires Scan(was, pointers, {}, keys, prev, toRemove, revision)
    ensures keys - toRemove == TrimKeys(was, revision) && prev == pointers - Cleared(was, revision)
  {
    assert was - {} == was;
  }

  lemma ScanNext(was: map<string, History>, pointers: map<nat, Entry>, todo: set<string>, keys: map<string, History>,
                 prev: map<nat, Entry>, toRemove: set<string>, k: string, revision: int)
    requires Scan(was, pointers, todo, keys, prev, toRemove, revision) && k in todo
    ensures k in keys && keys[k] == was[k]
    ensures var t := Trim(was[k], revision);
            Scan(was, pointers, todo - {k}, keys[k := if t == [] then was[k] else t], prev - ClearedOf(was[k], revision),
                 if t == [] then toRemove + {k} else toRemove, revision)
  {
    ScannedNext(was, todo, k, revision);
    ClearedNext(was, todo, k, revision);
    EmptiedNext(was, todo, k, revision);
    MinusTwice(pointers, Cleared(was - todo, revision), ClearedOf(was[k], revision));
  }

  lemma MinusTwice<K, V>(m: map<K, V>, a: set<K>, b: set<K>)
    ensures m - a - b == m - (a + b)
  {
  }

  function Emptied(was: map<string, History>, todo: set<string>, revision: int): set<string> {
    set k | k in was && k !in todo && Trim(was[k], revision) == []
  }

  lemma EmptiedNext(was: map<string, History>, todo: set<string>, k: string, revision: int)
    requires k in todo && todo <= was.Keys
    ensures Emptied(was, todo - {k}, revision) ==
              Emptied(was, todo, revision) + if Trim(was[k], revision) == [] then {k} else {}
  {
  }

  lemma ScannedNext(was: map<string, History>, todo: set<string>, k: string, revision: int)
    requires k in todo && todo <= was.Keys
    ensures var t := Trim(was[k], revision);
            Scanned(was, todo - {k}, revision) == Scanned(was, todo, revision)[k := if t == [] then was[k] else t]
  {
  }

  lemma ClearedNext(was: map<string, History>, todo: set<string>, k: string, revision: int)
    requires k in todo && todo <= was.Keys
    ensures Cleared(was - (todo - {k}), revision) == Cleared(was - todo, revision) + ClearedOf(was[k], revision)
  {
    var after, before := was - (todo - {k}), was - todo;
    forall r ensures r in Cleared(after, revision) <==> r in Cleared(before, revision) || r in ClearedOf(was[k], revision) {
      if r in ClearedOf(was[k], revision) { assert k in after && r in ClearedOf(after[k], revision); }
      if r in Cleared(after, revision) {
        var n :| n in after && r in ClearedOf(after[n], revision);
        assert n != k ==> n in before && r in ClearedOf(before[n], revision);
      }
      if r in Cleared(before, revision) {
        var n :| n in before && r in ClearedOf(before[n], revision);
        assert n in after && r in ClearedOf(after[n], revision);
      }
    }
  }

  lemma OneName(keys: map<string, History>, key: string, revision: int, keysOnly: bool)
    ensures var m := Selected(keys, key, "", revision, keysOnly);
            && m.Keys == (if key in keys && Visible(keys[key], revision) then {key} else {})
            && |Ordered(m)| == |m.Keys|
            && (key in m ==> Ordered(m) == [m[key]])
  {
    var m := Selected(keys, key, "", revision, keysOnly);
    if key in m {
      assert m.Keys == {key};
      var names := Sorted(m.Keys);
      assert names[0] in names && names[0] == key;
    }
  }
}

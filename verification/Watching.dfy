/**
  A watch: subscribe to the live stream, then list what is in the table already, then send both, cutting
  the overlap at the revision of the list.
 */
module Watching {
  import opened Options
  import opened Names
  import opened KineTable
  import Poller
  import SqlLog

  // ------------------------------------------------------------------ the filters

  /** With an end at or before the key the statement and the live filter disagree about the key itself. */
  predicate WellFormed(key: string, end: string) {
    key == "" || end == "" || Less(key, end)
  }

  /** The statement of the list and the filter of the stream take the same names, exactly for well-formed ranges. */
  lemma RangesAgree(key: string, end: string)
    ensures WellFormed(key, end) <==> forall name :: InRange(name, key, end) <==> AfterMatch(name, key, end)
  {
    Trichotomy(key, key);
    if !WellFormed(key, end) {
      assert InRange(key, key, end) && !AfterMatch(key, key, end);
    }
  }

  function Select(rows: seq<Versioned>, key: string, end: string): seq<Versioned> {
    if rows == [] then []
    else
      var e := rows[|rows| - 1];
      Select(rows[..|rows| - 1], key, end) + (if InRange(e.row.name, key, end) then [e] else [])
  }

  function Newer(rows: seq<Versioned>, rev: nat): seq<Versioned> {
    if rows == [] then []
    else
      var e := rows[|rows| - 1];
      Newer(rows[..|rows| - 1], rev) + (if rev < e.id then [e] else [])
  }

  lemma {:induction false} SelectMembers(rows: seq<Versioned>, key: string, end: string)
    ensures forall v :: v in Select(rows, key, end) <==> v in rows && InRange(v.row.name, key, end)
  {
    if rows != [] {
      SelectMembers(rows[..|rows| - 1], key, end);
      assert rows == rows[..|rows| - 1] + [rows[|rows| - 1]];
    }
  }

  lemma {:induction false} SelectExact(rows: seq<Versioned>, key: string, end: string)
    ensures forall v :: v in Select(rows, key, end) <==> v in rows && InRange(v.row.name, key, end)
    ensures Ascending(rows) ==> Ascending(Select(rows, key, end))
  {
    SelectMembers(rows, key, end);
    if rows != [] && Ascending(rows) {
      var front := rows[..|rows| - 1];
      SelectExact(front, key, end);
      AscendingAppend(rows, Select(front, key, end));
    }
  }

  lemma {:induction false} NewerMembers(rows: seq<Versioned>, rev: nat)
    ensures forall v :: v in Newer(rows, rev) <==> v in rows && rev < v.id
  {
    if rows != [] {
      NewerMembers(rows[..|rows| - 1], rev);
      assert rows == rows[..|rows| - 1] + [rows[|rows| - 1]];
    }
  }

  lemma {:induction false} NewerExact(rows: seq<Versioned>, rev: nat)
    ensures forall v :: v in Newer(rows, rev) <==> v in rows && rev < v.id
    ensures Ascending(rows) ==> Ascending(Newer(rows, rev))
  {
    NewerMembers(rows, rev);
    if rows != [] && Ascending(rows) {
      var front := rows[..|rows| - 1];
      NewerExact(front, rev);
      AscendingAppend(rows, Newer(front, rev));
    }
  }

  /** The last row is newer than all before it. */
  lemma AscendingAppend(rows: seq<Versioned>, some: seq<Versioned>)
    requires rows != [] && Ascending(rows) && Ascending(some) && forall v :: v in some ==> v in rows[..|rows| - 1]
    ensures Ascending(rows[..|rows| - 1]) && Ascending(some + [rows[|rows| - 1]])
  {
    forall j | 0 <= j < |some| ensures some[j].id < rows[|rows| - 1].id {
      assert some[j] in some;
      var k :| 0 <= k < |rows| - 1 && rows[..|rows| - 1][k] == some[j];
    }
  }

  predicate Ascending(rows: seq<Versioned>) {
    forall i, j :: 0 <= i < j < |rows| ==> rows[i].id < rows[j].id
  }

  lemma {:induction false} SelectConcat(a: seq<Versioned>, b: seq<Versioned>, key: string, end: string)
    ensures Select(a + b, key, end) == Select(a, key, end) + Select(b, key, end)
  {
    if b == [] {
      assert a + b == a;
    } else {
      SelectConcat(a, b[..|b| - 1], key, end);
      assert (a + b)[..|a + b| - 1] == a + b[..|b| - 1];
      assert Select(a, key, end) + (Select(b[..|b| - 1], key, end) + [b[|b| - 1]])
          == (Select(a, key, end) + Select(b[..|b| - 1], key, end)) + [b[|b| - 1]];
    }
  }

  lemma {:induction false} NewerConcat(a: seq<Versioned>, b: seq<Versioned>, rev: nat)
    ensures Newer(a + b, rev) == Newer(a, rev) + Newer(b, rev)
  {
    if b == [] {
      assert a + b == a;
    } else {
      NewerConcat(a, b[..|b| - 1], rev);
      assert (a + b)[..|a + b| - 1] == a + b[..|b| - 1];
      assert Newer(a, rev) + (Newer(b[..|b| - 1], rev) + [b[|b| - 1]])
          == (Newer(a, rev) + Newer(b[..|b| - 1], rev)) + [b[|b| - 1]];
    }
  }

  lemma {:induction false} NewerNone(rows: seq<Versioned>, rev: nat)
    requires forall k :: 0 <= k < |rows| ==> rows[k].id <= rev
    ensures Newer(rows, rev) == []
  {
    if rows != [] { NewerNone(rows[..|rows| - 1], rev); }
  }

  /** What a list of batches holds, empty slots aside. */
  function Flat(feed: seq<seq<Option<Versioned>>>): seq<Versioned> {
    if feed == [] then [] else Flat(feed[..|feed| - 1]) + SqlLog.Present(feed[|feed| - 1])
  }

  // -------------------------------------------------------------------- the calls

  /** The filter of the log underneath: a batch of one event is passed on as it is. */
  method FilterRange(events: seq<Option<Versioned>>, key: string, end: string) returns (r: seq<Versioned>, any: bool)
    ensures r == Select(SqlLog.Present(events), key, end)
    ensures any <==> r != []
  {
    r := [];
    var i := 0;
    while i < |events|
      invariant 0 <= i <= |events|
      invariant r == Select(SqlLog.Present(events[..i]), key, end)
    {
      assert events[..i + 1] == events[..i] + [events[i]];
      SqlLog.PresentAppend(events[..i], events[i]);
      SelectConcat(SqlLog.Present(events[..i]), if events[i].Some? then [events[i].value] else [], key, end);
      if events[i].Some? {
        assert Select([events[i].value], key, end) == if InRange(events[i].value.row.name, key, end) then [events[i].value] else [];
        if InRange(events[i].value.row.name, key, end) {
          r := r + [events[i].value];
        }
      }
      i := i + 1;
    }
    assert events[..i] == events;
    any := r != [];
  }

  /** filter: drop the leading events at or below rev. On an ascending batch these are all of them. */
  method FilterNewer(rows: seq<Versioned>, rev: nat) returns (r: seq<Versioned>)
    requires Ascending(rows)
    ensures r == Newer(rows, rev)
  {
    r := rows;
    ghost var n := 0;
    while |r| > 0 && r[0].id <= rev
      invariant 0 <= n <= |rows| && r == rows[n..]
      invariant forall k :: 0 <= k < n ==> rows[k].id <= rev
    {
      r := r[1..];
      n := n + 1;
    }
    NewerIsSuffix(rows, rev, n);
  }

  lemma {:induction false} NewerIsSuffix(rows: seq<Versioned>, rev: nat, n: nat)
    requires Ascending(rows) && n <= |rows| && (forall k :: 0 <= k < n ==> rows[k].id <= rev)
    requires n < |rows| ==> rev < rows[n].id
    ensures Newer(rows, rev) == rows[n..]
  {
    if n == |rows| {
      NewerNone(rows, rev);
    } else {
      var front, last := rows[..|rows| - 1], rows[|rows| - 1];
      NewerIsSuffix(front, rev, n);
      assert rows[n..] == front[n..] + [last];
    }
  }

  /** One batch on its way: a batch with nothing in range is not passed on, and what is passed on is cut. */
  method Forward(batch: seq<Option<Versioned>>, key: string, end: string, last: nat) returns (out: seq<Versioned>)
    requires Ascending(SqlLog.Present(batch))
    ensures out == Newer(Select(SqlLog.Present(batch), key, end), last)
  {
    out := [];
    var inRange, any := FilterRange(batch, key, end);
    if any {
      SelectExact(SqlLog.Present(batch), key, end);
      out := FilterNewer(inRange, last);
    }
  }

  /** The revision a watch lists from: the one before the requested, except that 1 stays 1. */
  function Base(revision: nat): nat {
    if revision > 1 then revision - 1 else revision
  }

  function Listed(t: Table, key: string, end: string, revision: nat): seq<Versioned> {
    After(t, key, end, Base(revision), 0)
  }

  /** Where the stream is cut: at the head of the list, or at the start revision when the list is empty. */
  function Cut(t: Table, key: string, end: string, revision: nat): nat {
    if Listed(t, key, end, revision) != [] then MaxId(t) else Base(revision)
  }

  /** All a watch sends, given the table of its list and what the stream handed it. */
  function Sends(t: Table, key: string, end: string, revision: nat, stream: seq<Versioned>): seq<Versioned> {
    Listed(t, key, end, revision) + Newer(Select(stream, key, end), Cut(t, key, end, revision))
  }

  /**
    LogStructured.Watch over the batches its subscription received. An empty list has no compact
    revision in its rows, so that is read later, from whatever the table is then.
   */
  method Watch(t: Table, later: Table, key: string, end: string, revision: nat, feed: seq<seq<Option<Versioned>>>)
    returns (accepted: bool, sent: seq<Versioned>)
    requires forall batch :: batch in feed ==> Ascending(SqlLog.Present(batch))
    ensures accepted <==> Base(revision) == 0
                          || CompactRev(if Listed(t, key, end, revision) == [] then later else t) <= Base(revision)
    ensures accepted ==> sent == Sends(t, key, end, revision, Flat(feed))
  {
    var start := revision;
    if start > 1 {
      start := start - 1;
    }
    var rows := After(t, key, end, start, 0);
    var compact := CompactRev(if rows == [] then later else t);
    sent := [];
    if start > 0 && start < compact {
      return false, [];
    }
    accepted := true;
    var last := if rows != [] then MaxId(t) else start;
    var streamed := Stream(feed, key, end, last);
    sent := rows + streamed;
  }

  /** The loop over the batches of the subscription. */
  method Stream(feed: seq<seq<Option<Versioned>>>, key: string, end: string, last: nat) returns (sent: seq<Versioned>)
    requires forall batch :: batch in feed ==> Ascending(SqlLog.Present(batch))
    ensures sent == Newer(Select(Flat(feed), key, end), last)
  {
    sent := [];
    var i := 0;
    assert feed[..0] == [];
    while i < |feed|
      invariant 0 <= i <= |feed|
      invariant sent == Newer(Select(Flat(feed[..i]), key, end), last)
    {
      assert feed[i] in feed;
      var out := Forward(feed[i], key, end, last);
      FlatNext(feed, i);
      SelectConcat(Flat(feed[..i]), SqlLog.Present(feed[i]), key, end);
      NewerConcat(Select(Flat(feed[..i]), key, end), Select(SqlLog.Present(feed[i]), key, end), last);
      sent := sent + out;
      i := i + 1;
    }
    assert feed[..i] == feed;
  }

  lemma FlatNext(feed: seq<seq<Option<Versioned>>>, i: nat)
    requires i < |feed|
    ensures Flat(feed[..i + 1]) == Flat(feed[..i]) + SqlLog.Present(feed[i])
  {
    assert feed[..i + 1][..i] == feed[..i];
  }

  // ---------------------------------------------------------- what a watch is owed

  lemma AfterExact(t: Table, key: string, end: string, rev: nat)
    ensures var r := After(t, key, end, rev, 0);
            && Ascending(r)
            && forall v :: v in r <==> rev < v.id && v.id in t && t[v.id] == v.row && AfterMatch(v.row.name, key, end)
  {
    var r, ids := After(t, key, end, rev, 0), SortedIds(IdsAfter(t, key, end, rev));
    AfterRows(t, key, end, rev, 0);
    hide After, SortedIds, AfterMatch;
    forall v: Versioned | rev < v.id && v.id in t && t[v.id] == v.row && AfterMatch(v.row.name, key, end) ensures v in r {
      assert v.id in ids;
      var k :| 0 <= k < |ids| && ids[k] == v.id;
      assert r[k] == v;
    }
    forall v | v in r ensures AfterMatch(v.row.name, key, end) {
      var k :| 0 <= k < |r| && r[k] == v;
      assert ids[k] in ids;
    }
  }

  lemma LastIsMax(a: seq<Versioned>)
    requires Ascending(a) && a != []
    ensures forall v :: v in a <==> v in a[..|a| - 1] || v == a[|a| - 1]
    ensures forall v :: v in a[..|a| - 1] <==> v in a && v.id < a[|a| - 1].id
  {
    assert a == a[..|a| - 1] + [a[|a| - 1]];
  }

  lemma SameLast(a: seq<Versioned>, b: seq<Versioned>)
    requires Ascending(a) && Ascending(b) && a != [] && b != [] && forall v :: v in a <==> v in b
    ensures a[|a| - 1] == b[|b| - 1]
  {
    LastIsMax(a);
    LastIsMax(b);
    assert b[|b| - 1] in a && a[|a| - 1] in b;
  }

  lemma NotEmpty(a: seq<Versioned>, b: seq<Versioned>)
    requires a != [] && forall v :: v in a ==> v in b
    ensures b != []
  {
    assert a[0] in b;
  }

  /** Two ascending lists of the same rows are the same list. */
  lemma {:induction false} SameList(a: seq<Versioned>, b: seq<Versioned>)
    requires Ascending(a) && Ascending(b) && forall v :: v in a <==> v in b
    ensures a == b
  {
    if a == [] || b == [] {
      if a != [] { NotEmpty(a, b); }
      if b != [] { NotEmpty(b, a); }
    } else {
      SameLast(a, b);
      var x := a[|a| - 1];
      var a', b' := a[..|a| - 1], b[..|b| - 1];
      LastIsMax(a);
      LastIsMax(b);
      SameList(a', b');
      assert a == a' + [x] && b == b' + [x];
    }
  }

  /** The matching rows of the history from the requested revision on, oldest first. */
  function Owed(full: Table, key: string, end: string, revision: nat, top: nat): seq<Versioned> {
    Select(Poller.EventsBetween(full, if revision == 0 then 0 else revision - 1, top), key, end)
  }

  lemma OwedExact(full: Table, key: string, end: string, revision: nat, top: nat)
    ensures var r := Owed(full, key, end, revision, top);
            && Ascending(r)
            && forall v :: v in r <==> 0 < v.id && revision <= v.id <= top && v.id in full && full[v.id] == v.row
                                       && !IsFill(v.row.name) && InRange(v.row.name, key, end)
  {
    var from := if revision == 0 then 0 else revision - 1;
    Poller.EventsBetweenExact(full, from, top);
    SelectExact(Poller.EventsBetween(full, from, top), key, end);
  }

  /** The range holds client keys: not the compact-revision row, and no fill row. */
  predicate ClientRange(t: Table, full: Table, key: string, end: string) {
    && !InRange(COMPACT_REV_KEY, key, end)
    && (forall i :: i in t && IsFill(t[i].name) ==> !InRange(t[i].name, key, end))
    && (forall i :: i in full && IsFill(full[i].name) ==> !InRange(full[i].name, key, end))
  }

  /** How far a watch has come: the head of its list, or what the stream was handed since, whichever is later. */
  function Top(t: Table, key: string, end: string, revision: nat, streamed: nat): nat {
    if Listed(t, key, end, revision) != [] && streamed < MaxId(t) then MaxId(t) else streamed
  }

  /**
    The rows a watch fails to send. Revision 1 is not reduced before the list, so row 1 is left out; and
    a row at or below the cut that the list did not see (it committed later, or was compacted) comes
    neither with the list nor with the stream.
   */
  predicate Missed(t: Table, full: Table, key: string, end: string, revision: nat, subscribed: nat, top: nat, i: nat) {
    && i in full && 0 < i && revision <= i <= top && InRange(full[i].name, key, end)
    && (revision == i == 1
        || (!(i in t && t[i] == full[i]) && i <= if Listed(t, key, end, revision) != [] then MaxId(t) else subscribed))
  }

  /** What the row of a list is at the end of a run: the same, except for the compact revision and fill rows. */
  predicate SameRow(r: Row, q: Row) {
    (r.name == COMPACT_REV_KEY && q.name == COMPACT_REV_KEY) || (IsFill(r.name) && q.name != COMPACT_REV_KEY) || r == q
  }

  /** The tables fit together as they do between the subscription, the list and the end of a run. */
  predicate Fits(t: Table, full: Table, start: nat, subscribed: nat) {
    && NoZero(full) && start <= subscribed <= MaxId(t)
    && forall i {:trigger i in t} :: i in t ==> i in full && SameRow(t[i], full[i])
  }

  lemma ListedExact(t: Table, full: Table, start: nat, subscribed: nat, key: string, end: string, revision: nat)
    requires Fits(t, full, start, subscribed) && WellFormed(key, end) && ClientRange(t, full, key, end)
    ensures var r := Listed(t, key, end, revision);
            && Ascending(r)
            && forall v :: v in r <==> Base(revision) < v.id && v.id in t && v.id in full && t[v.id] == full[v.id] == v.row
                                       && InRange(v.row.name, key, end)
  {
    AfterExact(t, key, end, Base(revision));
    RangesAgree(key, end);
  }

  lemma StreamExact(full: Table, subscribed: nat, streamed: nat, key: string, end: string, cut: nat)
    ensures var r := Newer(Select(Poller.EventsBetween(full, subscribed, streamed), key, end), cut);
            && Ascending(r)
            && forall v :: v in r <==> cut < v.id && subscribed < v.id <= streamed && v.id in full && full[v.id] == v.row
                                       && !IsFill(v.row.name) && InRange(v.row.name, key, end)
  {
    var events := Poller.EventsBetween(full, subscribed, streamed);
    Poller.EventsBetweenExact(full, subscribed, streamed);
    SelectExact(events, key, end);
    NewerExact(Select(events, key, end), cut);
  }

  lemma SendsAscending(t: Table, full: Table, start: nat, subscribed: nat, streamed: nat, key: string, end: string, revision: nat)
    requires Fits(t, full, start, subscribed) && WellFormed(key, end) && ClientRange(t, full, key, end)
    ensures Ascending(Sends(t, key, end, revision, Poller.EventsBetween(full, subscribed, streamed)))
  {
    var cut := Cut(t, key, end, revision);
    var listed := Listed(t, key, end, revision);
    var live := Newer(Select(Poller.EventsBetween(full, subscribed, streamed), key, end), cut);
    ListedExact(t, full, start, subscribed, key, end, revision);
    StreamExact(full, subscribed, streamed, key, end, cut);
    forall i | 0 <= i < |listed| ensures listed[i].id <= MaxId(t) { assert listed[i] in listed; }
    forall i | 0 <= i < |live| ensures cut < live[i].id { assert live[i] in live; }
  }

  lemma SendsExact(t: Table, full: Table, start: nat, subscribed: nat, streamed: nat, key: string, end: string, revision: nat)
    requires Fits(t, full, start, subscribed) && WellFormed(key, end) && ClientRange(t, full, key, end) && subscribed <= streamed
    ensures var sent := Sends(t, key, end, revision, Poller.EventsBetween(full, subscribed, streamed));
            var top := Top(t, key, end, revision, streamed);
            && Ascending(sent)
            && forall v :: v in sent <==> v in Owed(full, key, end, revision, top)
                                          && !Missed(t, full, key, end, revision, subscribed, top, v.id)
  {
    SendsAscending(t, full, start, subscribed, streamed, key, end, revision);
    var cut, top := Cut(t, key, end, revision), Top(t, key, end, revision, streamed);
    var listed := Listed(t, key, end, revision);
    var live := Newer(Select(Poller.EventsBetween(full, subscribed, streamed), key, end), cut);
    ListedExact(t, full, start, subscribed, key, end, revision);
    StreamExact(full, subscribed, streamed, key, end, cut);
    OwedExact(full, key, end, revision, top);
    hide Listed, Newer, Select, Owed, Poller.EventsBetween, Ascending;
    forall v ensures v in listed + live <==> v in Owed(full, key, end, revision, top)
                                             && !Missed(t, full, key, end, revision, subscribed, top, v.id)
    {
      assert v in listed + live <==> v in listed || v in live;
      if v in listed { assert listed != []; }
    }
  }

  // ------------------------------------------------------------------ main results

  /** What the subscription is handed between two states of a run. */
  function Handed(s: Poller.State, e: Poller.State): seq<Versioned>
    requires s.sent <= e.sent
  {
    e.sent[|s.sent|..]
  }

  lemma PassedSlots(s: Poller.State)
    requires Poller.Inv(s)
    ensures s.sent == Poller.EventsBetween(s.full, s.pollStart, Poller.SentRev(s)) && s.pollStart <= Poller.SentRev(s)
    ensures Poller.NoCompactRevAbove(s.full, s.pollStart)
    ensures forall i {:trigger i in s.full} :: s.pollStart < i <= Poller.SentRev(s) ==> i in s.full
  {
    Poller.HeldIsPast(s);
    Poller.TablesFacts(s.t, s.full, s.nextId, s.pollStart, Poller.HeldRev(s));
  }

  lemma HandedExact(s1: Poller.State, s3: Poller.State)
    requires Poller.Inv(s1) && Poller.Inv(s3) && Poller.Forward(s1, s3)
    ensures Handed(s1, s3) == Poller.EventsBetween(s3.full, Poller.SentRev(s1), Poller.SentRev(s3))
  {
    PassedSlots(s1);
    PassedSlots(s3);
    Poller.HeldIsPast(s1);
    Poller.KeepsEvents(s1.full, s3.full, s1.pollStart, Poller.HeldRev(s1), s1.pollStart, Poller.SentRev(s1));
    Poller.EventsSplit(s3.full, s1.pollStart, Poller.SentRev(s1), Poller.SentRev(s3));
  }

  lemma StatesFit(s1: Poller.State, s2: Poller.State, s3: Poller.State)
    requires Poller.Inv(s1) && Poller.Inv(s2) && Poller.Inv(s3) && Poller.Forward(s1, s2) && Poller.Forward(s2, s3)
    ensures Fits(s2.t, s3.full, s1.pollStart, Poller.SentRev(s1))
  {
    RowsFit(s2.t, s2.full, s2.nextId, s2.pollStart, Poller.HeldRev(s2), s3.t, s3.full, s3.nextId, Poller.HeldRev(s3));
    SubscribedBelowHead(s1, s2);
  }

  lemma SubscribedBelowHead(s1: Poller.State, s2: Poller.State)
    requires Poller.Inv(s1) && Poller.Forward(s1, s2)
    ensures s1.pollStart <= Poller.SentRev(s1) <= MaxId(s2.t)
  {
  }

  lemma RowsFit(t: Table, full: Table, nextId: nat, start: nat, held: nat, t': Table, full': Table, nextId': nat, held': nat)
    requires Poller.Tables(t, full, nextId, start, held) && Poller.Tables(t', full', nextId', start, held')
    requires Poller.KeepsRows(full, full', start, held)
    ensures NoZero(full')
    ensures forall i {:trigger i in t} :: i in t ==>
         i in full' && SameRow(t[i], full'[i])
  {
  }

  /** Three states of one run: a watch subscribes in the first, lists in the second, and is looked at in the third. */
  ghost predicate OneRun(s: Poller.State, a1: seq<Poller.Action>, a2: seq<Poller.Action>, a3: seq<Poller.Action>) {
    && Poller.Init(s) && Poller.AllowedRun(s, a1)
    && Poller.AllowedRun(Poller.Run(s, a1), a2)
    && Poller.AllowedRun(Poller.Run(Poller.Run(s, a1), a2), a3)
  }

  lemma RunStates(s: Poller.State, a1: seq<Poller.Action>, a2: seq<Poller.Action>, a3: seq<Poller.Action>)
    requires OneRun(s, a1, a2, a3)
    ensures var s1 := Poller.Run(s, a1);
            var s2 := Poller.Run(s1, a2);
            var s3 := Poller.Run(s2, a3);
            Poller.Inv(s1) && Poller.Inv(s2) && Poller.Inv(s3) && Poller.Forward(s1, s2) && Poller.Forward(s2, s3)
  {
    var s1 := Poller.Run(s, a1);
    var s2 := Poller.Run(s1, a2);
    Poller.InitInv(s);
    Poller.RunKeeps(s, a1);
    Poller.RunKeeps(s1, a2);
    Poller.RunKeeps(s2, a3);
    Poller.CachesMoveForward(s1, a2);
    Poller.CachesMoveForward(s2, a3);
  }

  /**
    In every run of writers, poller and compactions, a watch sends rows it owes only, each once and in
    ascending order; and it sends all of them exactly when it missed none.
   */
  lemma WatchIsExact(s: Poller.State, a1: seq<Poller.Action>, a2: seq<Poller.Action>, a3: seq<Poller.Action>,
                     key: string, end: string, revision: nat)
    requires OneRun(s, a1, a2, a3)
    requires var s2 := Poller.Run(Poller.Run(s, a1), a2);
             WellFormed(key, end) && ClientRange(s2.t, Poller.Run(s2, a3).full, key, end)
    ensures var s1 := Poller.Run(s, a1);
            var s2 := Poller.Run(s1, a2);
            var s3 := Poller.Run(s2, a3);
            && s1.sent <= s3.sent
            && var sent := Sends(s2.t, key, end, revision, Handed(s1, s3));
               var top := Top(s2.t, key, end, revision, Poller.SentRev(s3));
               var owed := Owed(s3.full, key, end, revision, top);
               && Ascending(sent) && (forall v :: v in sent ==> v in owed)
               && (sent == owed <==>
                     forall i :: !Missed(s2.t, s3.full, key, end, revision, Poller.SentRev(s1), top, i))
  {
    RunStates(s, a1, a2, a3);
    var s1 := Poller.Run(s, a1);
    var s2 := Poller.Run(s1, a2);
    ExactBetween(s1, s2, Poller.Run(s2, a3), key, end, revision);
  }

  lemma ExactBetween(s1: Poller.State, s2: Poller.State, s3: Poller.State, key: string, end: string, revision: nat)
    requires Poller.Inv(s1) && Poller.Inv(s2) && Poller.Inv(s3) && Poller.Forward(s1, s2) && Poller.Forward(s2, s3)
    requires WellFormed(key, end) && ClientRange(s2.t, s3.full, key, end)
    ensures s1.sent <= s3.sent
    ensures var sent := Sends(s2.t, key, end, revision, Handed(s1, s3));
            var top := Top(s2.t, key, end, revision, Poller.SentRev(s3));
            var owed := Owed(s3.full, key, end, revision, top);
            && Ascending(sent) && (forall v :: v in sent ==> v in owed)
            && (sent == owed <==>
                  forall i :: !Missed(s2.t, s3.full, key, end, revision, Poller.SentRev(s1), top, i))
  {
    Poller.ForwardTransitive(s1, s2, s3);
    HandedExact(s1, s3);
    StatesFit(s1, s2, s3);
    ExactIffNoneMissed(s2.t, s3.full, s1.pollStart, Poller.SentRev(s1), Poller.SentRev(s3), key, end, revision);
  }

  lemma ExactIffNoneMissed(t: Table, full: Table, start: nat, subscribed: nat, streamed: nat, key: string, end: string, revision: nat)
    requires Fits(t, full, start, subscribed) && WellFormed(key, end) && ClientRange(t, full, key, end) && subscribed <= streamed
    ensures var sent := Sends(t, key, end, revision, Poller.EventsBetween(full, subscribed, streamed));
            var top := Top(t, key, end, revision, streamed);
            var owed := Owed(full, key, end, revision, top);
            && Ascending(sent) && (forall v :: v in sent ==> v in owed)
            && (sent == owed <==> forall i :: !Missed(t, full, key, end, revision, subscribed, top, i))
  {
    SendsExact(t, full, start, subscribed, streamed, key, end, revision);
    var top := Top(t, key, end, revision, streamed);
    var sent := Sends(t, key, end, revision, Poller.EventsBetween(full, subscribed, streamed));
    var owed := Owed(full, key, end, revision, top);
    OwedExact(full, key, end, revision, top);
    if forall i :: !Missed(t, full, key, end, revision, subscribed, top, i) {
      SameList(sent, owed);
    } else {
      var i :| Missed(t, full, key, end, revision, subscribed, top, i);
      assert Versioned(i, full[i]) in owed && Versioned(i, full[i]) !in sent;
    }
  }

  /** Every row in the range that ends up at or below the head of the list was visible when it was made. */
  predicate InOrder(s2: Poller.State, full: Table, key: string, end: string) {
    forall i {:trigger i in s2.full} {:trigger i in full} ::
      i in full && i <= MaxId(s2.t) && InRange(full[i].name, key, end) ==> i in s2.full && s2.full[i] == full[i]
  }

  /**
    With ids that become visible in order, an accepted watch from any revision but 1 sends exactly what
    it owes; in particular no compaction had removed any of it. Accepted means that the start lies at
    or above the compact revision at the list (from revision 0: that nothing was compacted yet).
   */
  lemma AcceptedWatchSendsAll(s: Poller.State, a1: seq<Poller.Action>, a2: seq<Poller.Action>, a3: seq<Poller.Action>,
                              key: string, end: string, revision: nat)
    requires OneRun(s, a1, a2, a3)
    requires var s2 := Poller.Run(Poller.Run(s, a1), a2);
             var s3 := Poller.Run(s2, a3);
             && WellFormed(key, end) && ClientRange(s2.t, s3.full, key, end)
             && revision != 1 && CompactRev(s2.t) <= Base(revision) && InOrder(s2, s3.full, key, end)
    ensures var s1 := Poller.Run(s, a1);
            var s2 := Poller.Run(s1, a2);
            var s3 := Poller.Run(s2, a3);
            && s1.sent <= s3.sent
            && Sends(s2.t, key, end, revision, Handed(s1, s3))
               == Owed(s3.full, key, end, revision, Top(s2.t, key, end, revision, Poller.SentRev(s3)))
  {
    RunStates(s, a1, a2, a3);
    var s1 := Poller.Run(s, a1);
    var s2 := Poller.Run(s1, a2);
    AllSentBetween(s1, s2, Poller.Run(s2, a3), key, end, revision);
  }

  lemma AllSentBetween(s1: Poller.State, s2: Poller.State, s3: Poller.State, key: string, end: string, revision: nat)
    requires Poller.Inv(s1) && Poller.Inv(s2) && Poller.Inv(s3) && Poller.Forward(s1, s2) && Poller.Forward(s2, s3)
    requires WellFormed(key, end) && ClientRange(s2.t, s3.full, key, end)
    requires revision != 1 && CompactRev(s2.t) <= Base(revision) && InOrder(s2, s3.full, key, end)
    ensures s1.sent <= s3.sent
    ensures Sends(s2.t, key, end, revision, Handed(s1, s3))
            == Owed(s3.full, key, end, revision, Top(s2.t, key, end, revision, Poller.SentRev(s3)))
  {
    ExactBetween(s1, s2, s3, key, end, revision);
    SubscribedBelowHead(s1, s2);
    var top := Top(s2.t, key, end, revision, Poller.SentRev(s3));
    NothingGone(s2);
    NoneMissed(s2.t, s2.full, s3.full, key, end, revision, Poller.SentRev(s1), top);
  }

  lemma NoneMissed(t: Table, full: Table, full': Table, key: string, end: string, revision: nat, subscribed: nat, top: nat)
    requires revision != 1 && CompactRev(t) <= Base(revision) && subscribed <= MaxId(t)
    requires forall i {:trigger i in full} :: i in full && CompactRev(t) < i && !IsFill(full[i].name) ==> i in t && t[i] == full[i]
    requires forall i {:trigger i in full'} :: i in full' && IsFill(full'[i].name) ==> !InRange(full'[i].name, key, end)
    requires forall i {:trigger i in full'} :: i in full' && i <= MaxId(t) && InRange(full'[i].name, key, end) ==>
               i in full && full[i] == full'[i]
    ensures forall i :: !Missed(t, full', key, end, revision, subscribed, top, i)
  {
  }

  lemma NothingGone(s: Poller.State)
    requires Poller.Inv(s)
    ensures forall i {:trigger i in s.full} :: i in s.full && CompactRev(s.t) < i && !IsFill(s.full[i].name) ==> i in s.t && s.t[i] == s.full[i]
  {
  }

  // ---------------------------------------------------- when ids become visible in order

  /** A row of the history that was there at the list already. */
  predicate Old(s2: Poller.State, s: Poller.State, i: nat) {
    i in s2.full && i in s.full && (s2.full[i] == s.full[i] || s.full[i].name == COMPACT_REV_KEY)
  }

  /** Since the list, rows came with ids above all ids handed out by then, or they are fill rows. */
  predicate Since(s2: Poller.State, s: Poller.State) {
    && s2.nextId <= s.nextId
    && (forall i {:trigger i in s.full} :: i in s.full ==> Old(s2, s, i) || s2.nextId <= i || IsFill(s.full[i].name))
    && (forall op :: op in s.ops && s.ops[op].Reserved? ==> s2.nextId <= s.ops[op].id)
  }

  lemma SinceOp(s2: Poller.State, s: Poller.State, a: Poller.Action)
    requires Since(s2, s)
    ensures Since(s2, Poller.ApplyOp(s, a))
  {
  }

  lemma SinceCompact(s2: Poller.State, s: Poller.State, a: Poller.Action)
    requires Since(s2, s)
    ensures Since(s2, Poller.ApplyCompact(s, a))
  {
    var s' := Poller.ApplyCompact(s, a);
    assert s'.nextId == s.nextId && s'.ops == s.ops;
    forall i | i in s'.full ensures Old(s2, s', i) || s2.nextId <= i || IsFill(s'.full[i].name) {
      assert i in s.full && s'.full[i].name == s.full[i].name;
    }
  }

  lemma SincePoll(s2: Poller.State, s: Poller.State, a: Poller.Action)
    requires Since(s2, s)
    ensures Since(s2, Poller.ApplyPoll(s, a))
  {
    if a.PollFill? && s.phase.Decided? { Poller.FillRowIsFill(s.phase.v.rev + 1); }
    if a.PollDecide? && s.phase.Fetched? {
      forall j ensures IsFill(FillRow(j).name) { Poller.FillRowIsFill(j); }
    }
  }

  lemma SinceStep(s2: Poller.State, s: Poller.State, a: Poller.Action)
    requires Since(s2, s)
    ensures Since(s2, Poller.Apply(s, a))
  {
    if Poller.IsOpStep(a) { SinceOp(s2, s, a); }
    else if Poller.IsCompactStep(a) { SinceCompact(s2, s, a); }
    else { SincePoll(s2, s, a); }
  }

  lemma {:induction false} SinceRun(s2: Poller.State, s: Poller.State, actions: seq<Poller.Action>)
    requires Since(s2, s)
    ensures Since(s2, Poller.Run(s, actions))
    decreases |actions|
  {
    if actions != [] {
      SinceStep(s2, s, actions[0]);
      SinceRun(s2, Poller.Apply(s, actions[0]), actions[1..]);
    }
  }

  /**
    SQLite holds no id outside its one statement, so no id is reserved when a watch lists. From such a
    state every run keeps ids in order, and the accepted watch sends exactly what it owes.
   */
  lemma NoneReservedMeansExact(s: Poller.State, a1: seq<Poller.Action>, a2: seq<Poller.Action>, a3: seq<Poller.Action>,
                               key: string, end: string, revision: nat)
    requires OneRun(s, a1, a2, a3)
    requires var s2 := Poller.Run(Poller.Run(s, a1), a2);
             && (forall op :: op in s2.ops ==> !s2.ops[op].Reserved?)
             && WellFormed(key, end) && ClientRange(s2.t, Poller.Run(s2, a3).full, key, end)
             && revision != 1 && CompactRev(s2.t) <= Base(revision)
    ensures var s1 := Poller.Run(s, a1);
            var s2 := Poller.Run(s1, a2);
            var s3 := Poller.Run(s2, a3);
            && s1.sent <= s3.sent
            && Sends(s2.t, key, end, revision, Handed(s1, s3))
               == Owed(s3.full, key, end, revision, Top(s2.t, key, end, revision, Poller.SentRev(s3)))
  {
    RunStates(s, a1, a2, a3);
    var s1 := Poller.Run(s, a1);
    var s2 := Poller.Run(s1, a2);
    var s3 := Poller.Run(s2, a3);
    SinceRun(s2, s2, a3);
    HeadBelowNext(s2);
    SinceInOrder(s2, s3, key, end);
    AllSentBetween(s1, s2, s3, key, end, revision);
  }

  lemma SinceInOrder(s2: Poller.State, s3: Poller.State, key: string, end: string)
    requires Since(s2, s3) && MaxId(s2.t) < s2.nextId && ClientRange(s2.t, s3.full, key, end)
    ensures InOrder(s2, s3.full, key, end)
  {
  }

  lemma HeadBelowNext(s: Poller.State)
    requires Poller.Inv(s)
    ensures MaxId(s.t) < s.nextId
  {
    assert MaxId(s.t) != 0 ==> MaxId(s.t) in s.t;
  }
}

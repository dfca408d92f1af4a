/**
  Create, Update and Delete of the log-structured backend, interleaved with each other and with
  compactions. A writer reads the newest row of its key, then inserts a row that names the revision
  it read; nothing is locked in between. The unique (name, prev_revision) index is the only guard,
  and compaction removes rows from under it.

  full is the history nobody compacts: it exists for the specification only. The invariant says the
  table always is that history less its dead rows, and that the history of every key is one line.
 */
module Writers {
  import opened Options
  import opened KineTable
  import opened Compaction

  datatype Request =
    | CreateReq(key: string, value: Bytes, lease: int)
    | UpdateReq(key: string, value: Bytes, revision: nat, lease: int)
    | DeleteReq(key: string, revision: nat)

  /** What a call answers without writing, or the row it goes on to insert. */
  datatype Prepared =
    | KeyExists
    | Answer(kv: Option<Versioned>, ok: bool)
    | Proceed(row: Row)

  /** A writer between its read and its insert. head is MAX(id) at the read, seen the key's newest id ever. */
  datatype Pending = Pending(row: Row, head: nat, seen: nat)

  datatype State = State(t: Table, full: Table, head: nat, floor: nat, pending: map<nat, Pending>)

  datatype Action =
    | Read(op: nat, req: Request)
    | Insert(op: nat)
    | Abort(op: nat)
    | Compact(target: nat)

  // ------------------------------------------------------------- the operations

  /** LogStructured.get at the current revision. */
  function Get(t: Table, key: string, includeDeleted: bool): Option<Versioned> {
    var m := Selected(t, Current, key, "", includeDeleted);
    if key in m then Some(m[key]) else None
  }

  /** scan gives a created row its own id as create revision. */
  function CreateRevOf(v: Versioned): nat {
    if v.row.created then v.id else v.row.createRev
  }

  /** The read half of Create, Update and Delete. */
  function Prepare(t: Table, req: Request): Prepared {
    match req
    case CreateReq(key, value, lease) =>
      (match Get(t, key, true)
       case None => Proceed(Row(key, true, false, 0, 0, lease, value, ""))
       case Some(v) =>
         if !v.row.deleted then KeyExists
         else Proceed(Row(key, true, false, 0, v.id, lease, value, "")))
    case UpdateReq(key, value, revision, lease) =>
      (match Get(t, key, false)
       case None => Answer(None, false)
       case Some(v) =>
         if v.id != revision then Answer(Some(v), false)
         else Proceed(Row(key, false, false, CreateRevOf(v), v.id, lease, value, "")))
    case DeleteReq(key, revision) =>
      (match Get(t, key, true)
       case None => Answer(None, true)
       case Some(v) =>
         if v.row.deleted then Answer(None, false)
         else if revision != 0 && v.id != revision then Answer(Some(v), false)
         else Proceed(Row(key, false, true, 0, v.id, 0, "", "")))
  }

  /** The INSERT statement reads the old value in the same statement. */
  function WithOld(t: Table, row: Row): Row {
    row.(oldValue := if row.prevRev in t then t[row.prevRev].value else "")
  }

  // ------------------------------------------------------------------- the steps

  function Apply(s: State, a: Action): State {
    match a
    case Read(op, req) =>
      (match Prepare(s.t, req)
       case Proceed(row) =>
         s.(pending := s.pending[op := Pending(row, s.head, Newest(s.full, row.name, Current))])
       case _ => s)
    case Insert(op) =>
      if op !in s.pending then s
      else
        var row := s.pending[op].row;
        var rest := s.pending - {op};
        if Conflict(s.t, row.name, row.prevRev) then s.(pending := rest)
        else
          var id, r := s.head + 1, WithOld(s.t, row);
          s.(t := s.t[id := r], full := s.full[id := r], head := id, pending := rest)
    case Abort(op) => s.(pending := s.pending - {op})
    case Compact(target) =>
      s.(t := CompactTo(s.t, target), full := SetCompactRev(s.full, target),
         floor := if s.floor < target then target else s.floor)
  }

  /** The insert of this operation would succeed now. */
  predicate Succeeds(s: State, op: nat) {
    op in s.pending && !Conflict(s.t, s.pending[op].row.name, s.pending[op].row.prevRev)
  }

  /** No row of the operation's key was inserted since its read. */
  predicate Untouched(s: State, op: nat) {
    op in s.pending && Newest(s.full, s.pending[op].row.name, Current) == s.pending[op].seen
  }

  /** A create that read a tombstone and links to it. */
  predicate OverTombstone(w: Pending) {
    w.row.created && w.row.prevRev != 0
  }

  /**
    What a compaction must not do to the unique index. Where a pending operation is beaten, some row that
    holds its index entry must stay; where it is not, a create must keep the tombstone it read. Target is at
    most the head.
   */
  predicate ExactSafe(s: State, target: nat) {
    target <= s.head && forall op {:trigger EntryKept(s.t, target, s.pending[op])} :: op in s.pending ==> EntryKept(s.t, target, s.pending[op])
  }

  predicate EntryKept(t: Table, target: nat, w: Pending) {
    if Conflict(t, w.row.name, w.row.prevRev) then Conflict(CompactSql(t, target), w.row.name, w.row.prevRev)
    else OverTombstone(w) ==> target < w.row.prevRev
  }

  /**
    A bound that is enough, and that needs no look at the rows: the target is at most the head each pending
    operation read under, and below the tombstone each create that could still succeed has read.
   */
  predicate CompactSafe(s: State, target: nat) {
    && target <= s.head
    && forall op :: op in s.pending ==>
         target <= s.pending[op].head && (OverTombstone(s.pending[op]) && Succeeds(s, op) ==> target < s.pending[op].row.prevRev)
  }

  predicate Allowed(s: State, a: Action) {
    match a
    case Read(op, req) => op !in s.pending && req.key != COMPACT_REV_KEY
    case Insert(op) => op in s.pending
    case Abort(op) => op in s.pending
    case Compact(target) => ExactSafe(s, target)
  }

  function Run(s: State, actions: seq<Action>): State
    decreases |actions|
  {
    if actions == [] then s else Run(Apply(s, actions[0]), actions[1..])
  }

  predicate AllowedRun(s: State, actions: seq<Action>)
    decreases |actions|
  {
    actions == [] || (Allowed(s, actions[0]) && AllowedRun(Apply(s, actions[0]), actions[1..]))
  }

  // -------------------------------------------------------------- the invariant

  /**
    Row j continues the line of its key: it names its predecessor (or nothing, when the predecessor
    is a tombstone already compacted), a create follows nothing or a tombstone, an update or a delete
    follows a live row and carries that row's value and create revision.
   */
  predicate Continues(full: Table, floor: nat, j: nat)
    requires j in full
  {
    var r, p := full[j], Pred(full, full[j].name, j);
    && (r.prevRev == p || (r.prevRev == 0 && p in full && full[p].deleted && p <= floor))
    && (p != 0 ==> p in full)
    && (r.created <==> p == 0 || full[p].deleted)
    && (r.created ==> !r.deleted)
    && (!r.created ==> r.oldValue == full[p].value)
    && (!r.created && !r.deleted ==> r.createRev == CreateRevOf(Versioned(p, full[p])))
  }

  predicate Linear(full: Table, floor: nat) {
    && NoZero(full)
    && (forall j {:trigger Continues(full, floor, j)} :: j in full && full[j].name != COMPACT_REV_KEY ==> Continues(full, floor, j))
    && (forall j :: j in full && full[j].name == COMPACT_REV_KEY ==> !full[j].deleted)
  }

  /** The row this operation read is still the newest of its key. */
  predicate Fresh(t: Table, full: Table, floor: nat, w: Pending) {
    && (if w.row.prevRev != 0 || w.seen == 0 then w.row.prevRev == w.seen && (w.seen != 0 ==> w.seen in t)
        else w.seen in full && full[w.seen].deleted && w.seen <= floor)
    && (w.seen != 0 ==> w.seen in full)
    && (w.row.created <==> w.seen == 0 || full[w.seen].deleted)
    && (w.row.created ==> !w.row.deleted)
    && (!w.row.created && !w.row.deleted ==> w.row.createRev == CreateRevOf(Versioned(w.seen, full[w.seen])))
  }

  /** No row of the key came between the newest row the operation saw and the head it read under. */
  predicate NoneBetween(full: Table, w: Pending) {
    forall j {:trigger full[j]} :: j in full && full[j].name == w.row.name ==> j <= w.seen || w.head < j
  }

  /** It names the row it saw, or nothing: then there was none, or a tombstone that was compacted already. */
  predicate NamesSeen(full: Table, floor: nat, w: Pending) {
    w.row.prevRev == w.seen || (w.row.prevRev == 0 && w.seen in full && full[w.seen].deleted && w.seen <= floor)
  }

  predicate PendingOk(t: Table, full: Table, floor: nat, head: nat, w: Pending) {
    && w.row.name != COMPACT_REV_KEY
    && w.seen <= w.head <= head
    && w.seen <= Newest(full, w.row.name, Current)
    && NoneBetween(full, w) && NamesSeen(full, floor, w)
    && (w.seen != 0 ==> w.seen in full && full[w.seen].name == w.row.name)
    && (if Newest(full, w.row.name, Current) == w.seen then Fresh(t, full, floor, w)
        else Conflict(t, w.row.name, w.row.prevRev))
  }

  predicate AllPendingOk(t: Table, full: Table, floor: nat, head: nat, pending: map<nat, Pending>) {
    forall op {:trigger PendingOk(t, full, floor, head, pending[op])} :: op in pending ==> PendingOk(t, full, floor, head, pending[op])
  }

  predicate Inv(s: State) {
    && Linear(s.full, s.floor)
    && s.t == Live(s.full, s.floor)
    && (forall i :: i in s.full ==> i <= s.head)
    && s.floor <= s.head
    && AllPendingOk(s.t, s.full, s.floor, s.head, s.pending)
  }

  /** A fresh table: at most the compact-revision row. */
  predicate Init(s: State) {
    && s.pending == map[] && s.floor == 0 && s.t == s.full
    && NoZero(s.full)
    && (forall i :: i in s.full ==> i <= s.head && s.full[i].name == COMPACT_REV_KEY && !s.full[i].deleted)
  }

  lemma InitInv(s: State)
    requires Init(s)
    ensures Inv(s)
  {
    assert Live(s.full, 0) == s.full;
  }

  lemma InvChain(s: State)
    requires Inv(s)
    ensures Chain(s.t)
  {
    forall j | j in s.t && s.t[j].name != COMPACT_REV_KEY ensures Link(s.t, j) {
      assert Continues(s.full, s.floor, j);
      LivePred(s.full, s.floor, j);
      var p := Pred(s.full, s.t[j].name, j);
      assert p != 0 && s.full[p].deleted && p <= s.floor ==> Dead(s.full, s.floor, p);
    }
  }

  // ------------------------------------------------- the index decides exactly

  /** A tombstone that is compacted takes every older row of its key with it. */
  lemma DeadTombstone(full: Table, floor: nat, d: nat, j: nat)
    requires d in full && full[d].deleted && d <= floor && full[d].name != COMPACT_REV_KEY
    requires j in full && full[j].name == full[d].name && j <= d
    ensures Dead(full, floor, j)
  {
  }

  lemma FreshRowDiffers(full: Table, floor: nat, w: Pending, j: nat)
    requires NoZero(full) && w.row.name != COMPACT_REV_KEY
    requires w.seen == Newest(full, w.row.name, Current) && Fresh(Live(full, floor), full, floor, w)
    requires j in Live(full, floor) && full[j].name == w.row.name && Continues(full, floor, j)
    ensures full[j].prevRev != w.row.prevRev
  {
    assert 0 < j <= w.seen;
    if w.row.prevRev == 0 {
      DeadTombstone(full, floor, w.seen, j);
    } else {
      assert Pred(full, w.row.name, j) < w.seen;
    }
  }

  lemma FreshHasNoConflict(full: Table, floor: nat, w: Pending)
    requires Linear(full, floor) && w.row.name != COMPACT_REV_KEY
    requires w.seen == Newest(full, w.row.name, Current) && Fresh(Live(full, floor), full, floor, w)
    ensures !Conflict(Live(full, floor), w.row.name, w.row.prevRev)
  {
    var t := Live(full, floor);
    forall j | j in t && t[j].name == w.row.name ensures t[j].prevRev != w.row.prevRev {
      assert Continues(full, floor, j);
      FreshRowDiffers(full, floor, w, j);
    }
  }

  /** The unique index refuses an insert exactly when the key was written since the operation's read. */
  lemma InsertIffUntouched(s: State, op: nat)
    requires Inv(s) && op in s.pending
    ensures Succeeds(s, op) <==> Untouched(s, op)
  {
    var w := s.pending[op];
    assert PendingOk(s.t, s.full, s.floor, s.head, w);
    if Untouched(s, op) {
      FreshHasNoConflict(s.full, s.floor, w);
    }
  }

  // ------------------------------------------------- every step keeps the invariant

  lemma GetIsNewest(t: Table, key: string, includeDeleted: bool)
    ensures var n := Newest(t, key, Current);
            Get(t, key, includeDeleted) ==
            if n != 0 && (includeDeleted || !t[n].deleted) then Some(Versioned(n, t[n])) else None
  {
  }

  /** Right after its read a pending operation is fresh. */
  lemma PreparedIsFresh(full: Table, floor: nat, req: Request, head: nat)
    requires NoZero(full) && req.key != COMPACT_REV_KEY && Prepare(Live(full, floor), req).Proceed?
    ensures var row := Prepare(Live(full, floor), req).row;
            row.name == req.key && Fresh(Live(full, floor), full, floor, Pending(row, head, Newest(full, row.name, Current)))
  {
    var t, n := Live(full, floor), Newest(full, req.key, Current);
    GetIsNewest(t, req.key, true);
    GetIsNewest(t, req.key, false);
    LiveNewest(full, floor, req.key, Current);
  }

  lemma ReadKeeps(s: State, op: nat, req: Request)
    requires Inv(s) && Allowed(s, Read(op, req))
    ensures Inv(Apply(s, Read(op, req)))
  {
    var s' := Apply(s, Read(op, req));
    if Prepare(s.t, req).Proceed? {
      PreparedIsFresh(s.full, s.floor, req, s.head);
      forall o | o in s'.pending ensures PendingOk(s'.t, s'.full, s'.floor, s'.head, s'.pending[o]) {
        assert o != op ==> PendingOk(s.t, s.full, s.floor, s.head, s.pending[o]);
      }
    }
  }

  // a row newer than every other of its key leaves every older fact in place

  /** The id is free, and newer than every row of the key. */
  predicate Newer(full: Table, id: nat, name: string) {
    0 < id && id !in full && forall i :: i in full && full[i].name == name ==> i < id
  }

  lemma AppendPred(full: Table, id: nat, row: Row, name: string, j: nat)
    requires NoZero(full) && Newer(full, id, row.name) && (name == row.name ==> j <= id)
    ensures Pred(full[id := row], name, j) == Pred(full, name, j)
  {
    var f := full[id := row];
    var a, b := Pred(f, name, j), Pred(full, name, j);
    assert a != 0 ==> a in full && f[a] == full[a];
    assert b != 0 ==> b in f && f[b] == full[b];
  }

  lemma AppendNewest(full: Table, id: nat, row: Row, name: string)
    requires NoZero(full) && Newer(full, id, row.name)
    ensures Newest(full[id := row], name, Current) == if name == row.name then id else Newest(full, name, Current)
  {
    var f := full[id := row];
    var a, b := Newest(f, name, Current), Newest(full, name, Current);
    assert f[id] == row;
    assert a != 0 && a != id ==> a in full && f[a] == full[a];
    assert b != 0 ==> b in f && f[b] == full[b];
  }

  lemma PredIsNewest(full: Table, id: nat, name: string)
    requires NoZero(full) && Newer(full, id, name)
    ensures Pred(full, name, id) == Newest(full, name, Current)
  {
  }

  lemma AppendContinues(full: Table, floor: nat, id: nat, row: Row, j: nat)
    requires NoZero(full) && Newer(full, id, row.name)
    requires j in full && Continues(full, floor, j)
    ensures Continues(full[id := row], floor, j)
  {
    AppendPred(full, id, row, full[j].name, j);
  }

  lemma NewContinues(full: Table, floor: nat, w: Pending, id: nat)
    requires NoZero(full) && Newer(full, id, w.row.name)
    requires w.seen == Newest(full, w.row.name, Current) && Fresh(Live(full, floor), full, floor, w)
    ensures Continues(full[id := WithOld(Live(full, floor), w.row)], floor, id)
  {
    AppendPred(full, id, WithOld(Live(full, floor), w.row), w.row.name, id);
    PredIsNewest(full, id, w.row.name);
  }

  lemma AppendLinear(full: Table, floor: nat, id: nat, row: Row)
    requires Linear(full, floor) && row.name != COMPACT_REV_KEY
    requires Newer(full, id, row.name)
    requires Continues(full[id := row], floor, id)
    ensures Linear(full[id := row], floor)
  {
    var f := full[id := row];
    forall j | j in f && f[j].name != COMPACT_REV_KEY ensures Continues(f, floor, j) {
      if j != id { AppendContinues(full, floor, id, row, j); }
    }
  }

  /** A fresh operation of the key just written is beaten: it needs the index entry that row now holds. */
  lemma AppendBeats(full: Table, floor: nat, v: Pending, w: Pending, id: nat)
    requires NoZero(full) && Newer(full, id, w.row.name)
    requires v.row.name == w.row.name && v.row.name != COMPACT_REV_KEY
    requires v.seen == w.seen == Newest(full, v.row.name, Current)
    requires Fresh(Live(full, floor), full, floor, v) && Fresh(Live(full, floor), full, floor, w)
    ensures Conflict(Live(full, floor)[id := WithOld(Live(full, floor), w.row)], v.row.name, v.row.prevRev)
  {
    FreshAgree(Live(full, floor), full, floor, v, w);
    var t := Live(full, floor)[id := WithOld(Live(full, floor), w.row)];
    assert t[id].prevRev == v.row.prevRev && t[id].name == v.row.name;
  }

  lemma FreshStays(t: Table, full: Table, floor: nat, v: Pending, id: nat, row: Row)
    requires Fresh(t, full, floor, v) && id !in full && id !in t
    ensures Fresh(t[id := row], full[id := row], floor, v)
  {
  }

  /** What an insert does to another pending operation: of the same key it now is beaten, otherwise nothing. */
  lemma AppendPending(full: Table, floor: nat, head: nat, v: Pending, w: Pending)
    requires NoZero(full) && floor <= head && forall i :: i in full ==> i <= head
    requires w.seen == Newest(full, w.row.name, Current) && Fresh(Live(full, floor), full, floor, w)
    requires PendingOk(Live(full, floor), full, floor, head, v)
    ensures var t, id := Live(full, floor), head + 1;
            var row := WithOld(t, w.row);
            PendingOk(t[id := row], full[id := row], floor, id, v)
  {
    var id, row := head + 1, WithOld(Live(full, floor), w.row);
    AppendNewest(full, id, row, v.row.name);
    if Newest(full, v.row.name, Current) != v.seen {
      ConflictStays(Live(full, floor), v.row.name, v.row.prevRev, id, row);
    } else if v.row.name == w.row.name {
      AppendBeats(full, floor, v, w, id);
    } else {
      FreshStays(Live(full, floor), full, floor, v, id, row);
    }
  }

  /** Two operations that are both fresh on one key hold the same index entry. */
  lemma FreshAgree(t: Table, full: Table, floor: nat, v: Pending, w: Pending)
    requires t == Live(full, floor) && v.row.name == w.row.name && v.seen == w.seen && v.row.name != COMPACT_REV_KEY
    requires v.seen != 0 ==> v.seen in full && full[v.seen].name == v.row.name
    requires Fresh(t, full, floor, v) && Fresh(t, full, floor, w)
    ensures v.row.prevRev == w.row.prevRev
  {
    assert v.seen in t ==> !Dead(full, floor, v.seen);
  }

  lemma InsertKeeps(s: State, op: nat)
    requires Inv(s) && Allowed(s, Insert(op))
    ensures Inv(Apply(s, Insert(op)))
  {
    InsertIffUntouched(s, op);
    assert PendingOk(s.t, s.full, s.floor, s.head, s.pending[op]);
    if Succeeds(s, op) {
      SuccessKeeps(s, op);
    }
  }

  lemma AppendAllPending(full: Table, floor: nat, head: nat, pending: map<nat, Pending>, op: nat)
    requires NoZero(full) && floor <= head && forall i :: i in full ==> i <= head
    requires AllPendingOk(Live(full, floor), full, floor, head, pending)
    requires op in pending && pending[op].seen == Newest(full, pending[op].row.name, Current)
    ensures var t, id := Live(full, floor), head + 1;
            var row := WithOld(t, pending[op].row);
            AllPendingOk(t[id := row], full[id := row], floor, id, pending - {op})
  {
    var t, id := Live(full, floor), head + 1;
    var row, rest := WithOld(t, pending[op].row), pending - {op};
    forall o | o in rest ensures PendingOk(t[id := row], full[id := row], floor, id, rest[o]) {
      assert PendingOk(t, full, floor, head, pending[o]) && PendingOk(t, full, floor, head, pending[op]);
      AppendPending(full, floor, head, pending[o], pending[op]);
    }
  }

  lemma SuccessKeeps(s: State, op: nat)
    requires Inv(s) && Succeeds(s, op) && Untouched(s, op)
    ensures Inv(Apply(s, Insert(op)))
  {
    var w, id := s.pending[op], s.head + 1;
    var row := WithOld(s.t, w.row);
    assert PendingOk(s.t, s.full, s.floor, s.head, w);
    AppendLive(s.full, s.floor, id, row);
    NewContinues(s.full, s.floor, w, id);
    AppendLinear(s.full, s.floor, id, row);
    AppendAllPending(s.full, s.floor, s.head, s.pending, op);
  }

  // compaction

  lemma SetRevLinear(full: Table, rev: nat, floor: nat, floor': nat)
    requires Linear(full, floor) && floor <= floor'
    ensures Linear(SetCompactRev(full, rev), floor')
  {
    var f := SetCompactRev(full, rev);
    forall j | j in f && f[j].name != COMPACT_REV_KEY ensures Continues(f, floor', j) {
      assert Continues(full, floor, j);
      SetRevKeepsPred(full, rev, full[j].name, j);
    }
  }

  lemma SetRevNewest(t: Table, rev: nat, name: string)
    ensures Newest(SetCompactRev(t, rev), name, Current) == Newest(t, name, Current)
  {
    var a, b := Newest(SetCompactRev(t, rev), name, Current), Newest(t, name, Current);
    assert a != 0 ==> a <= b;
    assert b != 0 ==> b <= a;
  }

  /** Moving the compact revision leaves the index entries of client keys alone. */
  lemma SetRevConflict(t: Table, rev: nat, name: string, prevRev: nat)
    requires name != COMPACT_REV_KEY
    ensures Conflict(SetCompactRev(t, rev), name, prevRev) <==> Conflict(t, name, prevRev)
  {
    var u := SetCompactRev(t, rev);
    if Conflict(t, name, prevRev) {
      var j :| j in t && t[j].name == name && t[j].prevRev == prevRev;
      assert u[j] == t[j];
    }
  }

  lemma CompactFresh(full: Table, floor: nat, target: nat, floor': nat, w: Pending)
    requires w.row.name != COMPACT_REV_KEY && w.seen == Newest(full, w.row.name, Current)
    requires Fresh(Live(full, floor), full, floor, w) && (OverTombstone(w) ==> target < w.row.prevRev)
    requires floor' == if floor < target then target else floor
    ensures var f := SetCompactRev(full, target); Fresh(Live(f, floor'), f, floor', w)
  {
    if w.row.prevRev != 0 {
      assert !Dead(full, floor, w.seen);
      assert !Dead(SetCompactRev(full, target), floor', w.seen);
    }
  }

  /** What a compaction does to a pending operation whose entry or tombstone it keeps. */
  lemma CompactPending(full: Table, floor: nat, head: nat, target: nat, w: Pending)
    requires PendingOk(Live(full, floor), full, floor, head, w)
    requires if Newest(full, w.row.name, Current) == w.seen then OverTombstone(w) ==> target < w.row.prevRev
             else Conflict(CompactSql(Live(full, floor), target), w.row.name, w.row.prevRev)
    requires CompactTo(Live(full, floor), target)
             == Live(SetCompactRev(full, target), if floor < target then target else floor)
    ensures var floor' := if floor < target then target else floor;
            PendingOk(CompactTo(Live(full, floor), target), SetCompactRev(full, target), floor', head, w)
  {
    var floor' := if floor < target then target else floor;
    SetRevNewest(full, target, w.row.name);
    SetRevConflict(CompactSql(Live(full, floor), target), target, w.row.name, w.row.prevRev);
    if Newest(full, w.row.name, Current) == w.seen {
      CompactFresh(full, floor, target, floor', w);
    }
  }

  lemma CompactKeeps(s: State, target: nat)
    requires Inv(s) && Allowed(s, Compact(target))
    ensures Inv(Apply(s, Compact(target)))
  {
    var s' := Apply(s, Compact(target));
    InvChain(s);
    SqlIsLive(s.t, target);
    LiveTwice(s.full, s.floor, target);
    SetRevLive(s.full, target, s'.floor);
    SetRevLinear(s.full, target, s.floor, s'.floor);
    forall op | op in s'.pending ensures PendingOk(s'.t, s'.full, s'.floor, s'.head, s'.pending[op]) {
      assert PendingOk(s.t, s.full, s.floor, s.head, s.pending[op]) && EntryKept(s.t, target, s.pending[op]);
      InsertIffUntouched(s, op);
      CompactPending(s.full, s.floor, s.head, target, s.pending[op]);
    }
  }

  lemma StepKeeps(s: State, a: Action)
    requires Inv(s) && Allowed(s, a)
    ensures Inv(Apply(s, a))
  {
    match a
    case Read(op, req) => ReadKeeps(s, op, req);
    case Insert(op) => InsertKeeps(s, op);
    case Abort(op) =>
    case Compact(target) => CompactKeeps(s, target);
  }

  // ------------------------------------------------------------------ main results

  lemma {:induction false} RunKeeps(s: State, actions: seq<Action>)
    requires Inv(s) && AllowedRun(s, actions)
    ensures Inv(Run(s, actions))
    decreases |actions|
  {
    if actions != [] {
      StepKeeps(s, actions[0]);
      RunKeeps(Apply(s, actions[0]), actions[1..]);
    }
  }

  /**
    Over every interleaving of writers and safe compactions: the history of every key is one line, so
    no update is lost; the table is that history less its dead rows; every read at the current
    revision, or at any revision no compaction has passed, shows what the whole history would show.
   */
  lemma NoLostUpdate(s: State, actions: seq<Action>, at: At, key: string, end: string)
    requires Init(s) && AllowedRun(s, actions)
    requires Covers2(at, Run(s, actions).floor)
    ensures var e := Run(s, actions);
            && Linear(e.full, e.floor)
            && Chain(e.t)
            && (forall op :: op in e.pending ==> (Succeeds(e, op) <==> Untouched(e, op)))
            && Selected(e.t, at, key, end, false) == Selected(e.full, at, key, end, false)
  {
    InitInv(s);
    RunKeeps(s, actions);
    var e := Run(s, actions);
    InvChain(e);
    forall op | op in e.pending ensures Succeeds(e, op) <==> Untouched(e, op) {
      InsertIffUntouched(e, op);
    }
    LiveSelected(e.full, e.floor, at, key, end);
  }

  /** Row c created the key that row j updates: no create and no delete of it lies in between. */
  predicate CreatedBy(full: Table, j: nat, c: nat)
    requires j in full
  {
    && c in full && c < j && full[c].name == full[j].name && full[c].created
    && forall i {:trigger full[i]} :: i in full && full[i].name == full[j].name && c < i < j ==> !full[i].created && !full[i].deleted
  }

  /** However often a key is updated, each of its rows carries the revision that created it. */
  lemma {:induction false} CreateRevisionKept(full: Table, floor: nat, j: nat)
    requires Linear(full, floor) && j in full && full[j].name != COMPACT_REV_KEY
    requires !full[j].created && !full[j].deleted
    ensures CreatedBy(full, j, full[j].createRev)
    decreases j
  {
    assert Continues(full, floor, j);
    var p := Pred(full, full[j].name, j);
    if !full[p].created { CreateRevisionKept(full, floor, p); }
  }

  /** In every run: an update's row has the create revision of its key's last create. */
  lemma CreateRevisionsHold(s: State, actions: seq<Action>, j: nat)
    requires Init(s) && AllowedRun(s, actions)
    requires var f := Run(s, actions).full; j in f && f[j].name != COMPACT_REV_KEY && !f[j].created && !f[j].deleted
    ensures var f := Run(s, actions).full; CreatedBy(f, j, f[j].createRev)
  {
    InitInv(s);
    RunKeeps(s, actions);
    var e := Run(s, actions);
    CreateRevisionKept(e.full, e.floor, j);
  }

  // ----------------------------------------------------- when the bound is enough

  /** A row of the key from before the read that is still there does not hold the operation's index entry. */
  lemma OldRowsDiffer(t: Table, full: Table, floor: nat, head: nat, w: Pending, j: nat)
    requires NoZero(full) && t == Live(full, floor) && PendingOk(t, full, floor, head, w)
    requires j in t && full[j].name == w.row.name && j <= w.seen && Continues(full, floor, j)
    ensures full[j].prevRev != w.row.prevRev
  {
    if w.row.prevRev == 0 && w.seen != 0 { DeadTombstone(full, floor, w.seen, j); }
  }

  lemma HoldersAreNew(s: State, op: nat, j: nat)
    requires Inv(s) && op in s.pending
    requires var w := s.pending[op]; j in s.t && s.t[j].name == w.row.name && s.t[j].prevRev == w.row.prevRev
    ensures s.pending[op].head < j
  {
    var w := s.pending[op];
    assert PendingOk(s.t, s.full, s.floor, s.head, w) && Continues(s.full, s.floor, j);
    if j <= w.seen { OldRowsDiffer(s.t, s.full, s.floor, s.head, w, j); }
  }

  /** The bound is enough: whatever holds a pending operation's index entry is newer than the head of its read. */
  lemma BoundIsSafe(s: State, target: nat)
    requires Inv(s) && CompactSafe(s, target)
    ensures ExactSafe(s, target)
  {
    InvChain(s);
    forall op | op in s.pending ensures EntryKept(s.t, target, s.pending[op]) {
      var w := s.pending[op];
      if Conflict(s.t, w.row.name, w.row.prevRev) {
        var j :| j in s.t && s.t[j].name == w.row.name && s.t[j].prevRev == w.row.prevRev;
        HoldersAreNew(s, op, j);
        SqlVictimIsDead(s.t, target, j);
        assert j in CompactSql(s.t, target);
      }
    }
  }

  // ------------------------------------------------ the hypotheses are needed

  lemma CompactedTable(s: State, target: nat)
    requires Inv(s)
    ensures var s' := Apply(s, Compact(target)); s'.t == Live(s'.full, s'.floor)
  {
    InvChain(s);
    SqlIsLive(s.t, target);
    LiveTwice(s.full, s.floor, target);
    SetRevLive(s.full, target, Apply(s, Compact(target)).floor);
  }

  predicate NoRowOf(t: Table, key: string) {
    forall j :: j in t ==> t[j].name != key
  }

  /** A key whose newest row is a compacted tombstone has no row left. */
  lemma KeyGone(full: Table, floor: nat, key: string)
    requires NoZero(full) && key != COMPACT_REV_KEY
    requires var d := Newest(full, key, Current); d != 0 && full[d].deleted && d <= floor
    ensures NoRowOf(Live(full, floor), key)
  {
    forall j | j in full && full[j].name == key ensures j !in Live(full, floor) {
      DeadTombstone(full, floor, Newest(full, key, Current), j);
    }
  }

  lemma CompactedKeyGone(s: State, op: nat, target: nat)
    requires Inv(s) && Untouched(s, op) && OverTombstone(s.pending[op]) && s.pending[op].row.prevRev <= target
    ensures NoRowOf(Apply(s, Compact(target)).t, s.pending[op].row.name)
    ensures Newest(Apply(s, Compact(target)).full, s.pending[op].row.name, Current) == s.pending[op].seen
  {
    var w := s.pending[op];
    assert PendingOk(s.t, s.full, s.floor, s.head, w);
    CompactedTable(s, target);
    SetRevNewest(s.full, target, w.row.name);
    var s' := Apply(s, Compact(target));
    KeyGone(s'.full, s'.floor, w.row.name);
  }

  lemma PrepareFirst(t: Table, key: string, value: Bytes, lease: int)
    requires NoRowOf(t, key)
    ensures Prepare(t, CreateReq(key, value, lease)) == Proceed(Row(key, true, false, 0, 0, lease, value, ""))
    ensures forall rev :: !Conflict(t, key, rev)
  {
    GetIsNewest(t, key, true);
    assert Newest(t, key, Current) == 0;
  }

  /** Creating a key that has no row reads nothing. */
  lemma CreateReads(s: State, other: nat, key: string, value: Bytes, lease: int)
    requires NoRowOf(s.t, key)
    ensures var row := Row(key, true, false, 0, 0, lease, value, "");
            Apply(s, Read(other, CreateReq(key, value, lease)))
            == s.(pending := s.pending[other := Pending(row, s.head, Newest(s.full, key, Current))])
  {
    PrepareFirst(s.t, key, value, lease);
  }

  /** An insert of a key that has no row lands. */
  lemma InsertLands(s: State, op: nat)
    requires op in s.pending && NoRowOf(s.t, s.pending[op].row.name)
    ensures Succeeds(s, op)
    ensures Apply(s, Insert(op)) == Inserted(s, WithOld(s.t, s.pending[op].row), s.pending - {op})
  {
  }

  function Inserted(s: State, row: Row, pending: map<nat, Pending>): State {
    var id := s.head + 1;
    s.(t := s.t[id := row], full := s.full[id := row], head := id, pending := pending)
  }

  /** An insert whose predecessor is a live row it does not name breaks the line of its key. */
  lemma OverwriteBreaksLine(full: Table, id: nat, row: Row, floor: nat)
    requires NoZero(full) && 0 < id && forall i :: i in full ==> i < id
    requires row.name != COMPACT_REV_KEY
    requires var n := Newest(full, row.name, Current);
             n != 0 && row.prevRev != 0 && row.prevRev != n
    ensures !Linear(full[id := row], floor)
  {
    AppendPred(full, id, row, row.name, id);
    PredIsNewest(full, id, row.name);
    assert !Continues(full[id := row], floor, id);
  }

  /** Two creates of a key with no row left, one of them linked to the row that is gone: both land. */
  lemma BothCreatesLand(s1: State, op: nat, other: nat, value: Bytes, lease: int)
    requires op in s1.pending && op != other
    requires var w := s1.pending[op];
             w.row.name != COMPACT_REV_KEY && NoRowOf(s1.t, w.row.name) && 0 < w.row.prevRev <= s1.head && w.seen <= s1.head
    requires NoZero(s1.full) && forall i :: i in s1.full ==> i <= s1.head
    ensures var s2 := Apply(s1, Read(other, CreateReq(s1.pending[op].row.name, value, lease)));
            var s3 := Apply(s2, Insert(other));
            && Succeeds(s2, other) && Succeeds(s3, op)
            && !Untouched(s3, op)
            && forall floor :: !Linear(Apply(s3, Insert(op)).full, floor)
  {
    var key := s1.pending[op].row.name;
    var row := Row(key, true, false, 0, 0, lease, value, "");
    CreateReads(s1, other, key, value, lease);
    BothLand(s1.(pending := s1.pending[other := Pending(row, s1.head, Newest(s1.full, key, Current))]), op, other);
  }

  lemma BothLand(s2: State, op: nat, other: nat)
    requires op in s2.pending && other in s2.pending && op != other
    requires var w, o := s2.pending[op], s2.pending[other];
             && w.row.name == o.row.name != COMPACT_REV_KEY && NoRowOf(s2.t, w.row.name)
             && o.row.prevRev == 0 < w.row.prevRev <= s2.head && w.seen <= s2.head
    requires NoZero(s2.full) && forall i :: i in s2.full ==> i <= s2.head
    ensures var s3 := Apply(s2, Insert(other));
            && Succeeds(s2, other) && Succeeds(s3, op)
            && !Untouched(s3, op)
            && forall floor :: !Linear(Apply(s3, Insert(op)).full, floor)
  {
    InsertLands(s2, other);
    LateInsertLands(s2, op, WithOld(s2.t, s2.pending[other].row), s2.pending - {other});
  }

  /**
    Create over a tombstone needs its hypothesis. From any state in which a create has read a tombstone
    and nobody has written the key since, compacting that tombstone lets a second create of the key
    and then the first both succeed, and the first overwrites a live row it never read.
   */
  lemma TombstoneCompactedLosesCreate(s: State, op: nat, other: nat, value: Bytes, lease: int, target: nat)
    requires Inv(s) && Untouched(s, op) && OverTombstone(s.pending[op]) && other !in s.pending
    requires s.pending[op].row.prevRev <= target
    ensures var s1 := Apply(s, Compact(target));
            var s2 := Apply(s1, Read(other, CreateReq(s.pending[op].row.name, value, lease)));
            var s3 := Apply(s2, Insert(other));
            && Succeeds(s2, other) && Succeeds(s3, op)
            && !Untouched(s3, op)
            && forall floor :: !Linear(Apply(s3, Insert(op)).full, floor)
  {
    FullIds(s, op);
    CompactedKeyGone(s, op, target);
    BothCreatesLand(Apply(s, Compact(target)), op, other, value, lease);
  }

  // ------------------------------------------------------ the exact condition

  /** The index decides every pending insert as it should. */
  ghost predicate DecidesExactly(s: State) {
    forall op :: op in s.pending ==> (Succeeds(s, op) <==> Untouched(s, op))
  }

  predicate CompactionFree(actions: seq<Action>) {
    forall a :: a in actions ==> !a.Compact?
  }

  /** And it will, whatever the writers do next. */
  ghost predicate StaysExact(s: State) {
    forall actions: seq<Action> :: CompactionFree(actions) && AllowedRun(s, actions) ==> DecidesExactly(Run(s, actions))
  }

  lemma InvDecides(s: State)
    requires Inv(s)
    ensures DecidesExactly(s)
  {
    forall op | op in s.pending ensures Succeeds(s, op) <==> Untouched(s, op) { InsertIffUntouched(s, op); }
  }

  /** An operation that loses the index entry it is beaten by succeeds at once. */
  lemma LostEntrySucceeds(s: State, target: nat, op: nat)
    requires Inv(s) && op in s.pending
    requires var w := s.pending[op];
             Conflict(s.t, w.row.name, w.row.prevRev) && !Conflict(CompactSql(s.t, target), w.row.name, w.row.prevRev)
    ensures var s1 := Apply(s, Compact(target)); Succeeds(s1, op) && !Untouched(s1, op)
  {
    var w := s.pending[op];
    assert PendingOk(s.t, s.full, s.floor, s.head, w);
    InsertIffUntouched(s, op);
    SetRevNewest(s.full, target, w.row.name);
    SetRevConflict(CompactSql(s.t, target), target, w.row.name, w.row.prevRev);
  }

  /** Two steps of a run. */
  lemma TwoSteps(s: State, a: Action, b: Action)
    ensures Run(s, [a, b]) == Apply(Apply(s, a), b)
    ensures AllowedRun(s, [a, b]) <==> Allowed(s, a) && Allowed(Apply(s, a), b)
  {
    hide Apply, Allowed;
    assert [a, b][1..] == [b] && [b][1..] == [];
    var s1 := Apply(s, a);
    assert Run(s1, [b]) == Run(Apply(s1, b), []);
    assert AllowedRun(s1, [b]) <==> Allowed(s1, b) && AllowedRun(Apply(s1, b), []);
  }

  /** A create whose tombstone goes is the family above: some two steps later it succeeds over another's row. */
  lemma LostTombstoneBreaks(s: State, target: nat, op: nat)
    requires Inv(s) && Untouched(s, op) && OverTombstone(s.pending[op]) && s.pending[op].row.prevRev <= target
    ensures !StaysExact(Apply(s, Compact(target)))
  {
    FullIds(s, op);
    var other, key := MaxOf(s.pending.Keys) + 1, s.pending[op].row.name;
    assert other !in s.pending;
    var s1, actions := Apply(s, Compact(target)), [Read(other, CreateReq(key, "", 0)), Insert(other)];
    CreateIsAllowed(s1, other, key);
    TwoSteps(s1, actions[0], actions[1]);
    hide Apply, Allowed, Linear, AllowedRun, Run, StaysExact;
    TombstoneCompactedLosesCreate(s, op, other, "", 0, target);
    DecidesWrongly(s1, actions, op);
  }

  lemma CreateIsAllowed(s: State, other: nat, key: string)
    requires other !in s.pending && key != COMPACT_REV_KEY
    ensures Allowed(s, Read(other, CreateReq(key, "", 0)))
    ensures var s2 := Apply(s, Read(other, CreateReq(key, "", 0))); Succeeds(s2, other) ==> Allowed(s2, Insert(other))
    ensures CompactionFree([Read(other, CreateReq(key, "", 0)), Insert(other)])
  {
  }

  lemma DecidesWrongly(s: State, actions: seq<Action>, op: nat)
    requires CompactionFree(actions) && AllowedRun(s, actions)
    requires Succeeds(Run(s, actions), op) && !Untouched(Run(s, actions), op)
    ensures !StaysExact(s)
  {
    assert !DecidesExactly(Run(s, actions));
  }

  /**
    The exact condition. After a compaction up to the head the index decides every insert of every further
    run of the writers correctly if and only if the compaction kept what ExactSafe names.
   */
  lemma SafeIffExact(s: State, target: nat)
    requires Inv(s) && target <= s.head
    ensures ExactSafe(s, target) <==> StaysExact(Apply(s, Compact(target)))
  {
    var s1 := Apply(s, Compact(target));
    if ExactSafe(s, target) {
      CompactKeeps(s, target);
      forall actions: seq<Action> | CompactionFree(actions) && AllowedRun(s1, actions)
        ensures DecidesExactly(Run(s1, actions))
      {
        RunKeeps(s1, actions);
        InvDecides(Run(s1, actions));
      }
    } else {
      var op :| op in s.pending && !EntryKept(s.t, target, s.pending[op]);
      InsertIffUntouched(s, op);
      if Untouched(s, op) {
        LostTombstoneBreaks(s, target, op);
      } else {
        LostEntrySucceeds(s, target, op);
        assert CompactionFree([]) && AllowedRun(s1, []) && !DecidesExactly(Run(s1, []));
      }
    }
  }

  /** The first create's insert, after the second one's row is in: nothing conflicts, and it overwrites that row. */
  lemma LateInsertLands(s1: State, op: nat, row: Row, pending: map<nat, Pending>)
    requires op in pending && NoRowOf(s1.t, row.name) && row.name != COMPACT_REV_KEY && row.prevRev == 0
    requires NoZero(s1.full) && forall i :: i in s1.full ==> i <= s1.head
    requires pending[op].row.name == row.name && 0 < pending[op].row.prevRev <= s1.head && pending[op].seen <= s1.head
    ensures var s3 := Inserted(s1, row, pending);
            && Succeeds(s3, op) && !Untouched(s3, op)
            && forall floor :: !Linear(Apply(s3, Insert(op)).full, floor)
  {
    var id, w := s1.head + 1, pending[op];
    var s3 := Inserted(s1, row, pending);
    AppendNewest(s1.full, id, row, row.name);
    var f := s3.full[id + 1 := WithOld(s3.t, w.row)];
    forall floor ensures !Linear(f, floor) {
      OverwriteBreaksLine(s3.full, id + 1, WithOld(s3.t, w.row), floor);
    }
  }

  lemma FullIds(s: State, op: nat)
    requires Inv(s) && Untouched(s, op)
    ensures NoZero(s.full) && forall i :: i in s.full ==> 0 < i <= s.head
    ensures s.pending[op].seen <= s.head && s.pending[op].row.name != COMPACT_REV_KEY
    ensures s.pending[op].row.prevRev <= s.head
  {
    assert PendingOk(s.t, s.full, s.floor, s.head, s.pending[op]);
  }

  /** The operation succeeds though its key was written since its read, and breaks the line of its key. */
  ghost predicate BreaksLine(s: State, op: nat) {
    Succeeds(s, op) && !Untouched(s, op) && forall floor :: !Linear(Apply(s, Insert(op)).full, floor)
  }

  /**
    The bound on the target needs its hypothesis too. From any state in which an update or a delete has
    read a live row and nobody has written the key since, one delete of the key followed by a compaction
    one revision past the pending read lets the pending operation succeed on a key that is gone.
   */
  lemma TargetPastReadLosesDelete(s: State, op: nat, other: nat)
    requires Inv(s) && Untouched(s, op) && !s.pending[op].row.created && other !in s.pending
    ensures var s2 := Apply(s, Read(other, DeleteReq(s.pending[op].row.name, 0)));
            var s3 := Apply(s2, Insert(other));
            Succeeds(s2, other) && BreaksLine(Apply(s3, Compact(s.head + 1)), op)
  {
    hide BreaksLine, KeyDeleted, Linear;
    DeleteLands(s, op, other);
    hide Apply, Inv, Succeeds, Untouched;
    var s2 := Apply(s, Read(other, DeleteReq(s.pending[op].row.name, 0)));
    DeletedThenCompacted(Apply(s2, Insert(other)), op, s.head + 1);
  }

  /** A delete by somebody else lands on top of what a pending operation read. */
  lemma DeleteLands(s: State, op: nat, other: nat)
    requires Inv(s) && Untouched(s, op) && !s.pending[op].row.created && other !in s.pending
    ensures var w := s.pending[op];
            var s2 := Apply(s, Read(other, DeleteReq(w.row.name, 0)));
            var s3 := Apply(s2, Insert(other));
            Succeeds(s2, other) && Inv(s3) && KeyDeleted(s3, op, s.head + 1)
  {
    FullIds(s, op);
    PrepareDelete(s, op);
    var w := s.pending[op];
    var row := Row(w.row.name, false, true, 0, w.seen, 0, "", "");
    var pending := s.pending[other := Pending(row, s.head, w.seen)];
    var s2 := Apply(s, Read(other, DeleteReq(w.row.name, 0)));
    assert s2 == s.(pending := pending);
    StepKeeps(s, Read(other, DeleteReq(w.row.name, 0)));
    StepKeeps(s2, Insert(other));
    var s3 := Inserted(s, WithOld(s.t, row), pending - {other});
    assert Apply(s2, Insert(other)) == s3;
    hide Inv, Linear, Prepare, Apply;
    AppendNewest(s.full, s.head + 1, WithOld(s.t, row), w.row.name);
  }

  /** Since the operation read a live row its key was deleted, and the tombstone is at or before the target. */
  predicate KeyDeleted(s: State, op: nat, target: nat) {
    && op in s.pending && s.pending[op].row.name != COMPACT_REV_KEY && target <= s.head
    && var w, n := s.pending[op], Newest(s.full, s.pending[op].row.name, Current);
       0 < n <= target && s.full[n].deleted && 0 < w.row.prevRev < n && w.seen < n
  }

  /** Whoever deleted the key, and however the compaction came to reach that tombstone. */
  lemma DeletedThenCompacted(s: State, op: nat, target: nat)
    requires Inv(s) && KeyDeleted(s, op, target)
    ensures BreaksLine(Apply(s, Compact(target)), op)
  {
    var s4, w := Apply(s, Compact(target)), s.pending[op];
    CompactedTable(s, target);
    SetRevNewest(s.full, target, w.row.name);
    KeyGone(s4.full, s4.floor, w.row.name);
    var f := s4.full[s4.head + 1 := WithOld(s4.t, w.row)];
    forall floor ensures !Linear(f, floor) {
      OverwriteBreaksLine(s4.full, s4.head + 1, WithOld(s4.t, w.row), floor);
    }
  }

  lemma PrepareDelete(s: State, op: nat)
    requires Inv(s) && Untouched(s, op) && !s.pending[op].row.created
    ensures var w := s.pending[op];
            && w.row.prevRev == w.seen && 0 < w.seen
            && Prepare(s.t, DeleteReq(w.row.name, 0)) == Proceed(Row(w.row.name, false, true, 0, w.seen, 0, "", ""))
            && !Conflict(s.t, w.row.name, w.seen)
  {
    var w := s.pending[op];
    assert PendingOk(s.t, s.full, s.floor, s.head, w);
    InsertIffUntouched(s, op);
    LiveNewest(s.full, s.floor, w.row.name, Current);
    GetIsNewest(s.t, w.row.name, true);
  }
}

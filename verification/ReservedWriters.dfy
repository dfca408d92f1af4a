/**
  The writers where an insert takes its id from a sequence before its row becomes visible, so rows
  appear out of the order of their ids. MAX(id) at a read then no longer bounds what the read has not
  seen: a row with a smaller id can still come. What bounds it is the age of the operations under way.
 */
module ReservedWriters {
  import opened Options
  import opened KineTable
  import opened Compaction
  import opened Writers

  /**
    w.head is the last id handed out when the operation read. Whatever its read did not see will get an id
    from mark on: mark is the next id at the read of the oldest operation under way then, itself included.
   */
  datatype Op = Op(w: Pending, mark: nat, id: Option<nat>)

  /** last is the last id handed out. */
  datatype Db = Db(t: Table, full: Table, last: nat, floor: nat, ops: map<nat, Op>)

  /** LoseId: the poller has planted a fill row at the id an insert holds, so the insert must take another. */
  datatype Step =
    | Load(op: nat, req: Request)
    | Reserve(op: nat)
    | Commit(op: nat)
    | LoseId(op: nat)
    | GiveUp(op: nat)
    | CompactAt(target: nat)

  /** m is the next id, last being handed out, at the read of the oldest operation under way. */
  predicate IsOldest(last: nat, ops: map<nat, Op>, m: nat) {
    && m <= last + 1 && (forall op :: op in ops ==> m <= ops[op].w.head + 1)
    && (m == last + 1 || exists op :: op in ops && m == ops[op].w.head + 1)
  }

  lemma {:induction false} HasOldest(last: nat, ops: map<nat, Op>)
    ensures exists m: nat :: IsOldest(last, ops, m)
    decreases |ops|
  {
    if op :| op in ops {
      var rest := ops - {op};
      HasOldest(last, rest);
      var m: nat :| IsOldest(last, rest, m);
      assert forall o :: o in ops && o != op ==> o in rest && rest[o] == ops[o];
      assert m != last + 1 ==> exists o :: o in rest && o in ops && m == ops[o].w.head + 1;
      assert IsOldest(last, ops, if m < ops[op].w.head + 1 then m else ops[op].w.head + 1);
    } else {
      assert IsOldest(last, ops, last + 1);
    }
  }

  function Oldest(last: nat, ops: map<nat, Op>): (m: nat)
    ensures IsOldest(last, ops, m)
  {
    HasOldest(last, ops);
    var m: nat :| IsOldest(last, ops, m);
    m
  }

  function Take(d: Db, a: Step): Db {
    match a
    case Load(op, req) =>
      (match Prepare(d.t, req)
       case Proceed(row) =>
         d.(ops := d.ops[op := Op(Pending(row, d.last, Newest(d.full, row.name, Current)), Oldest(d.last, d.ops), None)])
       case _ => d)
    case Reserve(op) =>
      if op !in d.ops then d else d.(ops := d.ops[op := d.ops[op].(id := Some(d.last + 1))], last := d.last + 1)
    case Commit(op) =>
      if op !in d.ops || d.ops[op].id.None? then d
      else
        var row, rest := d.ops[op].w.row, d.ops - {op};
        if Conflict(d.t, row.name, row.prevRev) then d.(ops := rest)
        else
          var id, r := d.ops[op].id.value, WithOld(d.t, row);
          d.(t := d.t[id := r], full := d.full[id := r], ops := rest)
    case LoseId(op) => if op !in d.ops then d else d.(ops := d.ops[op := d.ops[op].(id := None)])
    case GiveUp(op) => d.(ops := d.ops - {op})
    case CompactAt(target) =>
      d.(t := CompactTo(d.t, target), full := SetCompactRev(d.full, target),
         floor := if d.floor < target then target else d.floor)
  }

  predicate Lands(d: Db, op: nat) {
    op in d.ops && !Conflict(d.t, d.ops[op].w.row.name, d.ops[op].w.row.prevRev)
  }

  /** No row of the key became visible since the operation's read. */
  predicate KeyUntouched(d: Db, op: nat) {
    op in d.ops && Newest(d.full, d.ops[op].w.row.name, Current) == d.ops[op].w.seen
  }

  /** The bound on a compaction: below every id still to come that some read under way has not seen. */
  predicate BelowMarks(d: Db, target: nat) {
    && target <= d.last
    && forall op :: op in d.ops ==>
         target < d.ops[op].mark && (OverTombstone(d.ops[op].w) && Lands(d, op) ==> target < d.ops[op].w.row.prevRev)
  }

  predicate CanTake(d: Db, a: Step) {
    match a
    case Load(op, req) => op !in d.ops && req.key != COMPACT_REV_KEY
    case Reserve(op) => op in d.ops && d.ops[op].id.None?
    case Commit(op) => op in d.ops && d.ops[op].id.Some?
    case LoseId(op) => op in d.ops && d.ops[op].id.Some?
    case GiveUp(op) => op in d.ops
    case CompactAt(target) => BelowMarks(d, target)
  }

  function TakeAll(d: Db, steps: seq<Step>): Db
    decreases |steps|
  {
    if steps == [] then d else TakeAll(Take(d, steps[0]), steps[1..])
  }

  predicate CanTakeAll(d: Db, steps: seq<Step>)
    decreases |steps|
  {
    steps == [] || (CanTake(d, steps[0]) && CanTakeAll(Take(d, steps[0]), steps[1..]))
  }

  // -------------------------------------------------------------- the invariant

  /** Rows of the key are what the operation saw, or came after its read with an id from mark on. */
  predicate CameLate(full: Table, o: Op) {
    forall j {:trigger full[j]} :: j in full && full[j].name == o.w.row.name ==> j <= o.w.seen || o.mark <= j
  }

  predicate OpOk(t: Table, full: Table, floor: nat, last: nat, o: Op) {
    var w := o.w;
    && w.row.name != COMPACT_REV_KEY
    && w.seen <= w.head <= last && floor < o.mark <= w.head + 1
    && w.seen <= Newest(full, w.row.name, Current)
    && CameLate(full, o) && NamesSeen(full, floor, w)
    && (w.seen != 0 ==> w.seen in full && full[w.seen].name == w.row.name)
    && (o.id.Some? ==> w.head < o.id.value <= last && o.id.value !in full)
    && (if Newest(full, w.row.name, Current) == w.seen then Fresh(t, full, floor, w)
        else Conflict(t, w.row.name, w.row.prevRev))
  }

  /** Nobody's mark passes the read of anybody under way, and no id is handed out twice. */
  predicate Apart(a: Op, b: Op) {
    a.mark <= b.w.head + 1 && (a.id.Some? ==> a.id != b.id)
  }

  predicate AllOpsOk(t: Table, full: Table, floor: nat, last: nat, ops: map<nat, Op>) {
    forall op {:trigger OpOk(t, full, floor, last, ops[op])} :: op in ops ==> OpOk(t, full, floor, last, ops[op])
  }

  predicate AllApart(ops: map<nat, Op>) {
    forall a, b {:trigger Apart(ops[a], ops[b])} :: a in ops && b in ops && a != b ==> Apart(ops[a], ops[b])
  }

  predicate DbInv(d: Db) {
    && Linear(d.full, d.floor)
    && d.t == Live(d.full, d.floor)
    && (forall i :: i in d.full ==> i <= d.last)
    && d.floor <= d.last
    && AllOpsOk(d.t, d.full, d.floor, d.last, d.ops) && AllApart(d.ops)
  }

  /** A fresh table: at most the compact-revision row. */
  predicate DbInit(d: Db) {
    && d.ops == map[] && d.floor == 0 && d.t == d.full
    && NoZero(d.full)
    && (forall i :: i in d.full ==> i <= d.last && d.full[i].name == COMPACT_REV_KEY && !d.full[i].deleted)
  }

  lemma InitDbInv(d: Db)
    requires DbInit(d)
    ensures DbInv(d)
  {
    assert Live(d.full, 0) == d.full;
  }

  lemma DbChain(d: Db)
    requires DbInv(d)
    ensures Chain(d.t)
  {
    forall j | j in d.t && d.t[j].name != COMPACT_REV_KEY ensures Link(d.t, j) {
      assert Continues(d.full, d.floor, j);
      LivePred(d.full, d.floor, j);
      var p := Pred(d.full, d.t[j].name, j);
      assert p != 0 && d.full[p].deleted && p <= d.floor ==> Dead(d.full, d.floor, p);
    }
  }

  /** The unique index refuses a row exactly when the key was written since the operation's read. */
  lemma LandsIffUntouched(d: Db, op: nat)
    requires DbInv(d) && op in d.ops
    ensures Lands(d, op) <==> KeyUntouched(d, op)
  {
    assert OpOk(d.t, d.full, d.floor, d.last, d.ops[op]);
    if KeyUntouched(d, op) {
      FreshHasNoConflict(d.full, d.floor, d.ops[op].w);
    }
  }

  // ------------------------------------------------- every step keeps the invariant

  lemma LoadKeeps(d: Db, op: nat, req: Request)
    requires DbInv(d) && CanTake(d, Load(op, req))
    ensures DbInv(Take(d, Load(op, req)))
  {
    var d' := Take(d, Load(op, req));
    if Prepare(d.t, req).Proceed? {
      PreparedIsFresh(d.full, d.floor, req, d.last);
      LoadedOk(d, req);
      LoadedApart(d, op, d'.ops[op]);
      forall o | o in d'.ops ensures OpOk(d'.t, d'.full, d'.floor, d'.last, d'.ops[o]) {
        assert o != op ==> OpOk(d.t, d.full, d.floor, d.last, d.ops[o]);
      }
    }
  }

  lemma LoadedApart(d: Db, op: nat, o: Op)
    requires DbInv(d) && op !in d.ops && o.w.head == d.last && o.mark == Oldest(d.last, d.ops) && o.id.None?
    ensures AllApart(d.ops[op := o])
  {
    var ops := d.ops[op := o];
    forall a, b | a in ops && b in ops && a != b ensures Apart(ops[a], ops[b]) {
      if a != op && b != op { assert Apart(d.ops[a], d.ops[b]); }
      if b == op { assert OpOk(d.t, d.full, d.floor, d.last, d.ops[a]); }
    }
  }

  lemma LoadedOk(d: Db, req: Request)
    requires DbInv(d) && req.key != COMPACT_REV_KEY && Prepare(d.t, req).Proceed?
    ensures var row := Prepare(d.t, req).row;
            OpOk(d.t, d.full, d.floor, d.last,
                 Op(Pending(row, d.last, Newest(d.full, row.name, Current)), Oldest(d.last, d.ops), None))
  {
    PreparedIsFresh(d.full, d.floor, req, d.last);
    var m := Oldest(d.last, d.ops);
    if m != d.last + 1 {
      var o :| o in d.ops && m == d.ops[o].w.head + 1;
      assert OpOk(d.t, d.full, d.floor, d.last, d.ops[o]);
    }
  }

  lemma ReserveKeeps(d: Db, op: nat)
    requires DbInv(d) && CanTake(d, Reserve(op))
    ensures DbInv(Take(d, Reserve(op)))
  {
    var d' := Take(d, Reserve(op));
    forall o | o in d'.ops ensures OpOk(d'.t, d'.full, d'.floor, d'.last, d'.ops[o]) {
      assert OpOk(d.t, d.full, d.floor, d.last, d.ops[o]);
    }
    ReservedApart(d, op);
  }

  lemma ReservedApart(d: Db, op: nat)
    requires DbInv(d) && op in d.ops
    ensures AllApart(d.ops[op := d.ops[op].(id := Some(d.last + 1))])
  {
    var ops := d.ops[op := d.ops[op].(id := Some(d.last + 1))];
    forall a, b | a in ops && b in ops && a != b ensures Apart(ops[a], ops[b]) {
      assert Apart(d.ops[a], d.ops[b]);
      assert OpOk(d.t, d.full, d.floor, d.last, d.ops[a]) && OpOk(d.t, d.full, d.floor, d.last, d.ops[b]);
    }
  }

  /** What a row that becomes visible does to another operation under way. */
  lemma CommitBeside(full: Table, floor: nat, last: nat, v: Op, o: Op)
    requires NoZero(full) && o.id.Some? && Newer(full, o.id.value, o.w.row.name) && floor < o.id.value
    requires o.w.seen == Newest(full, o.w.row.name, Current) && Fresh(Live(full, floor), full, floor, o.w)
    requires OpOk(Live(full, floor), full, floor, last, v) && Apart(v, o) && o.w.head < o.id.value
    ensures var t, id := Live(full, floor), o.id.value;
            var row := WithOld(t, o.w.row);
            OpOk(t[id := row], full[id := row], floor, last, v)
  {
    var id, row := o.id.value, WithOld(Live(full, floor), o.w.row);
    AppendNewest(full, id, row, v.w.row.name);
    if Newest(full, v.w.row.name, Current) != v.w.seen {
      ConflictStays(Live(full, floor), v.w.row.name, v.w.row.prevRev, id, row);
    } else if v.w.row.name == o.w.row.name {
      AppendBeats(full, floor, v.w, o.w, id);
    } else {
      FreshStays(Live(full, floor), full, floor, v.w, id, row);
    }
  }

  lemma ReservedIsNewer(d: Db, op: nat)
    requires DbInv(d) && KeyUntouched(d, op) && d.ops[op].id.Some?
    ensures var o := d.ops[op]; Newer(d.full, o.id.value, o.w.row.name) && d.floor < o.id.value
  {
    assert OpOk(d.t, d.full, d.floor, d.last, d.ops[op]);
  }

  lemma CommitKeeps(d: Db, op: nat)
    requires DbInv(d) && CanTake(d, Commit(op))
    ensures DbInv(Take(d, Commit(op)))
  {
    LandsIffUntouched(d, op);
    FewerOps(d, d.ops - {op});
    if Lands(d, op) { LandingKeeps(d, op); }
  }

  lemma LandingKeeps(d: Db, op: nat)
    requires DbInv(d) && Lands(d, op) && KeyUntouched(d, op) && d.ops[op].id.Some?
    ensures DbInv(Take(d, Commit(op)))
  {
    var o, d' := d.ops[op], Take(d, Commit(op));
    var id, row := o.id.value, WithOld(d.t, o.w.row);
    assert OpOk(d.t, d.full, d.floor, d.last, o);
    ReservedIsNewer(d, op);
    AppendLive(d.full, d.floor, id, row);
    NewContinues(d.full, d.floor, o.w, id);
    AppendLinear(d.full, d.floor, id, row);
    forall v | v in d'.ops ensures OpOk(d'.t, d'.full, d'.floor, d'.last, d'.ops[v]) {
      assert OpOk(d.t, d.full, d.floor, d.last, d.ops[v]) && Apart(d.ops[v], o);
      CommitBeside(d.full, d.floor, d.last, d.ops[v], o);
    }
    forall a, b | a in d'.ops && b in d'.ops && a != b ensures Apart(d'.ops[a], d'.ops[b]) {
      assert Apart(d.ops[a], d.ops[b]);
    }
  }

  lemma FewerOps(d: Db, ops: map<nat, Op>)
    requires DbInv(d) && forall op :: op in ops ==> op in d.ops && d.ops[op] == ops[op]
    ensures DbInv(d.(ops := ops))
  {
    forall op | op in ops ensures OpOk(d.t, d.full, d.floor, d.last, ops[op]) {
      assert OpOk(d.t, d.full, d.floor, d.last, d.ops[op]);
    }
    forall a, b | a in ops && b in ops && a != b ensures Apart(ops[a], ops[b]) {
      assert Apart(d.ops[a], d.ops[b]);
    }
  }

  lemma LoseIdKeeps(d: Db, op: nat)
    requires DbInv(d) && CanTake(d, LoseId(op))
    ensures DbInv(Take(d, LoseId(op)))
  {
    var ops := Take(d, LoseId(op)).ops;
    forall o | o in ops ensures OpOk(d.t, d.full, d.floor, d.last, ops[o]) {
      assert OpOk(d.t, d.full, d.floor, d.last, d.ops[o]);
    }
    forall a, b | a in ops && b in ops && a != b ensures Apart(ops[a], ops[b]) {
      assert Apart(d.ops[a], d.ops[b]);
    }
  }

  /** A row that was there at the operation's read does not hold its index entry, so a holder came with an id from mark on. */
  lemma HolderCameLate(t: Table, full: Table, floor: nat, last: nat, o: Op, j: nat)
    requires NoZero(full) && t == Live(full, floor) && OpOk(t, full, floor, last, o)
    requires j in t && full[j].name == o.w.row.name && full[j].prevRev == o.w.row.prevRev && Continues(full, floor, j)
    ensures o.mark <= j
  {
    if j <= o.w.seen && o.w.row.prevRev == 0 && o.w.seen != 0 { DeadTombstone(full, floor, o.w.seen, j); }
  }

  lemma CompactKeepsEntry(d: Db, target: nat, op: nat)
    requires DbInv(d) && BelowMarks(d, target) && op in d.ops
    requires Conflict(d.t, d.ops[op].w.row.name, d.ops[op].w.row.prevRev)
    ensures Conflict(CompactSql(d.t, target), d.ops[op].w.row.name, d.ops[op].w.row.prevRev)
  {
    var o := d.ops[op];
    var j :| j in d.t && d.t[j].name == o.w.row.name && d.t[j].prevRev == o.w.row.prevRev;
    assert OpOk(d.t, d.full, d.floor, d.last, o) && Continues(d.full, d.floor, j);
    HolderCameLate(d.t, d.full, d.floor, d.last, o, j);
    DbChain(d);
    SqlVictimIsDead(d.t, target, j);
    assert j in CompactSql(d.t, target);
  }

  /** A compaction leaves an operation's rows, and with them its index entry or the row it saw. */
  lemma CompactOp(full: Table, floor: nat, last: nat, target: nat, o: Op)
    requires OpOk(Live(full, floor), full, floor, last, o) && target <= last && target < o.mark
    requires var t := CompactSql(Live(full, floor), target);
             if Newest(full, o.w.row.name, Current) == o.w.seen then OverTombstone(o.w) ==> target < o.w.row.prevRev
             else Conflict(t, o.w.row.name, o.w.row.prevRev)
    requires CompactTo(Live(full, floor), target)
             == Live(SetCompactRev(full, target), if floor < target then target else floor)
    ensures var floor' := if floor < target then target else floor;
            OpOk(CompactTo(Live(full, floor), target), SetCompactRev(full, target), floor', last, o)
  {
    var floor' := if floor < target then target else floor;
    SetRevNewest(full, target, o.w.row.name);
    SetRevConflict(CompactSql(Live(full, floor), target), target, o.w.row.name, o.w.row.prevRev);
    if Newest(full, o.w.row.name, Current) == o.w.seen {
      CompactFresh(full, floor, target, floor', o.w);
    }
  }

  lemma CompactAtKeeps(d: Db, target: nat)
    requires DbInv(d) && CanTake(d, CompactAt(target))
    ensures DbInv(Take(d, CompactAt(target)))
  {
    var d' := Take(d, CompactAt(target));
    DbChain(d);
    SqlIsLive(d.t, target);
    LiveTwice(d.full, d.floor, target);
    SetRevLive(d.full, target, d'.floor);
    SetRevLinear(d.full, target, d.floor, d'.floor);
    forall op | op in d'.ops ensures OpOk(d'.t, d'.full, d'.floor, d'.last, d'.ops[op]) {
      assert OpOk(d.t, d.full, d.floor, d.last, d.ops[op]);
      LandsIffUntouched(d, op);
      if !KeyUntouched(d, op) { CompactKeepsEntry(d, target, op); }
      CompactOp(d.full, d.floor, d.last, target, d.ops[op]);
    }
  }

  lemma TakeKeeps(d: Db, a: Step)
    requires DbInv(d) && CanTake(d, a)
    ensures DbInv(Take(d, a))
  {
    match a
    case Load(op, req) => LoadKeeps(d, op, req);
    case Reserve(op) => ReserveKeeps(d, op);
    case Commit(op) => CommitKeeps(d, op);
    case LoseId(op) => LoseIdKeeps(d, op);
    case GiveUp(op) => FewerOps(d, d.ops - {op});
    case CompactAt(target) => CompactAtKeeps(d, target);
  }

  lemma {:induction false} TakeAllKeeps(d: Db, steps: seq<Step>)
    requires DbInv(d) && CanTakeAll(d, steps)
    ensures DbInv(TakeAll(d, steps))
    decreases |steps|
  {
    if steps != [] {
      TakeKeeps(d, steps[0]);
      TakeAllKeeps(Take(d, steps[0]), steps[1..]);
    }
  }

  /**
    The writers' main result where rows appear out of the order of their ids: over every interleaving
    with compactions below the marks, the history of every key is one line in the order of its ids, the
    index refuses a row exactly when the key was written since its read, and reads see no compaction.
   */
  lemma NoLostUpdateOutOfOrder(d: Db, steps: seq<Step>, at: At, key: string, end: string)
    requires DbInit(d) && CanTakeAll(d, steps)
    requires Covers2(at, TakeAll(d, steps).floor)
    ensures var e := TakeAll(d, steps);
            && Linear(e.full, e.floor) && Chain(e.t)
            && (forall op :: op in e.ops ==> (Lands(e, op) <==> KeyUntouched(e, op)))
            && Selected(e.t, at, key, end, false) == Selected(e.full, at, key, end, false)
  {
    InitDbInv(d);
    TakeAllKeeps(d, steps);
    var e := TakeAll(d, steps);
    DbChain(e);
    forall op | op in e.ops ensures Lands(e, op) <==> KeyUntouched(e, op) {
      LandsIffUntouched(e, op);
    }
    LiveSelected(e.full, e.floor, at, key, end);
  }
}

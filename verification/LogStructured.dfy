/**
  The write calls of the log-structured backend as they run: a read, then whatever other writers and
  compactions do, then one insert. Each call is proved against the protocol in Writers.
 */
module LogStructured {
  import opened Options
  import opened KineTable
  import opened Writers

  /** What becomes of the insert statement: it runs, it never reaches the database, or only its answer is lost. */
  datatype Fate = Runs | NotSent | AnswerLost

  predicate NotMine(a: Action, mine: nat) {
    a.Compact? || a.op != mine
  }

  predicate Others(actions: seq<Action>, mine: nat) {
    forall a :: a in actions ==> NotMine(a, mine)
  }

  /** Some allowed steps of everybody else lead from s to e. */
  ghost predicate Elsewhere(s: State, e: State, mine: nat) {
    exists actions: seq<Action> :: Others(actions, mine) && AllowedRun(s, actions) && e == Run(s, actions)
  }

  lemma {:induction false} OthersKeepMine(s: State, actions: seq<Action>, mine: nat)
    requires Inv(s) && AllowedRun(s, actions) && Others(actions, mine) && mine in s.pending
    ensures var e := Run(s, actions); Inv(e) && mine in e.pending && e.pending[mine] == s.pending[mine]
    decreases |actions|
  {
    if actions != [] {
      assert NotMine(actions[0], mine);
      assert forall a :: a in actions[1..] ==> a in actions;
      StepKeeps(s, actions[0]);
      OthersKeepMine(Apply(s, actions[0]), actions[1..], mine);
    }
  }

  /** Row id of the history was written by this request, on top of the row it read. */
  predicate Written(s: State, id: nat, key: string, value: Bytes, lease: int, created: bool, deleted: bool) {
    && id in s.full && id == s.head && id in s.t
    && s.full[id].name == key && s.full[id].value == value && s.full[id].lease == lease
    && s.full[id].created == created && s.full[id].deleted == deleted
  }

  /** The insert that led from mid to e put row at rev, right after the row seen. */
  predicate Landed(mid: State, e: State, row: Row, seen: nat, rev: nat) {
    && rev == e.head && rev in e.t && rev in e.full && e.full[rev] == WithOld(mid.t, row)
    && Continues(e.full, e.floor, rev)
    && Pred(e.full, row.name, rev) == seen
    && e.full == mid.full[rev := e.full[rev]]
  }

  /**
    One call that went on to its insert, from its read in start: mid is where others had brought the database
    by then, and the call's last step was the insert, or nothing when the statement never ran.
   */
  ghost predicate Called(start: State, mid: State, end: State, op: nat, req: Request, fate: Fate) {
    && Prepare(start.t, req).Proceed? && Elsewhere(Apply(start, Read(op, req)), mid, op)
    && end == Apply(mid, if fate == NotSent then Abort(op) else Insert(op))
  }

  /** What a read of the key shows: its newest row, when that is no tombstone. */
  function Showing(t: Table, key: string): Option<Versioned> {
    var n := Newest(t, key, Current);
    if n == 0 || t[n].deleted then None else Some(Versioned(n, t[n]))
  }

  class Backend {
    var db: State

    constructor (db: State)
      requires Init(db)
      ensures this.db == db && Inv(db)
    {
      this.db := db;
      InitInv(db);
    }

    /** Any number of allowed steps of other operations and of compactions; callers know nothing else about them. */
    method Interfere(mine: nat)
      requires Inv(db) && mine in db.pending
      modifies this
      ensures Elsewhere(old(db), db, mine)
      ensures Inv(db) && mine in db.pending && db.pending[mine] == old(db.pending[mine])
    {
      assert Others([], mine) && Run(db, []) == db;
    }

    /** The read half: the operation is pending from here on. */
    method Begin(op: nat, ghost req: Request, row: Row)
      requires Inv(db) && op !in db.pending && req.key != COMPACT_REV_KEY
      requires Prepare(db.t, req) == Proceed(row)
      modifies this
      ensures db == Apply(old(db), Read(op, req)) && Inv(db)
      ensures op in db.pending && db.pending[op] == Pending(row, old(db).head, Newest(old(db).full, row.name, Current))
    {
      StepKeeps(db, Read(op, req));
      PreparedIsFresh(db.full, db.floor, req, db.head);
      db := db.(pending := db.pending[op := Pending(row, db.head, Newest(db.full, row.name, Current))]);
    }

    /** SQLLog.Append: one INSERT, refused by the unique index or not. */
    method Append(op: nat, fate: Fate) returns (rev: nat, ok: bool)
      requires Inv(db) && op in db.pending
      modifies this
      ensures Inv(db) && op !in db.pending
      ensures db == Apply(old(db), if fate == NotSent then Abort(op) else Insert(op))
      ensures ok ==> fate == Runs && Landed(old(db), db, old(db).pending[op].row, old(db).pending[op].seen, rev)
      ensures fate == Runs ==>
                (ok <==> Newest(old(db).full, old(db).pending[op].row.name, Current) == old(db).pending[op].seen)
      ensures !ok && fate != AnswerLost ==> db.full == old(db).full
    {
      StepKeeps(db, Insert(op));
      StepKeeps(db, Abort(op));
      InsertIffUntouched(db, op);
      var conflict := Conflict(db.t, db.pending[op].row.name, db.pending[op].row.prevRev);
      if !conflict {
        SuccessIsNext(db, op);
      }
      db := Apply(db, if fate == NotSent then Abort(op) else Insert(op));
      ok := fate == Runs && !conflict;
      rev := if ok then db.head else 0;
    }

    /**
      LogStructured.Create. A success puts the row on top of nothing or of a tombstone in the full
      history; a refusal that is no lost answer wrote nothing.
     */
    method Create(op: nat, key: string, value: Bytes, lease: int, fate: Fate)
      returns (rev: nat, taken: bool, ok: bool, ghost mid: State)
      requires Inv(db) && op !in db.pending && key != COMPACT_REV_KEY
      modifies this
      ensures Inv(db) && op !in db.pending
      ensures if taken then !ok && db == mid == old(db)
              else Called(old(db), mid, db, op, CreateReq(key, value, lease), fate)
      ensures taken <==> (var n := Newest(old(db).full, key, Current); n != 0 && !old(db).full[n].deleted)
      ensures ok ==> Written(db, rev, key, value, lease, true, false)
                     && (var p := Pred(db.full, key, rev); p == 0 || db.full[p].deleted)
      ensures !taken && fate == Runs ==> (ok <==> Newest(mid.full, key, Current) == Newest(old(db).full, key, Current))
      ensures !ok && fate != AnswerLost ==> db.full == mid.full
    {
      FullNewest(db, key);
      var prev := Get(db.t, key, true);
      GetIsNewest(db.t, key, true);
      var row := Row(key, true, false, 0, 0, lease, value, "");
      rev, taken, ok, mid := 0, false, false, db;
      if prev.Some? {
        if !prev.value.row.deleted {
          taken := true;
          return;
        }
        row := row.(prevRev := prev.value.id);
      }
      ok, rev, mid := BeginAppend(op, CreateReq(key, value, lease), row, fate);
    }

    /** From the read to the answer of the insert, with everybody else in between. */
    method BeginAppend(op: nat, ghost req: Request, row: Row, fate: Fate) returns (ok: bool, rev: nat, ghost mid: State)
      requires Inv(db) && op !in db.pending && req.key != COMPACT_REV_KEY
      requires Prepare(db.t, req) == Proceed(row)
      modifies this
      ensures Inv(db) && op !in db.pending && row.name == req.key
      ensures Called(old(db), mid, db, op, req, fate)
      ensures ok ==> fate == Runs && Landed(mid, db, row, Newest(old(db).full, row.name, Current), rev)
      ensures fate == Runs ==>
                (ok <==> Newest(mid.full, row.name, Current) == Newest(old(db).full, row.name, Current))
      ensures !ok && fate != AnswerLost ==> db.full == mid.full
    {
      PreparedIsFresh(db.full, db.floor, req, db.head);
      Begin(op, req, row);
      Interfere(op);
      mid := db;
      rev, ok := Append(op, fate);
    }

    /** LogStructured.Update: a success replaced exactly the revision the caller compared with. */
    method Update(op: nat, key: string, value: Bytes, revision: nat, lease: int, fate: Fate)
      returns (rev: nat, kv: Option<Versioned>, ok: bool, ghost mid: State)
      requires Inv(db) && op !in db.pending && key != COMPACT_REV_KEY
      modifies this
      ensures Inv(db) && op !in db.pending
      ensures match Prepare(old(db).t, UpdateReq(key, value, revision, lease))
              case Proceed(_) => Called(old(db), mid, db, op, UpdateReq(key, value, revision, lease), fate)
              case KeyExists => false
              case Answer(_, _) => !ok && kv == Showing(old(db).t, key) && db == mid == old(db)
      ensures !ok && Prepare(old(db).t, UpdateReq(key, value, revision, lease)).Proceed? ==> kv == Showing(db.t, key)
      ensures ok ==> Written(db, rev, key, value, lease, false, false)
                     && Pred(db.full, key, rev) == revision && revision in db.full && !db.full[revision].deleted
                     && db.full[rev].oldValue == db.full[revision].value
                     && CreatedBy(db.full, rev, db.full[rev].createRev)
                     && kv == Some(Versioned(rev, db.full[rev].(oldValue := "")))
      ensures fate == Runs ==>
                (ok <==> var n := Newest(mid.full, key, Current); n != 0 && n == revision && !mid.full[n].deleted)
      ensures !ok && fate != AnswerLost ==> db.full == mid.full
    {
      FullNewest(db, key);
      GetIsNewest(db.t, key, false);
      var event := Get(db.t, key, false);
      rev, kv, ok, mid := 0, None, false, db;
      if event == None {
        return;
      }
      if event.value.id != revision {
        kv := event;
        return;
      }
      rev, kv, ok, mid := UpdateFound(op, key, value, lease, event.value, fate);
    }

    /** The insert of an update that found its revision, and what it reports when that fails. */
    method UpdateFound(op: nat, key: string, value: Bytes, lease: int, event: Versioned, fate: Fate)
      returns (rev: nat, kv: Option<Versioned>, ok: bool, ghost mid: State)
      requires Inv(db) && op !in db.pending && key != COMPACT_REV_KEY && Get(db.t, key, false) == Some(event)
      modifies this
      ensures Inv(db) && op !in db.pending
      ensures Called(old(db), mid, db, op, UpdateReq(key, value, event.id, lease), fate)
      ensures !ok ==> kv == Showing(db.t, key)
      ensures ok ==> Written(db, rev, key, value, lease, false, false)
                     && Pred(db.full, key, rev) == event.id && event.id in db.full && !db.full[event.id].deleted
                     && db.full[rev].oldValue == db.full[event.id].value
                     && CreatedBy(db.full, rev, db.full[rev].createRev)
                     && kv == Some(Versioned(rev, db.full[rev].(oldValue := "")))
      ensures fate == Runs ==>
                (ok <==> var n := Newest(mid.full, key, Current); n != 0 && n == event.id && !mid.full[n].deleted)
      ensures !ok && fate != AnswerLost ==> db.full == mid.full
    {
      FullNewest(db, key);
      GetIsNewest(db.t, key, false);
      var row := Row(key, false, false, CreateRevOf(event), event.id, lease, value, "");
      ok, rev, mid := BeginAppend(op, UpdateReq(key, value, event.id, lease), row, fate);
      GetIsNewest(db.t, key, false);
      if ok { CreateRevisionKept(db.full, db.floor, rev); }
      kv := if ok then Some(Versioned(rev, row)) else Get(db.t, key, false);
    }

    /** LogStructured.Delete: deleting a missing key reports success, deleting a tombstone does not. */
    method Delete(op: nat, key: string, revision: nat, fate: Fate)
      returns (kv: Option<Versioned>, deleted: bool, ghost wrote: bool, ghost mid: State)
      requires Inv(db) && op !in db.pending && key != COMPACT_REV_KEY
      modifies this
      ensures Inv(db) && op !in db.pending
      ensures match Prepare(old(db).t, DeleteReq(key, revision))
              case Proceed(_) => Called(old(db), mid, db, op, DeleteReq(key, revision), fate) && (deleted ==> wrote)
              case KeyExists => false
              case Answer(_, _) =>
                !wrote && db == mid == old(db) && kv == Showing(old(db).t, key)
                && (deleted <==> Newest(old(db).t, key, Current) == 0)
      ensures !deleted && Prepare(old(db).t, DeleteReq(key, revision)).Proceed? ==>
                var n := Newest(db.t, key, Current);
                kv == if n != 0 then Some(Versioned(n, db.t[n])) else Showing(old(db).t, key)
      ensures fate == Runs && !deleted ==> Refusable(old(db), mid, key, revision)
      ensures wrote ==> deleted && Written(db, db.head, key, "", 0, false, true)
                        && kv == Showing(old(db).t, key) && kv.Some? && Pred(db.full, key, db.head) == kv.value.id && kv.value.id in db.full
                        && !db.full[kv.value.id].deleted && (revision != 0 ==> kv.value.id == revision)
      ensures deleted && !wrote ==> kv == None && db == old(db) && forall i :: i in db.t ==> db.t[i].name != key
      ensures !wrote && fate != AnswerLost ==> db.full == mid.full
      ensures fate != Runs ==> !wrote
    {
      FullNewest(db, key);
      GetIsNewest(db.t, key, true);
      var event := Get(db.t, key, true);
      kv, deleted, wrote, mid := None, false, false, db;
      if event == None {
        deleted := true;
        return;
      }
      if event.value.row.deleted {
        return;
      }
      if revision != 0 && event.value.id != revision {
        kv := event;
        return;
      }
      kv, deleted, mid := DeleteFound(op, key, revision, event.value, fate);
      wrote := deleted;
    }

    /** The insert of a delete that found a live row, and what it reports when that fails. */
    method DeleteFound(op: nat, key: string, revision: nat, event: Versioned, fate: Fate)
      returns (kv: Option<Versioned>, deleted: bool, ghost mid: State)
      requires Inv(db) && op !in db.pending && key != COMPACT_REV_KEY
      requires Get(db.t, key, true) == Some(event) && !event.row.deleted && (revision != 0 ==> event.id == revision)
      modifies this
      ensures Inv(db) && op !in db.pending
      ensures Called(old(db), mid, db, op, DeleteReq(key, revision), fate)
      ensures kv == if deleted || Get(db.t, key, true) == None then Some(event) else Get(db.t, key, true)
      ensures deleted ==> fate == Runs && Written(db, db.head, key, "", 0, false, true)
                          && Pred(db.full, key, db.head) == event.id && event.id in db.full && !db.full[event.id].deleted
      ensures fate == Runs && !deleted ==> Newest(mid.full, key, Current) != Newest(old(db).full, key, Current)
      ensures !deleted && fate != AnswerLost ==> db.full == mid.full
    {
      FullNewest(db, key);
      GetIsNewest(db.t, key, true);
      var row := Row(key, false, true, 0, event.id, 0, "", "");
      var rev;
      deleted, rev, mid := BeginAppend(op, DeleteReq(key, revision), row, fate);
      if deleted {
        kv := Some(event);
      } else {
        var latest := Get(db.t, key, true);
        kv := if latest == None then Some(event) else latest;
      }
    }

    /**
      ttlDeadlineBackend.Delete. expired: the deadline passed before the call returned; fate is what became of
      the insert by then. "Not deleted" with no error means that the key was gone already, had another
      revision, or was written in between; a statement whose answer was lost is never reported that way
      once the deadline passed, because it may have run.
     */
    method TtlDelete(op: nat, key: string, revision: nat, fate: Fate, expired: bool)
      returns (deleted: bool, timedOut: bool, ghost wrote: bool, ghost mid: State)
      requires Inv(db) && op !in db.pending && key != COMPACT_REV_KEY
      modifies this
      ensures Inv(db) && op !in db.pending
      ensures Prepare(old(db).t, DeleteReq(key, revision)).Proceed? ==>
                Called(old(db), mid, db, op, DeleteReq(key, revision), fate)
      ensures !Prepare(old(db).t, DeleteReq(key, revision)).Proceed? ==> db == mid == old(db)
      ensures deleted ==> if wrote then Written(db, db.head, key, "", 0, false, true)
                          else db == old(db) && forall i :: i in db.t ==> db.t[i].name != key
      ensures timedOut ==> expired && !deleted && !wrote
      ensures !deleted && !timedOut && (fate == Runs || expired) ==> !expired && Refusable(old(db), mid, key, revision)
      ensures !wrote && fate != AnswerLost ==> db.full == mid.full
    {
      var kv;
      kv, deleted, wrote, mid := Delete(op, key, revision, fate);
      timedOut := !deleted && expired;
    }
  }

  /** Why a delete whose insert runs can fail: a tombstone was read, or another revision, or the key was written since. */
  predicate Refusable(start: State, mid: State, key: string, revision: nat) {
    var n := Newest(start.t, key, Current);
    && n != 0
    && (start.t[n].deleted || (revision != 0 && n != revision) || Newest(mid.full, key, Current) != Newest(start.full, key, Current))
  }

  /** A key's newest live row is the same in the table and in the full history. */
  lemma FullNewest(s: State, key: string)
    requires Inv(s) && key != COMPACT_REV_KEY
    ensures var n, m := Newest(s.full, key, Current), Newest(s.t, key, Current);
            && (m == n || (m == 0 && n != 0 && s.full[n].deleted))
            && (m != 0 ==> s.t[m] == s.full[m])
  {
    LiveNewestOf(s.full, s.floor, key);
  }

  lemma LiveNewestOf(full: Table, floor: nat, key: string)
    requires NoZero(full) && key != COMPACT_REV_KEY
    ensures var n, m := Newest(full, key, Current), Newest(Compaction.Live(full, floor), key, Current);
            && (m == n || (m == 0 && n != 0 && full[n].deleted))
            && (m != 0 ==> Compaction.Live(full, floor)[m] == full[m])
  {
    Compaction.LiveNewest(full, floor, key, Current);
  }

  lemma SuccessIsNext(s: State, op: nat)
    requires Inv(s) && Succeeds(s, op) && Untouched(s, op)
    ensures var e, w := Apply(s, Insert(op)), s.pending[op]; Landed(s, e, w.row, w.seen, e.head)
  {
    var w, id := s.pending[op], s.head + 1;
    assert PendingOk(s.t, s.full, s.floor, s.head, w);
    NewContinues(s.full, s.floor, w, id);
    AppendPred(s.full, id, WithOld(s.t, w.row), w.row.name, id);
    PredIsNewest(s.full, id, w.row.name);
  }
}

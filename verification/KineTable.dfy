/**
  The kine table and what the SQL statements of the generic driver compute from it. A table maps the
  primary key to the row. AUTOINCREMENT hands out ids from 1, so 0 stands for SQL's "no row".
 */
module KineTable {
  import opened Names

  type Bytes = string

  datatype Row = Row(name: string, created: bool, deleted: bool, createRev: nat, prevRev: nat, lease: int,
                     value: Bytes, oldValue: Bytes)

  type Table = map<nat, Row>

  /** A row together with its id, as a query returns it. */
  datatype Versioned = Versioned(id: nat, row: Row)

  /** The one row whose prev_revision column holds the compact revision instead of a link. */
  const COMPACT_REV_KEY := "compact_rev_key"

  // ------------------------------------------------------------------ maxima

  predicate IsMax(s: set<nat>, m: nat) {
    m in s && forall i :: i in s ==> i <= m
  }

  lemma HasMax(s: set<nat>)
    requires s != {}
    ensures exists m :: IsMax(s, m)
  {
    var x :| x in s;
    var rest := s - {x};
    assert s == rest + {x};
    if rest == {} {
      assert IsMax(s, x);
    } else {
      HasMax(rest);
      var m :| IsMax(rest, m);
      assert IsMax(s, if x < m then m else x);
    }
  }

  /** SQL's MAX over ids, 0 for an empty set. */
  function MaxOf(s: set<nat>): (m: nat)
    ensures s == {} ==> m == 0
    ensures s != {} ==> m in s
    ensures forall i :: i in s ==> i <= m
  {
    if s == {} then 0
    else
      HasMax(s);
      var m: nat :| IsMax(s, m);
      m
  }

  predicate IsMaxId(t: Table, m: nat) {
    (forall i :: i in t ==> i <= m) && (m != 0 ==> m in t)
  }

  lemma HasMaxId(t: Table)
    ensures exists m: nat :: IsMaxId(t, m)
  {
    var ids := set i | i in t;
    assert forall i :: i in t ==> i in ids;
    assert IsMaxId(t, MaxOf(ids));
  }

  /** CurrentRevSQL. */
  function MaxId(t: Table): (m: nat)
    ensures forall i :: i in t ==> i <= m
    ensures m != 0 ==> m in t
  {
    HasMaxId(t);
    var m: nat :| IsMaxId(t, m);
    m
  }

  predicate IsCompactRev(t: Table, m: nat) {
    && (forall i :: i in t && t[i].name == COMPACT_REV_KEY ==> t[i].prevRev <= m)
    && (m != 0 ==> exists i :: i in t && t[i].name == COMPACT_REV_KEY && t[i].prevRev == m)
  }

  lemma HasCompactRev(t: Table)
    ensures exists m: nat :: IsCompactRev(t, m)
  {
    var revs := set i | i in t && t[i].name == COMPACT_REV_KEY :: t[i].prevRev;
    assert forall i :: i in t && t[i].name == COMPACT_REV_KEY ==> t[i].prevRev in revs;
    assert IsCompactRev(t, MaxOf(revs));
  }

  /** CompactRevSQL. */
  function CompactRev(t: Table): (m: nat)
    ensures forall i :: i in t && t[i].name == COMPACT_REV_KEY ==> t[i].prevRev <= m
    ensures m != 0 ==> exists i :: i in t && t[i].name == COMPACT_REV_KEY && t[i].prevRev == m
  {
    HasCompactRev(t);
    var m: nat :| IsCompactRev(t, m);
    m
  }

  /** The revision a read looks at: the current one, or everything up to a given one. */
  datatype At = Current | AtRev(rev: nat)

  predicate Covers(at: At, i: nat) {
    at.AtRev? ==> i <= at.rev
  }

  predicate IsNewest(t: Table, name: string, at: At, m: nat) {
    && (forall i :: i in t && t[i].name == name && Covers(at, i) ==> i <= m)
    && (m != 0 ==> m in t && t[m].name == name && Covers(at, m))
  }

  lemma HasNewest(t: Table, name: string, at: At)
    ensures exists m: nat :: IsNewest(t, name, at, m)
  {
    var ids := set i | i in t && t[i].name == name && Covers(at, i);
    assert forall i :: i in t && t[i].name == name && Covers(at, i) ==> i in ids;
    assert IsNewest(t, name, at, MaxOf(ids));
  }

  /** EqualsNameSQL: the newest row of a name, bounded by id when at gives a revision; 0 when none. */
  function Newest(t: Table, name: string, at: At): (m: nat)
    ensures forall i :: i in t && t[i].name == name && Covers(at, i) ==> i <= m
    ensures m != 0 ==> m in t && t[m].name == name && Covers(at, m)
  {
    HasNewest(t, name, at);
    var m: nat :| IsNewest(t, name, at, m);
    m
  }

  /** The newest row of a name before id j; 0 when none. */
  function Pred(t: Table, name: string, j: nat): (m: nat)
    ensures forall i :: i in t && t[i].name == name && i < j ==> i <= m
    ensures m != 0 ==> m in t && t[m].name == name && m < j
    ensures j != 0 ==> m < j
  {
    if j == 0 then 0 else Newest(t, name, AtRev(j - 1))
  }

  // ----------------------------------------------------------------- queries

  function NamesOf(t: Table): set<string> {
    set i | i in t :: t[i].name
  }

  /** The rows the list statement joins: the newest of each name in range, deleted ones on request. */
  function Selected(t: Table, at: At, key: string, end: string, includeDeleted: bool): (m: map<string, Versioned>)
    ensures forall n :: n in m <==> Between(n, key, end) && Shown(t, at, n, includeDeleted)
    ensures forall n :: n in m ==> m[n].id == Newest(t, n, at) && m[n].id in t && m[n].row == t[m[n].id]
  {
    assert forall n :: Shown(t, at, n, includeDeleted) ==> n in NamesOf(t) by {
      forall n | Shown(t, at, n, includeDeleted) ensures n in NamesOf(t) {
        assert t[Newest(t, n, at)].name in NamesOf(t);
      }
    }
    map n | n in NamesOf(t) && Between(n, key, end) && Shown(t, at, n, includeDeleted)
          :: Versioned(Newest(t, n, at), t[Newest(t, n, at)])
  }

  /** The name has a newest row, and the statement asks for it. */
  predicate Shown(t: Table, at: At, name: string, includeDeleted: bool) {
    Newest(t, name, at) != 0 && (includeDeleted || !t[Newest(t, name, at)].deleted)
  }

  /** ListCurrent and List: the selected rows by name, up to the limit. */
  function ListRows(t: Table, at: At, key: string, end: string, limit: int, includeDeleted: bool): seq<Versioned> {
    Limit(Ordered(Selected(t, at, key, end, includeDeleted)), limit)
  }

  /** Ids start at 1. */
  predicate NoZero(t: Table) {
    0 !in t
  }

  predicate AfterMatch(name: string, key: string, end: string) {
    key == "" || Between(name, key, end)
  }

  /** Ids in ascending order: ORDER BY id ASC. */
  function SortedIds(s: set<nat>): (r: seq<nat>)
    ensures |r| == |s|
    ensures forall i :: i in r <==> i in s
    ensures forall a, b :: 0 <= a < b < |r| ==> r[a] < r[b]
  {
    if s == {} then []
    else
      var m := MaxOf(s);
      SortedIds(s - {m}) + [m]
  }

  function RowsAt(t: Table, ids: seq<nat>): (r: seq<Versioned>)
    requires forall i :: i in ids ==> i in t
    ensures |r| == |ids|
    ensures forall k :: 0 <= k < |r| ==> r[k] == Versioned(ids[k], t[ids[k]])
  {
    seq(|ids|, k requires 0 <= k < |ids| => assert ids[k] in ids; Versioned(ids[k], t[ids[k]]))
  }

  function IdsAfter(t: Table, key: string, end: string, rev: nat): set<nat> {
    set i | i in t && rev < i && AfterMatch(t[i].name, key, end)
  }

  /** The three After statements: matching rows with a larger id, oldest first, up to the limit. */
  function After(t: Table, key: string, end: string, rev: nat, limit: int): (r: seq<Versioned>)
    ensures forall k :: 0 <= k < |r| ==> rev < r[k].id && r[k].id in t && t[r[k].id] == r[k].row
    ensures forall a, b :: 0 <= a < b < |r| ==> r[a].id < r[b].id
  {
    var ids := SortedIds(IdsAfter(t, key, end, rev));
    assert forall k :: 0 <= k < |ids| ==> ids[k] in ids && ids[k] in IdsAfter(t, key, end, rev);
    var rows := RowsAt(t, ids);
    assert forall a, b :: 0 <= a < b < |rows| ==> rows[a].id < rows[b].id;
    Limit(rows, limit)
  }

  lemma AfterRows(t: Table, key: string, end: string, rev: nat, limit: int)
    ensures var r, ids := After(t, key, end, rev, limit), SortedIds(IdsAfter(t, key, end, rev));
            && |r| == (if 0 < limit < |ids| then limit else |ids|)
            && forall k :: 0 <= k < |r| ==> ids[k] in t && r[k] == Versioned(ids[k], t[ids[k]])
  {
    var ids := SortedIds(IdsAfter(t, key, end, rev));
    assert forall k :: 0 <= k < |ids| ==> ids[k] in ids && ids[k] in IdsAfter(t, key, end, rev);
  }

  /** Only rows that match; a limit keeps that many of them, the oldest, and leaves no gap before the last. */
  lemma AfterKeepsOldest(t: Table, key: string, end: string, rev: nat, limit: int)
    ensures var r, all := After(t, key, end, rev, limit), IdsAfter(t, key, end, rev);
            && (forall k :: 0 <= k < |r| ==> r[k].id in all)
            && |r| == (if 0 < limit < |all| then limit else |all|)
            && forall i, k :: i in all && 0 <= k < |r| && i <= r[k].id ==> Versioned(i, t[i]) in r[..k + 1]
  {
    hide After;
    var r, all := After(t, key, end, rev, limit), IdsAfter(t, key, end, rev);
    var ids := SortedIds(all);
    AfterRows(t, key, end, rev, limit);
    hide SortedIds, AfterMatch;
    forall k | 0 <= k < |r| ensures r[k].id in all { assert ids[k] in ids; }
    forall i, k | i in all && 0 <= k < |r| && i <= r[k].id ensures Versioned(i, t[i]) in r[..k + 1] {
      var n := IndexIn(ids, i);
      assert n <= k;
      assert r[..k + 1][n] == r[n];
    }
  }

  lemma IndexIn(ids: seq<nat>, i: nat) returns (n: nat)
    requires i in ids
    ensures n < |ids| && ids[n] == i
  {
    n :| 0 <= n < |ids| && ids[n] == i;
  }

  // -------------------------------------------------------------- statements

  /** The unique index on (name, prev_revision). */
  predicate Conflict(t: Table, name: string, prevRev: nat) {
    exists i :: i in t && t[i].name == name && t[i].prevRev == prevRev
  }

  // a row in a free slot

  lemma PutMaxId(t: Table, id: nat, row: Row)
    ensures MaxId(t[id := row]) == if MaxId(t) < id then id else MaxId(t)
  {
    var a := MaxId(t[id := row]);
    assert id in t[id := row];
    assert MaxId(t) != 0 ==> MaxId(t) in t[id := row];
    assert a != 0 && a != id ==> a in t;
  }

  lemma PutCompactRev(t: Table, id: nat, row: Row)
    requires id !in t && row.name != COMPACT_REV_KEY
    ensures CompactRev(t[id := row]) == CompactRev(t)
  {
    var u := t[id := row];
    var a, b := CompactRev(u), CompactRev(t);
    if a != 0 {
      var i :| i in u && u[i].name == COMPACT_REV_KEY && u[i].prevRev == a;
      assert i in t && t[i] == u[i];
    }
    if b != 0 {
      var i :| i in t && t[i].name == COMPACT_REV_KEY && t[i].prevRev == b;
      assert i in u && t[i] == u[i];
    }
  }

  lemma ConflictStays(t: Table, name: string, prevRev: nat, id: nat, row: Row)
    requires Conflict(t, name, prevRev) && id !in t
    ensures Conflict(t[id := row], name, prevRev)
  {
    var j :| j in t && t[j].name == name && t[j].prevRev == prevRev;
    assert t[id := row][j] == t[j];
  }

  /** UpdateCompactSQL. */
  function SetCompactRev(t: Table, rev: nat): (r: Table)
    ensures r.Keys == t.Keys
    ensures forall i :: i in t ==> r[i] == if t[i].name == COMPACT_REV_KEY then t[i].(prevRev := rev) else t[i]
  {
    map i | i in t :: if t[i].name == COMPACT_REV_KEY then t[i].(prevRev := rev) else t[i]
  }

  /** The subquery of CompactSQL names this id. */
  predicate SqlVictim(t: Table, target: nat, i: nat) {
    || (exists j :: j in t && t[j].name != COMPACT_REV_KEY && t[j].prevRev != 0 && t[j].prevRev == i && j <= target)
    || (i in t && t[i].deleted && i <= target)
  }

  /** CompactSQL: delete every row the subquery names. */
  function CompactSql(t: Table, target: nat): (r: Table)
    ensures r.Keys <= t.Keys
    ensures forall i :: i in r ==> r[i] == t[i]
  {
    map i | i in t && !SqlVictim(t, target, i) :: t[i]
  }

  /** One compaction transaction: delete, then record the revision. */
  function CompactTo(t: Table, target: nat): Table {
    SetCompactRev(CompactSql(t, target), target)
  }

  function Digits(n: nat): (s: string)
    ensures s != ""
  {
    var d := [(n % 10) as char + '0'];
    if n < 10 then d else Digits(n / 10) + d
  }

  /** The row Fill plants at a missing id: a tombstone of a name of its own. */
  function FillRow(n: nat): Row {
    Row("gap-" + Digits(n), false, true, 0, 0, 0, "", "")
  }

  /** IsFill: decided by the name's prefix alone. */
  predicate IsFill(name: string) {
    "gap-" <= name
  }
}

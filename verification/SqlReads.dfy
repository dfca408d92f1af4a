/** The read calls of the SQL log, with their revision checks, and what a compaction does to them. */
module SqlReads {
  import opened Names
  import opened KineTable
  import opened Compaction

  datatype Reply<+V> = Reply(rev: nat, value: V) | FutureRev(rev: nat) | Compacted(rev: nat)

  function AtOf(revision: nat): At {
    if revision == 0 then Current else AtRev(revision)
  }

  /** The columns an event gets: never the old value, and no value for a keys-only read. */
  function Project(v: Versioned, keysOnly: bool): Versioned {
    Versioned(v.id, v.row.(oldValue := "", value := if keysOnly then "" else v.row.value))
  }

  function ProjectAll(rows: seq<Versioned>, keysOnly: bool): (r: seq<Versioned>)
    ensures |r| == |rows|
  {
    seq(|rows|, i requires 0 <= i < |rows| => Project(rows[i], keysOnly))
  }

  /** The revision checks every read makes: the future first, then what is compacted. */
  function Checked<V>(revision: nat, rev: nat, compact: nat, value: V): Reply<V> {
    if revision > rev then FutureRev(rev)
    else if 0 < revision < compact then Compacted(rev)
    else Reply(rev, value)
  }

  /**
    SQLLog.List. An empty result carries no revisions, so the current one then comes from the cache;
    otherwise it is MAX(id) of the same statement.
   */
  function List(t: Table, cached: nat, key: string, end: string, limit: int, revision: nat,
                includeDeleted: bool, keysOnly: bool): Reply<seq<Versioned>>
  {
    var rows := ListRows(t, AtOf(revision), key, end, limit, includeDeleted);
    Checked(revision, if rows == [] then cached else MaxId(t), CompactRev(t), ProjectAll(rows, keysOnly))
  }

  /** SQLLog.Count. The statements have no single-key form: an empty end counts nothing. */
  function Count(t: Table, key: string, end: string, revision: nat): Reply<nat> {
    var n := if end == "" then 0 else |Selected(t, AtOf(revision), key, end, false)|;
    Checked(revision, MaxId(t), CompactRev(t), n)
  }

  // ------------------------------------------------------------------- lemmas

  /** The current revision survives a compaction exactly when the head is not a tombstone within the target. */
  lemma HeadKept(t: Table, target: nat)
    requires Chain(t) && t != map[]
    ensures MaxId(CompactTo(t, target)) == MaxId(t) <==> !(t[MaxId(t)].deleted && MaxId(t) <= target)
  {
    SqlIsLive(t, target);
    var h := MaxId(t);
    var c := CompactTo(t, target);
    assert exists i :: i in t;
    assert h in t;
    assert Dead(t, target, h) <==> t[h].deleted && h <= target;
    assert h in c <==> !Dead(t, target, h);
  }

  lemma SetRevKeepsNewest(t: Table, rev: nat, name: string, at: At)
    ensures Newest(SetCompactRev(t, rev), name, at) == Newest(t, name, at)
  {
    var s := SetCompactRev(t, rev);
    var a, b := Newest(s, name, at), Newest(t, name, at);
    assert a != 0 ==> a <= b;
    assert b != 0 ==> b <= a;
  }

  lemma SetRevKeepsShown(t: Table, rev: nat, at: At, n: string)
    requires NoZero(t)
    ensures Shown(SetCompactRev(t, rev), at, n, false) == Shown(t, at, n, false)
    ensures n != COMPACT_REV_KEY && Newest(t, n, at) != 0 ==> SetCompactRev(t, rev)[Newest(t, n, at)] == t[Newest(t, n, at)]
  {
    SetRevKeepsNewest(t, rev, n, at);
  }

  lemma SetRevKeepsSelected(t: Table, rev: nat, at: At, key: string, end: string)
    requires NoZero(t) && !Between(COMPACT_REV_KEY, key, end)
    ensures Selected(SetCompactRev(t, rev), at, key, end, false) == Selected(t, at, key, end, false)
  {
    var a, b := Selected(SetCompactRev(t, rev), at, key, end, false), Selected(t, at, key, end, false);
    forall n ensures n in a <==> n in b {
      SetRevKeepsShown(t, rev, at, n);
    }
    forall n | n in a ensures a[n] == b[n] {
      SetRevKeepsShown(t, rev, at, n);
      SetRevKeepsNewest(t, rev, n, at);
    }
  }

  lemma CompactSelected(t: Table, target: nat, at: At, key: string, end: string)
    requires Chain(t) && Covers2(at, target) && !Between(COMPACT_REV_KEY, key, end)
    ensures Selected(CompactTo(t, target), at, key, end, false) == Selected(t, at, key, end, false)
  {
    SqlIsLive(t, target);
    SetRevKeepsSelected(Live(t, target), target, at, key, end);
    LiveSelected(t, target, at, key, end);
  }

  lemma CompactRevAfter(t: Table, target: nat)
    requires Chain(t) && exists i :: i in t && t[i].name == COMPACT_REV_KEY
    ensures CompactRev(CompactTo(t, target)) == target
  {
    CompactKeepsChain(t, target);
    var i :| i in t && t[i].name == COMPACT_REV_KEY;
    assert i in CompactTo(t, target);
    assert CompactTo(t, target)[i].prevRev == target;
  }

  /**
    A compaction that moves the compact revision forward and stays below the head is invisible to
    every list, get (a list with no end) and count of client keys at the current revision or from the
    target on: same events, same order, same limit, same revision in the header. Below the target
    every such read is refused.
   */
  lemma CompactionInvisible(t: Table, target: nat, cached: nat, key: string, end: string, limit: int,
                            revision: nat, keysOnly: bool)
    requires Chain(t) && CompactRev(t) <= target < MaxId(t) && !Between(COMPACT_REV_KEY, key, end)
    requires exists i :: i in t && t[i].name == COMPACT_REV_KEY
    ensures var c := CompactTo(t, target);
            if revision == 0 || target <= revision then
              && List(c, cached, key, end, limit, revision, false, keysOnly)
                 == List(t, cached, key, end, limit, revision, false, keysOnly)
              && Count(c, key, end, revision) == Count(t, key, end, revision)
            else
              && !List(c, cached, key, end, limit, revision, false, keysOnly).Reply?
              && !Count(c, key, end, revision).Reply?
  {
    if revision == 0 || target <= revision {
      ServedAbove(t, target, cached, key, end, limit, revision, keysOnly);
    } else {
      CompactRevAfter(t, target);
    }
  }

  lemma HeadAndRows(t: Table, target: nat, key: string, end: string, limit: int, revision: nat)
    requires Chain(t) && target < MaxId(t) && !Between(COMPACT_REV_KEY, key, end)
    requires revision == 0 || target <= revision
    ensures MaxId(CompactTo(t, target)) == MaxId(t)
    ensures Selected(CompactTo(t, target), AtOf(revision), key, end, false) == Selected(t, AtOf(revision), key, end, false)
  {
    assert MaxId(t) in t;
    HeadKept(t, target);
    CompactSelected(t, target, AtOf(revision), key, end);
  }

  lemma ServedAbove(t: Table, target: nat, cached: nat, key: string, end: string, limit: int, revision: nat, keysOnly: bool)
    requires Chain(t) && CompactRev(t) <= target < MaxId(t) && !Between(COMPACT_REV_KEY, key, end)
    requires exists i :: i in t && t[i].name == COMPACT_REV_KEY
    requires revision == 0 || target <= revision
    ensures List(CompactTo(t, target), cached, key, end, limit, revision, false, keysOnly)
            == List(t, cached, key, end, limit, revision, false, keysOnly)
    ensures Count(CompactTo(t, target), key, end, revision) == Count(t, key, end, revision)
  {
    CompactRevAfter(t, target);
    HeadAndRows(t, target, key, end, limit, revision);
    SameReads(t, CompactTo(t, target), cached, key, end, limit, revision, keysOnly);
  }

  /** A read sees only the selected rows, the head and the compact revision. */
  lemma SameReads(t: Table, c: Table, cached: nat, key: string, end: string, limit: int, revision: nat, keysOnly: bool)
    requires MaxId(c) == MaxId(t)
    requires Selected(c, AtOf(revision), key, end, false) == Selected(t, AtOf(revision), key, end, false)
    requires revision == 0 || (CompactRev(t) <= revision && CompactRev(c) <= revision)
    ensures List(c, cached, key, end, limit, revision, false, keysOnly)
            == List(t, cached, key, end, limit, revision, false, keysOnly)
    ensures Count(c, key, end, revision) == Count(t, key, end, revision)
  {
  }

  // ------------------------------------------------------ what a read at a revision shows

  /** The table as it was when r was its newest revision, less what was compacted since. */
  function UpTo(t: Table, r: nat): Table {
    map i | i in t && i <= r :: t[i]
  }

  lemma NewestUpTo(t: Table, name: string, r: nat)
    ensures Newest(UpTo(t, r), name, Current) == Newest(t, name, AtRev(r))
  {
    var a, b := Newest(UpTo(t, r), name, Current), Newest(t, name, AtRev(r));
    assert a != 0 ==> a in t && t[a] == UpTo(t, r)[a];
    assert b != 0 ==> b in UpTo(t, r);
  }

  lemma SelectedUpTo(t: Table, r: nat, key: string, end: string, includeDeleted: bool)
    ensures Selected(UpTo(t, r), Current, key, end, includeDeleted) == Selected(t, AtRev(r), key, end, includeDeleted)
  {
    var a, b := Selected(UpTo(t, r), Current, key, end, includeDeleted), Selected(t, AtRev(r), key, end, includeDeleted);
    forall n ensures n in a <==> n in b
             ensures n in a && n in b ==> a[n] == b[n]
    {
      NewestUpTo(t, n, r);
    }
  }

  /** What a read looks at: the table now, or as it was at the revision. */
  function Viewed(t: Table, revision: nat): Table {
    if revision == 0 then t else UpTo(t, revision)
  }

  lemma ViewedSelected(t: Table, revision: nat, key: string, end: string, includeDeleted: bool)
    ensures Selected(t, AtOf(revision), key, end, includeDeleted) == Selected(Viewed(t, revision), Current, key, end, includeDeleted)
  {
    if revision != 0 { SelectedUpTo(t, revision, key, end, includeDeleted); }
  }

  /** The reply is refused for a revision past the header's, then for one before the compact revision; else it has rows. */
  predicate Served<V>(reply: Reply<V>, revision: nat, header: nat, compact: nat) {
    if revision > header then reply == FutureRev(header)
    else if 0 < revision < compact then reply == Compacted(header)
    else reply.Reply? && reply.rev == header
  }

  /**
    Time travel: a list at a revision has the rows that a list had when that revision was the newest, without
    their old values. Its header is MAX(id), or the cached revision when it has no rows.
   */
  lemma ListShows(t: Table, cached: nat, key: string, end: string, limit: int, revision: nat,
                  includeDeleted: bool, keysOnly: bool)
    ensures var rows := Limit(Ordered(Selected(Viewed(t, revision), Current, key, end, includeDeleted)), limit);
            var reply := List(t, cached, key, end, limit, revision, includeDeleted, keysOnly);
            && Served(reply, revision, if rows == [] then cached else MaxId(t), CompactRev(t))
            && (reply.Reply? ==>
                  && |reply.value| == |rows|
                  && forall k :: 0 <= k < |rows| ==>
                       reply.value[k] == Versioned(rows[k].id, rows[k].row.(oldValue := "", value := if keysOnly then "" else rows[k].row.value)))
  {
    ViewedSelected(t, revision, key, end, includeDeleted);
    hide Selected, AtOf, Viewed, Ordered, Limit, IsMaxId, IsCompactRev, MaxId, CompactRev;
    ListIs(t, cached, key, end, limit, revision, includeDeleted, keysOnly);
  }

  lemma ListIs(t: Table, cached: nat, key: string, end: string, limit: int, revision: nat, includeDeleted: bool, keysOnly: bool)
    ensures var rows := Limit(Ordered(Selected(t, AtOf(revision), key, end, includeDeleted)), limit);
            List(t, cached, key, end, limit, revision, includeDeleted, keysOnly)
            == Checked(revision, if rows == [] then cached else MaxId(t), CompactRev(t), ProjectAll(rows, keysOnly))
  {
  }

  /** And a count has the number of live names of the range then; with no end it counts nothing. */
  lemma CountShows(t: Table, key: string, end: string, revision: nat)
    ensures var reply := Count(t, key, end, revision);
            && Served(reply, revision, MaxId(t), CompactRev(t))
            && (reply.Reply? ==> reply.value == if end == "" then 0 else |Selected(Viewed(t, revision), Current, key, end, false)|)
  {
    ViewedSelected(t, revision, key, end, false);
  }

  /** What was appended past a revision never changes an answer at that revision. */
  lemma LaterRowsChangeNothing(t: Table, u: Table, cached: nat, cached': nat, key: string, end: string, limit: int,
                               revision: nat, includeDeleted: bool, keysOnly: bool)
    requires 0 < revision && (forall i :: i <= revision ==> (i in t <==> i in u) && (i in t ==> t[i] == u[i]))
    requires CompactRev(t) <= revision <= MaxId(t) && CompactRev(u) <= revision <= MaxId(u)
    requires revision <= cached && revision <= cached'
    ensures var a := List(t, cached, key, end, limit, revision, includeDeleted, keysOnly);
            var b := List(u, cached', key, end, limit, revision, includeDeleted, keysOnly);
            a.Reply? && b.Reply? && a.value == b.value
    ensures var a, b := Count(t, key, end, revision), Count(u, key, end, revision);
            a.Reply? && b.Reply? && a.value == b.value
  {
    hide Selected, AtOf, Ordered, Limit, IsMaxId, IsCompactRev, ProjectAll, List, Count;
    SameBefore(t, u, revision, key, end, includeDeleted);
    SameBefore(t, u, revision, key, end, false);
    ListIs(t, cached, key, end, limit, revision, includeDeleted, keysOnly);
    ListIs(u, cached', key, end, limit, revision, includeDeleted, keysOnly);
    CountIs(t, key, end, revision);
    CountIs(u, key, end, revision);
  }

  lemma CountIs(t: Table, key: string, end: string, revision: nat)
    ensures Count(t, key, end, revision)
            == Checked(revision, MaxId(t), CompactRev(t), if end == "" then 0 else |Selected(t, AtOf(revision), key, end, false)|)
  {
  }

  lemma SameUpTo(t: Table, u: Table, r: nat)
    requires forall i :: i <= r ==> (i in t <==> i in u) && (i in t ==> t[i] == u[i])
    ensures UpTo(t, r) == UpTo(u, r)
  {
  }

  lemma SameBefore(t: Table, u: Table, revision: nat, key: string, end: string, includeDeleted: bool)
    requires 0 < revision && (forall i :: i <= revision ==> (i in t <==> i in u) && (i in t ==> t[i] == u[i]))
    ensures Selected(t, AtOf(revision), key, end, includeDeleted) == Selected(u, AtOf(revision), key, end, includeDeleted)
  {
    SameUpTo(t, u, revision);
    hide Selected, UpTo, AtOf;
    ViewedSelected(t, revision, key, end, includeDeleted);
    ViewedSelected(u, revision, key, end, includeDeleted);
  }
}

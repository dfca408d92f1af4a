/**
  What a pass over the database finds between two of its transactions: other clients have appended rows
  and may have compacted. Beside the table stands the one nobody ever compacted.
 */
module LogHistory {
  import opened KineTable
  import opened Compaction
  import opened SqlReads

  /** t: the table. full: every row ever written to it. foreign: how far the others have compacted. */
  datatype Db = Db(t: Table, full: Table, foreign: nat)

  predicate HasCompactRow(t: Table) {
    exists i :: i in t && t[i].name == COMPACT_REV_KEY
  }

  /** The table is everything written, compacted to its compact revision. */
  predicate Holds(d: Db) {
    && Chain(d.t) && HasCompactRow(d.t) && NoZero(d.full)
    && d.t == SetCompactRev(Live(d.full, CompactRev(d.t)), CompactRev(d.t))
    && d.foreign <= CompactRev(d.t) <= MaxId(d.full)
  }

  /** Every row written stays written, and new rows come past the compact revision. */
  predicate Extends(full: Table, full': Table, compactRev: nat) {
    && (forall i {:trigger i in full} :: i in full ==> i in full' && full'[i] == full[i])
    && (forall i {:trigger i in full'} :: i in full' && i !in full ==> compactRev < i && full'[i].name != COMPACT_REV_KEY)
  }

  /** From a the database may come to b: rows were appended, and somebody may have compacted. */
  predicate Evolves(a: Db, b: Db) {
    && Holds(a) && Holds(b) && Extends(a.full, b.full, CompactRev(a.t))
    && a.foreign <= b.foreign && CompactRev(a.t) <= CompactRev(b.t)
  }

  /** As Evolves, by the others alone. */
  predicate OthersRan(a: Db, b: Db) {
    Evolves(a, b) && (CompactRev(b.t) == CompactRev(a.t) || CompactRev(b.t) == b.foreign)
  }

  lemma EvolvesItself(d: Db)
    requires Holds(d)
    ensures Evolves(d, d) && d.foreign <= CompactRev(d.t)
  {
  }

  lemma EvolvesTwice(a: Db, b: Db, c: Db)
    requires Evolves(a, b) && Evolves(b, c)
    ensures Evolves(a, c)
  {
    forall i | i in c.full && i !in a.full
      ensures CompactRev(a.t) < i && c.full[i].name != COMPACT_REV_KEY
    {
      if i in b.full { assert c.full[i] == b.full[i]; }
    }
  }

  lemma MaxIdGrows(t: Table, t': Table)
    requires t.Keys <= t'.Keys
    ensures MaxId(t) <= MaxId(t')
  {
    assert MaxId(t) != 0 ==> MaxId(t) in t';
  }

  /** A row of the history that is out of the table is dead, and stays out of it whatever happens next. */
  lemma GoneStaysGone(a: Db, b: Db, i: nat)
    requires Evolves(a, b) && i in a.full && i !in a.t
    ensures i in b.full && i !in b.t
  {
    var c, c' := CompactRev(a.t), CompactRev(b.t);
    assert Dead(a.full, c, i);
    assert b.full[i] == a.full[i];
    if !a.full[i].deleted {
      var j :| j in a.full && a.full[j].name == a.full[i].name && i < j <= c;
      assert b.full[j] == a.full[j];
    }
    assert Dead(b.full, c', i);
  }

  /** A row of the table past the compact revision of the time stays in it. */
  lemma RetainedRowsStay(a: Db, b: Db, i: nat)
    requires Evolves(a, b) && i in a.t && CompactRev(b.t) < i
    ensures i in b.t && (a.t[i].name != COMPACT_REV_KEY ==> b.t[i] == a.t[i])
  {
    assert i in a.full && a.full[i].name == a.t[i].name && b.full[i] == a.full[i];
    assert !Dead(b.full, CompactRev(b.t), i);
  }

  /** While the others do not compact they only add rows. */
  lemma QuietKeeps(a: Db, b: Db)
    requires OthersRan(a, b) && a.foreign == b.foreign
    ensures CompactRev(b.t) == CompactRev(a.t) && a.t.Keys <= b.t.Keys && MaxId(a.t) <= MaxId(b.t)
  {
    var c := CompactRev(a.t);
    forall i | i in a.t ensures i in b.t {
      assert i in a.full && b.full[i] == a.full[i] && !Dead(a.full, c, i);
      assert !Dead(b.full, c, i);
    }
    MaxIdGrows(a.t, b.t);
  }

  /** Compacting a compacted table is compacting everything written. */
  lemma CompactAgain(full: Table, t: Table, rev: nat, to: nat)
    requires Chain(t) && t == SetCompactRev(Live(full, rev), rev) && rev <= to
    ensures CompactTo(t, to) == SetCompactRev(Live(full, to), to)
  {
    SqlIsLive(t, to);
    SetRevLive(Live(full, rev), rev, to);
    LiveTwice(full, rev, to);
    SetRevTwice(Live(full, to), rev, to);
  }

  lemma CompactKeepsRow(t: Table, to: nat)
    requires Chain(t) && HasCompactRow(t)
    ensures Chain(CompactTo(t, to)) && HasCompactRow(CompactTo(t, to)) && CompactTo(t, to).Keys <= t.Keys
  {
    CompactKeepsChain(t, to);
    var i :| i in t && t[i].name == COMPACT_REV_KEY;
    assert i in CompactTo(t, to);
  }

  /** A transaction that compacts: the table is then everything written, compacted to the new target. */
  lemma CompactEvolves(d: Db, to: nat)
    requires Holds(d) && CompactRev(d.t) <= to <= MaxId(d.full)
    ensures Evolves(d, d.(t := CompactTo(d.t, to))) && CompactRev(CompactTo(d.t, to)) == to
    ensures CompactTo(d.t, to).Keys <= d.t.Keys
  {
    hide Chain, CompactTo, SetCompactRev, Live, IsCompactRev, IsMaxId;
    CompactRevAfter(d.t, to);
    CompactKeepsRow(d.t, to);
    CompactAgain(d.full, d.t, CompactRev(d.t), to);
  }

  lemma TableMaxId(d: Db)
    requires Holds(d)
    ensures MaxId(d.t) <= MaxId(d.full)
  {
    assert d.t.Keys <= d.full.Keys;
    MaxIdGrows(d.t, d.full);
  }

  lemma HistoryMaxId(a: Db, b: Db)
    requires Evolves(a, b)
    ensures MaxId(a.full) <= MaxId(b.full)
  {
    assert a.full.Keys <= b.full.Keys;
    MaxIdGrows(a.full, b.full);
  }

  /** What others leave of a table and its history, in sum. */
  lemma OthersKeep(a: Db, b: Db)
    requires OthersRan(a, b)
    ensures Evolves(a, b) && Holds(b) && MaxId(a.full) <= MaxId(b.full) && a.foreign <= b.foreign
    ensures CompactRev(a.t) <= CompactRev(b.t) && (CompactRev(b.t) == CompactRev(a.t) || CompactRev(b.t) == b.foreign)
    ensures a.foreign == b.foreign ==>
              CompactRev(b.t) == CompactRev(a.t) && a.t.Keys <= b.t.Keys && MaxId(a.t) <= MaxId(b.t)
  {
    HistoryMaxId(a, b);
    if a.foreign == b.foreign { QuietKeeps(a, b); }
  }

  // -------------------------------------------- what the others do, as instances

  lemma AppendToLive(full: Table, t: Table, rev: nat, id: nat, row: Row)
    requires t == SetCompactRev(Live(full, rev), rev) && rev < id && id !in full && row.name != COMPACT_REV_KEY
    ensures t[id := row] == SetCompactRev(Live(full[id := row], rev), rev) && id !in t
  {
    AppendLive(full, rev, id, row);
  }

  lemma AppendExtends(full: Table, t: Table, rev: nat, id: nat, row: Row)
    requires NoZero(full) && rev < id && id !in full && id !in t && row.name != COMPACT_REV_KEY
    ensures HasCompactRow(t) ==> HasCompactRow(t[id := row])
    ensures NoZero(full[id := row]) && Extends(full, full[id := row], rev)
  {
    if HasCompactRow(t) {
      var i :| i in t && t[i].name == COMPACT_REV_KEY;
      assert t[id := row][i] == t[i];
    }
  }

  /** Another client commits a row past the compact revision. */
  lemma AppendIsOthers(d: Db, id: nat, row: Row)
    requires Holds(d) && CompactRev(d.t) < id && id !in d.full && row.name != COMPACT_REV_KEY
    requires Chain(d.t[id := row])
    ensures OthersRan(d, Db(d.t[id := row], d.full[id := row], d.foreign))
  {
    hide Chain, SetCompactRev, Live, IsCompactRev, IsMaxId, HasCompactRow, Extends;
    AppendToLive(d.full, d.t, CompactRev(d.t), id, row);
    AppendExtends(d.full, d.t, CompactRev(d.t), id, row);
    PutCompactRev(d.t, id, row);
    PutMaxId(d.full, id, row);
  }

  /** Another client compacts. */
  lemma CompactIsOthers(d: Db, to: nat)
    requires Holds(d) && CompactRev(d.t) <= to <= MaxId(d.full)
    ensures OthersRan(d, Db(CompactTo(d.t, to), d.full, to))
  {
    CompactEvolves(d, to);
  }
}

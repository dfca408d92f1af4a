/**
  What CompactSQL means. The statement deletes by link: the id some newer row names as its
  prev_revision, and tombstones. Live gives the rule by meaning: a row goes when it is superseded or
  deleted at the target. The two agree on every table whose rows of a name form a chain.
 */
module Compaction {
  import opened Names
  import opened KineTable

  /** Row i of a client key has nothing left to show at any revision from the target on. */
  predicate Dead(t: Table, target: nat, i: nat) {
    && i in t && i <= target && t[i].name != COMPACT_REV_KEY
    && (t[i].deleted || exists j :: j in t && t[j].name == t[i].name && i < j <= target)
  }

  function Live(t: Table, target: nat): (r: Table)
    ensures forall i {:trigger i in r} :: i in r <==> i in t && !Dead(t, target, i)
    ensures forall i {:trigger r[i]} :: i in r ==> r[i] == t[i]
  {
    map i | i in t && !Dead(t, target, i) :: t[i]
  }

  predicate Link(t: Table, j: nat)
    requires j in t
  {
    var p := Pred(t, t[j].name, j);
    if p != 0 then t[j].prevRev == p else t[j].prevRev < j && t[j].prevRev !in t
  }

  /** Rows of a client key are linked by prev_revision, newest to oldest; the compact-revision row is no tombstone. */
  predicate Chain(t: Table) {
    && NoZero(t)
    && (forall j {:trigger Link(t, j)} :: j in t && t[j].name != COMPACT_REV_KEY ==> Link(t, j))
    && (forall j :: j in t && t[j].name == COMPACT_REV_KEY ==> !t[j].deleted)
  }

  // --------------------------------------------------- the rule and its meaning

  /** The row that links to i, when some later row of the name exists. */
  lemma {:induction false} Successor(t: Table, i: nat, j: nat) returns (s: nat)
    requires NoZero(t) && i in t && j in t && t[j].name == t[i].name && i < j
    ensures s in t && t[s].name == t[i].name && i < s <= j && Pred(t, t[i].name, s) == i
    decreases j
  {
    var p := Pred(t, t[i].name, j);
    if p == i {
      s := j;
    } else {
      s := Successor(t, i, p);
    }
  }

  lemma SqlVictimIsDead(t: Table, target: nat, i: nat)
    requires Chain(t) && i in t
    ensures SqlVictim(t, target, i) <==> Dead(t, target, i)
  {
    if SqlVictim(t, target, i) && !(t[i].deleted && i <= target) {
      var j :| j in t && t[j].name != COMPACT_REV_KEY && t[j].prevRev != 0 && t[j].prevRev == i && j <= target;
      assert Link(t, j);
    }
    if Dead(t, target, i) && !t[i].deleted {
      var j :| j in t && t[j].name == t[i].name && i < j <= target;
      var s := Successor(t, i, j);
      assert Link(t, s) && t[s].prevRev == i;
    }
  }

  /** On a chain the SQL statement deletes exactly the superseded and the deleted rows. */
  lemma SqlIsLive(t: Table, target: nat)
    requires Chain(t)
    ensures CompactSql(t, target) == Live(t, target)
  {
    forall i | i in t ensures SqlVictim(t, target, i) <==> Dead(t, target, i) {
      SqlVictimIsDead(t, target, i);
    }
  }

  /** What a compaction deletes of a key is the oldest part of its rows. */
  lemma DeletesPrefix(t: Table, target: nat, i: nat, j: nat)
    requires Chain(t) && i in t && j in t && t[i].name == t[j].name && i < j
    requires SqlVictim(t, target, j)
    ensures SqlVictim(t, target, i)
  {
    SqlVictimIsDead(t, target, i);
    SqlVictimIsDead(t, target, j);
  }

  lemma LivePred(t: Table, target: nat, j: nat)
    requires NoZero(t) && j in Live(t, target) && t[j].name != COMPACT_REV_KEY
    ensures var p, q := Pred(t, t[j].name, j), Pred(Live(t, target), t[j].name, j);
            q == p || (q == 0 && p !in Live(t, target))
  {
    var p, q := Pred(t, t[j].name, j), Pred(Live(t, target), t[j].name, j);
    assert q != 0 ==> q in Live(t, target) && q <= p;
    assert p != 0 && p !in Live(t, target) ==> Dead(t, target, p);
  }

  /** Compaction keeps the chain, and the row that holds the compact revision. */
  lemma CompactKeepsChain(t: Table, target: nat)
    requires Chain(t)
    ensures Chain(CompactTo(t, target))
    ensures forall i :: i in t && t[i].name == COMPACT_REV_KEY ==> i in CompactTo(t, target)
    ensures forall i :: i in CompactTo(t, target) ==> i in t && CompactTo(t, target)[i].name == t[i].name
  {
    SqlIsLive(t, target);
    var l := Live(t, target);
    var c := CompactTo(t, target);
    forall j | j in c && c[j].name != COMPACT_REV_KEY ensures Link(c, j) {
      LivePred(t, target, j);
      SetRevKeepsPred(l, target, c[j].name, j);
      assert Link(t, j);
    }
  }

  lemma SetRevKeepsPred(t: Table, rev: nat, name: string, j: nat)
    requires NoZero(t)
    ensures Pred(SetCompactRev(t, rev), name, j) == Pred(t, name, j)
  {
  }

  // ------------------------------------------------------- reads see no change

  lemma LiveNewest(t: Table, target: nat, name: string, at: At)
    requires NoZero(t) && name != COMPACT_REV_KEY && Covers2(at, target)
    ensures var n, m := Newest(t, name, at), Newest(Live(t, target), name, at);
            if n != 0 && Dead(t, target, n) then m == 0 && t[n].deleted else m == n
  {
    var n, m := Newest(t, name, at), Newest(Live(t, target), name, at);
    if n != 0 && Dead(t, target, n) {
      if m != 0 {
        assert m < n && Dead(t, target, m);
      }
    }
  }

  /** The read looks at the target or later. */
  predicate Covers2(at: At, target: nat) {
    at.AtRev? ==> target <= at.rev
  }

  lemma LiveNewestCrk(t: Table, target: nat, at: At)
    requires NoZero(t)
    ensures Newest(Live(t, target), COMPACT_REV_KEY, at) == Newest(t, COMPACT_REV_KEY, at)
  {
  }

  /** Dropping dead rows changes no read of live keys from the target on, whatever its range; no chain needed. */
  lemma LiveSelected(t: Table, target: nat, at: At, key: string, end: string)
    requires NoZero(t) && Covers2(at, target)
    ensures Selected(Live(t, target), at, key, end, false) == Selected(t, at, key, end, false)
  {
    var l := Live(t, target);
    var a, b := Selected(l, at, key, end, false), Selected(t, at, key, end, false);
    forall n ensures n in a <==> n in b
             ensures n in a && n in b ==> a[n] == b[n]
    {
      if n == COMPACT_REV_KEY { LiveNewestCrk(t, target, at); } else { LiveNewest(t, target, n, at); }
    }
  }

  /** A read that also shows tombstones loses a name exactly when its newest row is a compacted tombstone. */
  lemma LiveSelectedWithDeleted(t: Table, target: nat, at: At, name: string)
    requires NoZero(t) && Covers2(at, target) && name != COMPACT_REV_KEY
    ensures Selected(Live(t, target), at, name, "", true) ==
            (var n := Newest(t, name, at);
             if n != 0 && n <= target && t[n].deleted then map[] else Selected(t, at, name, "", true))
  {
    LiveNewest(t, target, name, at);
    var l, n := Live(t, target), Newest(t, name, at);
    var a, b := Selected(l, at, name, "", true), Selected(t, at, name, "", true);
    assert Between(name, name, "");
    assert forall m :: m in a || m in b ==> m == name;
    if n != 0 && n <= target && t[n].deleted { assert Dead(t, target, n); }
  }

  // ----------------------------------------------------------------- batches

  /** Compacting in two steps, in either order, is compacting once to the higher target. */
  lemma LiveTwice(t: Table, first: nat, second: nat)
    ensures Live(Live(t, first), second) == Live(t, if first < second then second else first)
  {
    var top := if first < second then second else first;
    var l := Live(t, first);
    forall i | i in t ensures Dead(t, top, i) <==> Dead(t, first, i) || Dead(l, second, i) {
      assert i in l <==> !Dead(t, first, i);
      if Dead(t, top, i) && i in l && !t[i].deleted {
        // a row up to the target that supersedes i is still there
        var j :| j in t && t[j].name == t[i].name && i < j <= top;
        assert j in l <==> !Dead(t, first, j);
      }
    }
    assert forall i :: i in Live(l, second) <==> i in l && !Dead(l, second, i);
  }

  /** The compact-revision row is no link, so moving it changes nothing a compaction deletes. */
  lemma SetRevKeepsVictims(t: Table, rev: nat, target: nat, i: nat)
    requires i in t
    ensures SqlVictim(SetCompactRev(t, rev), target, i) <==> SqlVictim(t, target, i)
  {
    var s := SetCompactRev(t, rev);
    if SqlVictim(t, target, i) && !(t[i].deleted && i <= target) {
      var j :| j in t && t[j].name != COMPACT_REV_KEY && t[j].prevRev != 0 && t[j].prevRev == i && j <= target;
      assert s[j] == t[j];
    }
  }

  lemma SetRevCommutes(t: Table, rev: nat, target: nat)
    ensures CompactSql(SetCompactRev(t, rev), target) == SetCompactRev(CompactSql(t, target), rev)
  {
    var a, b := CompactSql(SetCompactRev(t, rev), target), SetCompactRev(CompactSql(t, target), rev);
    forall i ensures i in a <==> i in b {
      if i in t { SetRevKeepsVictims(t, rev, target, i); }
    }
  }

  lemma SetRevTwice(t: Table, a: nat, b: nat)
    ensures SetCompactRev(SetCompactRev(t, a), b) == SetCompactRev(t, b)
  {
  }

  function RunBatches(t: Table, targets: seq<nat>): Table {
    if targets == [] then t else RunBatches(CompactTo(t, targets[0]), targets[1..])
  }

  /** The batch loops' shape: any rising sequence of batches is one compaction to the last target. */
  lemma {:induction false} BatchesAreOne(t: Table, targets: seq<nat>)
    requires Chain(t) && targets != []
    requires forall a, b :: 0 <= a < b < |targets| ==> targets[a] <= targets[b]
    ensures RunBatches(t, targets) == CompactTo(t, targets[|targets| - 1])
  {
    if |targets| == 1 {
      assert targets[1..] == [];
    } else {
      var rest := targets[1..];
      CompactKeepsChain(t, targets[0]);
      BatchesAreOne(CompactTo(t, targets[0]), rest);
      TwoBatches(t, targets[0], rest[|rest| - 1]);
    }
  }

  lemma TwoBatches(t: Table, first: nat, second: nat)
    requires Chain(t) && first <= second
    ensures CompactTo(CompactTo(t, first), second) == CompactTo(t, second)
  {
    var l := Live(t, first);
    calc {
      CompactTo(CompactTo(t, first), second);
      { SqlIsLive(t, first); }
      SetCompactRev(CompactSql(SetCompactRev(l, first), second), second);
      { SetRevCommutes(l, first, second); }
      SetCompactRev(SetCompactRev(CompactSql(l, second), first), second);
      { SetRevTwice(CompactSql(l, second), first, second); }
      SetCompactRev(CompactSql(l, second), second);
      { LiveKeepsChain(t, first); SqlIsLive(l, second); LiveTwice(t, first, second); SqlIsLive(t, second); }
      CompactTo(t, second);
    }
  }

  lemma LiveKeepsChain(t: Table, target: nat)
    requires Chain(t)
    ensures Chain(Live(t, target))
  {
    var l := Live(t, target);
    forall j | j in l && l[j].name != COMPACT_REV_KEY ensures Link(l, j) {
      LivePred(t, target, j);
      assert Link(t, j);
    }
  }

  // ------------------------------------------------------- rows come, and the revision moves

  lemma AppendDead(full: Table, floor: nat, id: nat, row: Row, i: nat)
    requires floor < id && id !in full && i in full
    ensures Dead(full[id := row], floor, i) <==> Dead(full, floor, i)
  {
    var f := full[id := row];
    assert f[i] == full[i];
    if Dead(full, floor, i) && !full[i].deleted {
      var j :| j in full && full[j].name == full[i].name && i < j <= floor;
      assert f[j] == full[j];
    }
  }

  lemma AppendLive(full: Table, floor: nat, id: nat, row: Row)
    requires floor < id && id !in full
    ensures Live(full[id := row], floor) == Live(full, floor)[id := row]
  {
    var a, b := Live(full[id := row], floor), Live(full, floor)[id := row];
    forall i ensures i in a <==> i in b {
      if i in full { AppendDead(full, floor, id, row, i); }
    }
  }

  lemma SetRevLive(full: Table, rev: nat, floor: nat)
    ensures Live(SetCompactRev(full, rev), floor) == SetCompactRev(Live(full, floor), rev)
  {
    var f := SetCompactRev(full, rev);
    forall i | i in full ensures Dead(f, floor, i) <==> Dead(full, floor, i) {
      if Dead(full, floor, i) && !full[i].deleted {
        var j :| j in full && full[j].name == full[i].name && i < j <= floor;
        assert f[j].name == f[i].name;
      }
    }
  }
}

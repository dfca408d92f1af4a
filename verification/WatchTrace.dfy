/** Runs from the start in which an accepted watch misses a row: one that commits late, and row 1. */
module WatchTrace {
  import opened Names
  import opened KineTable
  import opened Poller
  import opened Watching
  import PollerExact
  import opened PollerTrace

  lemma InAToC()
    ensures InRange("a", "a", "c") && InRange("b", "a", "c") && !InRange(COMPACT_REV_KEY, "a", "c") && WellFormed("a", "c")
    ensures forall name :: IsFill(name) ==> !InRange(name, "a", "c")
  {
    assert forall name :: IsFill(name) ==> name[0] == 'g';
  }

  /** The list of the late row's watch: row 3 alone, under head 3. */
  lemma LateList()
    ensures Listed(T2, "a", "c", 2) != [] && MaxId(T2) == 3
  {
    InAToC();
    AfterExact(T2, "a", "c", 1);
    assert AfterMatch("a", "a", "c");
    assert Versioned(3, FAST) in After(T2, "a", "c", 1, 0);
    assert 3 in T2 && MaxId(T2) == 3;
  }

  /**
    Two inserts hold ids 2 and 3, and 3 commits first. A watch from revision 2 subscribes and lists row 3
    under head 3; then row 2 commits. However the run goes on, the watch never sends row 2.
   */
  lemma LateRowIsMissed(more: seq<Action>)
    requires AllowedRun(BEFORE, [Commit(0)] + more)
    requires ClientRange(T2, Run(BEFORE, [Commit(0)] + more).full, "a", "c")
    ensures OneRun(START, INSERTS, [], [Commit(0)] + more)
    ensures var s3 := Run(BEFORE, [Commit(0)] + more);
            var top := Top(T2, "a", "c", 2, SentRev(s3));
            && Run(START, INSERTS) == BEFORE && 2 in s3.full && s3.full[2] == SLOW
            && Missed(T2, s3.full, "a", "c", 2, SentRev(BEFORE), top, 2)
            && Sends(T2, "a", "c", 2, Handed(BEFORE, s3)) != Owed(s3.full, "a", "c", 2, top)
  {
    hide Run, AllowedRun, Init, Inv, Listed, Sends;
    StartIsInit();
    InsertsRun();
    PollerExact.RunConcat(BEFORE, [], []);
    assert Run(BEFORE, []) == BEFORE && AllowedRun(BEFORE, []) by { Nothing(BEFORE); }
    LateRowStays(more);
    LateList();
    InAToC();
    WatchIsExact(START, INSERTS, [], [Commit(0)] + more, "a", "c", 2);
  }

  lemma LateRowStays(more: seq<Action>)
    requires AllowedRun(BEFORE, [Commit(0)] + more)
    ensures var s3 := Run(BEFORE, [Commit(0)] + more); 2 in s3.full && s3.full[2] == SLOW
  {
    var d := Apply(BEFORE, Commit(0));
    assert d.full[2] == SLOW by { assert !Conflict(T2, "b", 0); }
    assert !IsFill("b");
    hide Run, AllowedRun, Init, Inv;
    StartIsInit();
    InsertsRun();
    InitInv(START);
    RunKeeps(START, INSERTS);
    PollerExact.Then(BEFORE, Commit(0), more);
    StepKeeps(BEFORE, Commit(0));
    CachesMoveForward(d, more);
    hide Apply;
    assert KeptRow(d.full[2], Run(d, more).full[2], 2, d.pollStart, HeldRev(d));
  }

  const ROW_ONE: Table := map[1 := FAST, 2 := CRK]
  const STARTED := START.(t := ROW_ONE, full := ROW_ONE, nextId := 3, pollStart := 2, pollRev := 2)

  lemma RowOneInit()
    ensures Init(STARTED)
  {
    assert 2 in ROW_ONE && MaxId(ROW_ONE) == 2;
    assert CompactRev(ROW_ONE) == 0;
    assert NoCrkLink(ROW_ONE, ROW_ONE[1]);
    assert !IsFill("a");
  }

  /** A table whose row 1 is a client's: a watch from revision 1 does not send it. */
  lemma RowOneIsMissed()
    ensures OneRun(STARTED, [], [], [])
    ensures var top := Top(ROW_ONE, "a", "c", 1, SentRev(STARTED));
            && Missed(ROW_ONE, ROW_ONE, "a", "c", 1, SentRev(STARTED), top, 1)
            && Sends(ROW_ONE, "a", "c", 1, Handed(STARTED, STARTED)) != Owed(ROW_ONE, "a", "c", 1, top)
  {
    hide Init, Inv, Listed, Sends;
    RowOneInit();
    assert Run(STARTED, []) == STARTED && AllowedRun(STARTED, []) by { Nothing(STARTED); }
    InAToC();
    assert !IsFill("a");
    WatchIsExact(STARTED, [], [], [], "a", "c", 1);
  }
}

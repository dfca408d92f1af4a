/**
  The quota around the backend's writes, and one sample, as they run: between any two of their atomic
  steps everybody else may take any number of steps of the ledger.
 */
module QuotaWrites {
  import opened Options
  import opened QuotaLedger
  import QuotaCharge

  const CONTROL_MAX_VALUE: nat := 4096

  const CONTROL_PREFIXES := ["/registry/leases/", "/registry/masterleases/", "compact_rev_key_apiserver"]

  predicate IsControlKey(key: string) {
    exists i :: 0 <= i < |CONTROL_PREFIXES| && CONTROL_PREFIXES[i] <= key
  }

  predicate InControlLane(key: string, value: string) {
    IsControlKey(key) && |value| <= CONTROL_MAX_VALUE
  }

  predicate StartsWith(s: string, prefix: string) {
    |prefix| <= |s| && s[..|prefix|] == prefix
  }

  /** The control lane is for leases, master leases and the compaction key of the API server, up to 4 KiB. */
  lemma ControlLaneIs(key: string, value: string)
    ensures InControlLane(key, value) <==>
              && |value| <= 4096
              && (StartsWith(key, "/registry/leases/") || StartsWith(key, "/registry/masterleases/")
                  || StartsWith(key, "compact_rev_key_apiserver"))
  {
    var p := CONTROL_PREFIXES;
    assert p[0] == "/registry/leases/" && p[1] == "/registry/masterleases/" && p[2] == "compact_rev_key_apiserver";
    if StartsWith(key, "/registry/leases/") { assert p[0] <= key; }
    if StartsWith(key, "/registry/masterleases/") { assert p[1] <= key; }
    if StartsWith(key, "compact_rev_key_apiserver") { assert p[2] <= key; }
  }

  /** How the write underneath ends. Only KeyExists and Lost prove that nothing was written. */
  datatype Outcome = Written | KeyExists | Lost | Error

  /** The read of an update while full: it failed, there is no such key, or this value at this revision. */
  datatype Current = ReadFailed | NoKey | Found(value: string, revision: nat)

  datatype Reason = CreateRefused | ReadError | Growth | CeilingReached | Rate

  /** Refused with no space, or passed on to the backend with a reservation, or with none. */
  datatype Verdict = NoSpace(reason: Reason) | Reserved(cost: nat, lane: Lane) | Free

  predicate Foreign(actions: seq<Action>, mine: nat) {
    forall a :: a in actions ==> !IsPut(a) || a.p != mine
  }

  predicate PutsOnly(actions: seq<Action>) {
    forall a :: a in actions ==> IsPut(a)
  }

  ghost predicate Elsewhere(limit: nat, s: State, e: State, mine: nat) {
    exists actions :: Foreign(actions, mine) && e == Run(limit, s, actions)
  }

  ghost predicate PutsElsewhere(limit: nat, s: State, e: State) {
    exists actions :: PutsOnly(actions) && e == Run(limit, s, actions)
  }

  /** What everybody else does leaves a put where it is, and keeps the ledger. */
  lemma {:induction false} ForeignKeepsMine(limit: nat, s: State, actions: seq<Action>, mine: nat)
    requires Inv(s) && Foreign(actions, mine) && mine in s.puts
    ensures var e := Run(limit, s, actions); Inv(e) && mine in e.puts && e.puts[mine] == s.puts[mine]
    decreases |actions|
  {
    RunKeeps(limit, s, actions);
    if actions != [] {
      assert actions[0] in actions;
      assert Foreign(actions[1..], mine) by { assert forall a :: a in actions[1..] ==> a in actions; }
      RunKeeps(limit, s, [actions[0]]);
      assert Run(limit, s, [actions[0]]) == Apply(limit, s, actions[0]) by { assert [actions[0]][1..] == []; }
      ForeignKeepsMine(limit, Apply(limit, s, actions[0]), actions[1..], mine);
    }
  }

  /** Puts leave the sampler's side of the ledger alone, and committed only grows. */
  lemma {:induction false} PutsKeepSampler(limit: nat, s: State, actions: seq<Action>)
    requires PutsOnly(actions)
    ensures var e := Run(limit, s, actions);
            && e.live == s.live && e.base == s.base && e.mark0 == s.mark0 && e.mark1 == s.mark1
            && e.sampler == s.sampler && e.history == s.history && s.committed <= e.committed
    decreases |actions|
  {
    if actions != [] {
      assert actions[0] in actions;
      assert PutsOnly(actions[1..]) by { assert forall a :: a in actions[1..] ==> a in actions; }
      PutsKeepSampler(limit, Apply(limit, s, actions[0]), actions[1..]);
    }
  }

  /** Some steps of the ledger lead from a to b. */
  ghost predicate Reaches(limit: nat, a: State, b: State) {
    exists actions :: b == Run(limit, a, actions)
  }

  lemma ReachesStep(limit: nat, s: State, a: Action)
    ensures Reaches(limit, s, Apply(limit, s, a))
  {
    assert [a][1..] == [] && Run(limit, s, [a]) == Run(limit, Apply(limit, s, a), []);
  }

  lemma ReachesOn(limit: nat, a: State, b: State, c: State)
    requires Reaches(limit, a, b) && Reaches(limit, b, c)
    ensures Reaches(limit, a, c)
  {
    var x :| b == Run(limit, a, x);
    var y :| c == Run(limit, b, y);
    RunConcat(limit, a, x, y);
  }

  lemma ReachesItself(limit: nat, s: State)
    ensures Reaches(limit, s, s)
  {
    assert s == Run(limit, s, []);
  }

  /** The put adds its cost in this state, with the figure it has loaded, and is admitted or refused there. */
  predicate Decides(limit: nat, mid: State, p: nat, cost: nat, lane: Lane, admits: bool) {
    && p in mid.puts && mid.puts[p].HasLive? && mid.puts[p].cost == cost && mid.puts[p].lane == lane
    && var put := mid.puts[p]; Fits(limit, lane, put.live + mid.written + cost - put.base, cost) == admits
  }

  /** What the ledger promises about an admission. */
  ghost predicate AdmittedAt(limit: nat, mid: State, p: nat, cost: nat, lane: Lane) {
    && Inv(mid) && Decides(limit, mid, p, cost, lane, true)
    && match lane
       case Below => KeptFigure(mid) < limit + Short(mid, mid.puts[p])
       case Within(cap) => KeptFigure(mid) + cost <= cap + Short(mid, mid.puts[p])
  }

  /** It was refused below the limit before any lane was tried. */
  ghost predicate RefusedBelow(limit: nat, start: State, below: State, p: nat, cost: nat) {
    Reaches(limit, start, below) && Decides(limit, below, p, cost, Below, false)
  }

  /** The states a call goes through: the add below the limit, the add that admits it, and its last step. */
  datatype Moments = Moments(below: State, mid: State, last: State)

  /** A call that was admitted: its moments follow one another, and the last step commits or gives back. */
  ghost predicate Passed(limit: nat, start: State, at: Moments, p: nat, cost: nat, lane: Lane, wrote: bool, end: State) {
    && Reaches(limit, start, at.mid) && AdmittedAt(limit, at.mid, p, cost, lane)
    && Reaches(limit, Apply(limit, at.mid, Action.Reserve(p)), at.last)
    && p in at.last.puts && at.last.puts[p] == Admitted(cost, lane)
    && end == Apply(limit, at.last, if wrote then Commit(p) else GiveBack(p))
  }

  class QuotaBackend {
    var s: State
    const limit: nat

    constructor (limit: nat, s: State)
      requires Init(s)
      ensures this.limit == limit && this.s == s && Inv(s)
    {
      this.limit, this.s := limit, s;
      new;
      assert Sum(s.puts, Held) == 0;
    }

    /** Steps of other puts and of the sampler; a put knows nothing else about them. */
    method Interfere(mine: nat)
      requires Inv(s) && mine in s.puts
      modifies this
      ensures Elsewhere(limit, old(s), s, mine) && Reaches(limit, old(s), s)
      ensures Inv(s) && mine in s.puts && s.puts[mine] == old(s.puts[mine])
    {
      assert Foreign([], mine) && Run(limit, s, []) == s;
    }

    /** Steps of puts while the sampler runs. */
    method InterferePuts()
      requires Inv(s)
      modifies this
      ensures PutsElsewhere(limit, old(s), s) && Inv(s)
      ensures s.live == old(s).live && s.base == old(s).base && s.mark0 == old(s).mark0 && s.mark1 == old(s).mark1
      ensures s.sampler == old(s).sampler && s.history == old(s).history && old(s).committed <= s.committed
    {
      assert PutsOnly([]) && Run(limit, s, []) == s;
    }

    method Step(a: Action)
      requires Inv(s)
      modifies this
      ensures s == Apply(limit, old(s), a) && Inv(s) && Reaches(limit, old(s), s)
    {
      if IsPut(a) { PutsKeep(limit, s, a); } else { SamplerKeeps(s, a); }
      ReachesStep(limit, s, a);
      s := Apply(limit, s, a);
    }

    /** The loads of figure: the base before the live sample. */
    method LoadFigure(p: nat, cost: nat, lane: Lane)
      requires Inv(s) && p !in s.puts
      modifies this
      ensures Inv(s) && p in s.puts && s.puts[p].HasLive? && s.puts[p].cost == cost && s.puts[p].lane == lane
      ensures Reaches(limit, old(s), s)
    {
      LoadBaseFirst(p, cost, lane);
      ghost var s1 := s;
      Step(LoadLive(p));
      ReachesOn(limit, old(s), s1, s);
      ghost var s2 := s;
      Interfere(p);
      ReachesOn(limit, old(s), s2, s);
    }

    method LoadBaseFirst(p: nat, cost: nat, lane: Lane)
      requires Inv(s) && p !in s.puts
      modifies this
      ensures Inv(s) && p in s.puts && s.puts[p].HasBase? && s.puts[p].cost == cost && s.puts[p].lane == lane
      ensures Reaches(limit, old(s), s)
    {
      Step(Start(p, cost, lane));
      ghost var s1 := s;
      Step(LoadBase(p));
      ReachesOn(limit, old(s), s1, s);
      ghost var s2 := s;
      Interfere(p);
      ReachesOn(limit, old(s), s2, s);
    }

    /** The add of figure, and the comparison. */
    method AddAndCompare(p: nat) returns (ok: bool)
      requires Inv(s) && p in s.puts && s.puts[p].HasLive?
      modifies this
      ensures Inv(s) && s == Apply(limit, old(s), Action.Reserve(p)) && p in s.puts
      ensures var put := old(s).puts[p];
              && s.puts[p] == (if ok then Admitted(put.cost, put.lane) else Refused(put.cost))
              && Decides(limit, old(s), p, put.cost, put.lane, ok)
              && (ok ==> AdmittedAt(limit, old(s), p, put.cost, put.lane))
    {
      ghost var mid := s;
      Step(Action.Reserve(p));
      ok := s.puts[p].Admitted?;
      if ok { AdmittedWithinLane(limit, mid, p); }
    }

    /**
      reserveBelow and reserveWithin: reserve, compare, and give back when it does not fit. mid is the state
      of the add: a state the ledger reaches from here, in which the put holds the figure it compares.
     */
    method Reserve(p: nat, cost: nat, lane: Lane) returns (ok: bool, ghost mid: State)
      requires Inv(s) && p !in s.puts
      modifies this
      ensures Inv(s) && Reaches(limit, old(s), mid) && Decides(limit, mid, p, cost, lane, ok)
      ensures ok ==> s == Apply(limit, mid, Action.Reserve(p)) && AdmittedAt(limit, mid, p, cost, lane)
                     && p in s.puts && s.puts[p] == Admitted(cost, lane)
      ensures !ok ==> p !in s.puts && Reaches(limit, Apply(limit, mid, Action.Reserve(p)), s)
      ensures Reaches(limit, old(s), s)
    {
      LoadFigure(p, cost, lane);
      mid := s;
      ok := AddAndCompare(p);
      ReachesStep(limit, mid, Action.Reserve(p));
      ghost var added := s;
      ReachesOn(limit, old(s), mid, added);
      if !ok {
        Interfere(p);
        ghost var before := s;
        Step(GiveBack(p));
        ReachesOn(limit, added, before, s);
        ReachesOn(limit, old(s), added, s);
      }
    }

    /** settle: a write that happened, or may have, commits its cost; any other gives it back. */
    method Settle(p: nat, wrote: bool)
      requires Inv(s) && p in s.puts && s.puts[p].Admitted?
      modifies this
      ensures Inv(s) && p !in s.puts
      ensures wrote ==> s.committed == old(s).committed + old(s).puts[p].cost && s.written == old(s).written
      ensures !wrote ==> s.committed == old(s).committed && s.written == old(s).written - old(s).puts[p].cost
      ensures s == Apply(limit, old(s), if wrote then Commit(p) else GiveBack(p))
    {
      Step(if wrote then Commit(p) else GiveBack(p));
    }

    /** The end of an admitted call: everybody else, and then its own last step. */
    method Finish(p: nat, wrote: bool) returns (ghost last: State)
      requires Inv(s) && p in s.puts && s.puts[p].Admitted?
      modifies this
      ensures Inv(s) && p !in s.puts && Reaches(limit, old(s), last)
      ensures p in last.puts && last.puts[p] == old(s).puts[p]
      ensures s == Apply(limit, last, if wrote then Commit(p) else GiveBack(p))
    {
      Interfere(p);
      last := s;
      Settle(p, wrote);
    }

    /** quotaBackend.Create. committed is what the ledger keeps of it. */
    method Create(p: nat, key: string, value: string, bucket: bool, outcome: Outcome)
      returns (verdict: Verdict, committed: nat, ghost at: Moments)
      requires Inv(s) && p !in s.puts
      modifies this
      ensures Inv(s) && p !in s.puts && verdict != Free
      ensures verdict.Reserved? ==>
                && verdict.cost == QuotaCharge.CreateCharge(|key|, |value|)
                && Passed(limit, old(s), at, p, verdict.cost, verdict.lane, outcome != KeyExists, s)
                && (verdict.lane == Below || (verdict.lane == Within(CreateCap(limit)) && InControlLane(key, value) && bucket))
      ensures verdict.NoSpace? ==> (verdict.reason == CreateRefused <==> !InControlLane(key, value))
      ensures verdict.NoSpace? && verdict.reason == CeilingReached ==>
                Decides(limit, at.mid, p, |key| + |value|, Within(CreateCap(limit)), false)
      ensures verdict == NoSpace(Rate) ==>
                !bucket && Passed(limit, old(s), at, p, |key| + |value|, Within(CreateCap(limit)), false, s)
      ensures verdict.NoSpace? || verdict.lane != Below ==> RefusedBelow(limit, old(s), at.below, p, |key| + |value|)
      ensures committed == if verdict.Reserved? && outcome != KeyExists then verdict.cost else 0
    {
      var cost := |key| + |value|;
      committed := 0;
      ghost var below, mid, last;
      var ok;
      ok, below := Reserve(p, cost, Below);
      mid := below;
      var lane := Below;
      if !ok {
        var reason;
        ghost var start := s;
        reason, mid, last := AdmitControlCreate(p, key, value, cost, bucket);
        ReachesOn(limit, old(s), start, mid);
        if reason.Some? {
          return NoSpace(reason.value), 0, Moments(below, mid, last);
        }
        lane := Within(CreateCap(limit));
      }
      last := Finish(p, outcome != KeyExists);
      verdict, committed, at := Reserved(cost, lane), if outcome != KeyExists then cost else 0, Moments(below, mid, last);
    }

    method AdmitControlCreate(p: nat, key: string, value: string, cost: nat, bucket: bool)
      returns (reason: Option<Reason>, ghost mid: State, ghost last: State)
      requires Inv(s) && p !in s.puts
      modifies this
      ensures Inv(s) && Reaches(limit, old(s), mid)
      ensures reason == None ==>
                && s == Apply(limit, mid, Action.Reserve(p)) && AdmittedAt(limit, mid, p, cost, Within(CreateCap(limit)))
                && p in s.puts && s.puts[p] == Admitted(cost, Within(CreateCap(limit)))
                && InControlLane(key, value) && bucket
      ensures reason.Some? ==> p !in s.puts && (reason.value == CreateRefused <==> !InControlLane(key, value))
      ensures reason == Some(CeilingReached) ==> Decides(limit, mid, p, cost, Within(CreateCap(limit)), false)
      ensures reason == Some(Rate) ==>
                !bucket && Passed(limit, old(s), Moments(mid, mid, last), p, cost, Within(CreateCap(limit)), false, s)
    {
      mid, last := s, s;
      ReachesItself(limit, s);
      if !IsControlKey(key) || |value| > CONTROL_MAX_VALUE {
        return Some(CreateRefused), mid, last;
      }
      var ok;
      ok, mid := Reserve(p, cost, Within(CreateCap(limit)));
      if !ok {
        return Some(CeilingReached), mid, last;
      }
      if !bucket {
        last := Finish(p, false);
        return Some(Rate), mid, last;
      }
      reason := None;
    }

    /** quotaBackend.Update. current is what the read of an update while full finds. */
    method Update(p: nat, key: string, value: string, revision: nat, current: Current, bucket: bool, outcome: Outcome)
      returns (verdict: Verdict, committed: nat, ghost at: Moments)
      requires Inv(s) && p !in s.puts
      modifies this
      ensures Inv(s) && p !in s.puts
      ensures verdict.Reserved? ==>
                && Passed(limit, old(s), at, p, verdict.cost, verdict.lane, outcome != Lost, s)
                && if verdict.lane == Below then verdict.cost == QuotaCharge.BelowCharge(|key|, |value|)
                   else FullUpdate(limit, key, value, revision, current, verdict.cost, verdict.lane) && bucket
      ensures verdict == Free ==> CannotWrite(current, revision)
      ensures verdict.NoSpace? ==> !CannotWrite(current, revision)
      ensures verdict == NoSpace(Rate) ==>
                !bucket && exists cost, lane :: FullUpdate(limit, key, value, revision, current, cost, lane)
                                                && Passed(limit, old(s), at, p, cost, lane, false, s)
      ensures !(verdict.Reserved? && verdict.lane == Below) ==> RefusedBelow(limit, old(s), at.below, p, |key| + 2 * |value|)
      ensures committed == if verdict.Reserved? && outcome != Lost then verdict.cost else 0
    {
      var cost := |key| + 2 * |value|;
      ghost var below, mid, last := s, s, s;
      var ok;
      ok, below := Reserve(p, cost, Below);
      mid := below;
      verdict := Reserved(cost, Below);
      if !ok {
        ghost var start := s;
        verdict, mid, last := AdmitUpdate(p, key, value, revision, current, bucket);
        ReachesOn(limit, old(s), start, mid);
      }
      committed := 0;
      if verdict.Reserved? {
        last := Finish(p, outcome != Lost);
        committed := if outcome != Lost then verdict.cost else 0;
      }
      at := Moments(below, mid, last);
    }

    method AdmitUpdate(p: nat, key: string, value: string, revision: nat, current: Current, bucket: bool)
      returns (verdict: Verdict, ghost mid: State, ghost last: State)
      requires Inv(s) && p !in s.puts
      modifies this
      ensures Inv(s) && Reaches(limit, old(s), mid)
      ensures verdict.Reserved? ==>
                && s == Apply(limit, mid, Action.Reserve(p)) && AdmittedAt(limit, mid, p, verdict.cost, verdict.lane)
                && p in s.puts && s.puts[p] == Admitted(verdict.cost, verdict.lane) && verdict.lane != Below
                && FullUpdate(limit, key, value, revision, current, verdict.cost, verdict.lane) && bucket
      ensures !verdict.Reserved? ==> p !in s.puts
      ensures verdict == Free <==> CannotWrite(current, revision)
      ensures verdict == NoSpace(ReadError) <==> current == ReadFailed
      ensures verdict == NoSpace(Growth) <==>
                current.Found? && current.revision == revision && |value| > |current.value| + QuotaCharge.GROWTH_SLACK
      ensures verdict == NoSpace(CeilingReached) ==>
                exists cost, lane :: FullUpdate(limit, key, value, revision, current, cost, lane) && Decides(limit, mid, p, cost, lane, false)
      ensures verdict == NoSpace(Rate) ==>
                !bucket && exists cost, lane :: FullUpdate(limit, key, value, revision, current, cost, lane)
                                                && Passed(limit, old(s), Moments(mid, mid, last), p, cost, lane, false, s)
      ensures verdict != NoSpace(CreateRefused)
    {
      mid, last := s, s;
      ReachesItself(limit, s);
      if current == ReadFailed {
        return NoSpace(ReadError), mid, last;
      }
      if current == NoKey || current.revision != revision {
        return Free, mid, last;
      }
      if |value| - |current.value| > QuotaCharge.GROWTH_SLACK {
        return NoSpace(Growth), mid, last;
      }
      var cost := |key| + |value| + |current.value|;
      var control := IsControlKey(key) && |value| <= CONTROL_MAX_VALUE;
      var lane := Within(if control then Ceiling(limit) else CleanupCap(limit));
      var ok;
      ok, mid := Reserve(p, cost, lane);
      if !ok {
        assert FullUpdate(limit, key, value, revision, current, cost, lane);
        return NoSpace(CeilingReached), mid, last;
      }
      if !bucket {
        last := Finish(p, false);
        assert FullUpdate(limit, key, value, revision, current, cost, lane);
        return NoSpace(Rate), mid, last;
      }
      verdict := Reserved(cost, lane);
    }

    /** sample. size is None when the query fails. */
    method Sample(advance: bool, size: Option<int>) returns (good: bool)
      requires Inv(s) && s.sampler == Idle
      modifies this
      ensures Inv(s) && s.sampler == Idle && good == size.Some?
      ensures !good ==> s.live == old(s).live && s.base == old(s).base && s.history == old(s).history
      ensures good ==> s.live == size.value
      ensures good && advance ==> s.base == old(s).mark0 && s.mark0 == old(s).mark1 && s.mark1 == old(s).committed
      ensures !advance ==> s.base == old(s).base && s.mark0 == old(s).mark0 && s.mark1 == old(s).mark1
    {
      Step(SampleStart(advance));
      InterferePuts();
      good := size.Some?;
      if !good {
        Step(SampleFails);
        return;
      }
      Land(size.value);
    }

    /** A step of the sampler moves its own side of the ledger only. */
    method SamplerStep(a: Action)
      requires Inv(s) && !IsPut(a)
      modifies this
      ensures s == ApplySampler(old(s), a) && Inv(s)
    {
      SamplerKeeps(s, a);
      s := ApplySampler(s, a);
    }

    /** The stores of a good sample: the live figure before the base. */
    method Land(size: int)
      requires Inv(s) && s.sampler.Marked?
      modifies this
      ensures Inv(s) && s.sampler == Idle && s.live == size
      ensures if old(s).sampler.advance
              then s.base == old(s).mark0 && s.mark0 == old(s).mark1 && s.mark1 == old(s).sampler.mark
              else s.base == old(s).base && s.mark0 == old(s).mark0 && s.mark1 == old(s).mark1
    {
      SamplerStep(StoreLive(size));
      InterferePuts();
      MoveAndObserve();
    }

    method MoveAndObserve()
      requires Inv(s) && s.sampler.Stored?
      modifies this
      ensures Inv(s) && s.sampler == Idle && s.live == old(s).sampler.size
      ensures if old(s).sampler.advance
              then s.base == old(s).mark0 && s.mark0 == old(s).mark1 && s.mark1 == old(s).sampler.mark
              else s.base == old(s).base && s.mark0 == old(s).mark0 && s.mark1 == old(s).mark1
    {
      SamplerStep(MoveBase);
      InterferePuts();
      SamplerStep(Observe);
    }
  }

  /** The update cannot write: there is no such key, or it has another revision. */
  predicate CannotWrite(current: Current, revision: nat) {
    current == NoKey || (current.Found? && current.revision != revision)
  }

  /** An update that passes while full: charged to the byte, of a value that hardly grows, in its own lane. */
  predicate FullUpdate(limit: nat, key: string, value: string, revision: nat, current: Current, cost: nat, lane: Lane) {
    && current.Found? && current.revision == revision
    && |value| <= |current.value| + QuotaCharge.GROWTH_SLACK
    && cost == QuotaCharge.FullCharge(|key|, |value|, |current.value|)
    && lane == Within(if InControlLane(key, value) then Ceiling(limit) else CleanupCap(limit))
  }
}

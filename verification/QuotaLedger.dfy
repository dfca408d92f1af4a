/**
  The quota's byte ledger: four atomic counters that writers and the sampler share with no lock. Every
  load, store and add is a step of its own.
 */
module QuotaLedger {

  const CEILING_MARGIN: nat := 0x400_0000
  const CREATE_MARGIN: nat := 0x100_0000
  const CONTROL_RESERVE: nat := 0x200_0000

  function Ceiling(limit: nat): nat {
    2 * limit + CEILING_MARGIN
  }

  function CreateCap(limit: nat): nat {
    limit + CREATE_MARGIN
  }

  function CleanupCap(limit: nat): nat {
    Ceiling(limit) - CONTROL_RESERVE
  }

  /** How a put is admitted: while the figure without it is below the limit, or while the figure with it is within a cap. */
  datatype Lane = Below | Within(cap: nat)

  /**
    Where a put stands. Between two loads of the figure anything may happen. sampled is the base that
    belongs to the sample whose live figure was loaded; it exists for the specification only.
   */
  datatype Put =
    | Started(cost: nat, lane: Lane)
    | HasBase(cost: nat, lane: Lane, base: int)
    | HasLive(cost: nat, lane: Lane, base: int, live: int, sampled: int)
    | Admitted(cost: nat, lane: Lane)
    | Refused(cost: nat)
    | Marker(cost: nat)

  /** Where the sampler stands: committed loaded, live stored, base moved. */
  datatype Sampler =
    | Idle
    | Marked(mark: int, advance: bool)
    | Stored(mark: int, advance: bool, size: int)
    | Moved(size: int)

  /** history holds committed at the start of every good sample; sampled is the base the stored live figure belongs to. */
  datatype State = State(live: int, written: int, committed: int, base: int, mark0: int, mark1: int,
                         sampler: Sampler, puts: map<nat, Put>, history: seq<int>, sampled: int)

  datatype Action =
    | Start(p: nat, cost: nat, lane: Lane)
    | LoadBase(p: nat)
    | LoadLive(p: nat)
    | Reserve(p: nat)
    | GiveBack(p: nat)
    | Commit(p: nat)
    | MarkHead(p: nat, cost: nat)
    | SampleStart(advance: bool)
    | SampleFails
    | StoreLive(size: int)
    | MoveBase
    | Observe

  // ------------------------------------------------------------------- the steps

  predicate Fits(limit: nat, lane: Lane, figure: int, cost: nat) {
    match lane
    case Below => figure - cost < limit
    case Within(cap) => figure <= cap
  }

  function With(s: State, p: nat, put: Put): State {
    s.(puts := s.puts[p := put])
  }

  function ApplyPut(limit: nat, s: State, a: Action): State {
    match a
    case Start(p, cost, lane) => if p in s.puts then s else With(s, p, Started(cost, lane))
    case LoadBase(p) =>
      if p in s.puts && s.puts[p].Started? then With(s, p, HasBase(s.puts[p].cost, s.puts[p].lane, s.base)) else s
    case LoadLive(p) =>
      if p in s.puts && s.puts[p].HasBase?
      then With(s, p, HasLive(s.puts[p].cost, s.puts[p].lane, s.puts[p].base, s.live, s.sampled)) else s
    case Reserve(p) =>
      if p in s.puts && s.puts[p].HasLive? then
        var HasLive(cost, lane, base, live, _) := s.puts[p];
        var written := s.written + cost;
        With(s, p, if Fits(limit, lane, live + written - base, cost) then Admitted(cost, lane) else Refused(cost)).(written := written)
      else s
    case GiveBack(p) =>
      if p in s.puts && (s.puts[p].Refused? || s.puts[p].Admitted?)
      then s.(written := s.written - s.puts[p].cost, puts := s.puts - {p}) else s
    case Commit(p) =>
      if p in s.puts && (s.puts[p].Marker? || s.puts[p].Admitted?)
      then s.(committed := s.committed + s.puts[p].cost, puts := s.puts - {p}) else s
    case MarkHead(p, cost) => if p in s.puts then s else With(s, p, Marker(cost)).(written := s.written + cost)
    case _ => s
  }

  function ApplySampler(s: State, a: Action): State {
    match (a, s.sampler)
    case (SampleStart(advance), Idle) => s.(sampler := Marked(s.committed, advance))
    case (SampleFails, Marked(_, _)) => s.(sampler := Idle)
    case (StoreLive(size), Marked(mark, advance)) =>
      s.(live := size, sampled := if advance then s.mark0 else s.base, sampler := Stored(mark, advance, size))
    case (MoveBase, Stored(mark, advance, size)) =>
      if advance then s.(base := s.mark0, mark0 := s.mark1, mark1 := mark, history := s.history + [mark], sampler := Moved(size))
      else s.(sampler := Moved(size))
    case (Observe, Moved(size)) => s.(live := size, sampler := Idle)
    case _ => s
  }

  predicate IsPut(a: Action) {
    a.Start? || a.LoadBase? || a.LoadLive? || a.Reserve? || a.GiveBack? || a.Commit? || a.MarkHead?
  }

  function Apply(limit: nat, s: State, a: Action): State {
    if IsPut(a) then ApplyPut(limit, s, a) else ApplySampler(s, a)
  }

  function Run(limit: nat, s: State, actions: seq<Action>): State
    decreases |actions|
  {
    if actions == [] then s else Run(limit, Apply(limit, s, actions[0]), actions[1..])
  }

  // -------------------------------------------------------------- the invariant

  /** What a put has added to written and neither committed nor given back. */
  function Held(put: Put): nat {
    if put.Admitted? || put.Refused? || put.Marker? then put.cost else 0
  }

  /** The part of it that is not about to be given back. */
  function Kept(put: Put): nat {
    if put.Admitted? || put.Marker? then put.cost else 0
  }

  ghost function Sum(puts: map<nat, Put>, f: Put -> nat): nat
    decreases |puts|
  {
    if puts == map[] then 0
    else
      var p :| p in puts;
      f(puts[p]) + Sum(puts - {p}, f)
  }

  lemma {:induction false} SumTake(puts: map<nat, Put>, f: Put -> nat, p: nat)
    requires p in puts
    ensures Sum(puts, f) == f(puts[p]) + Sum(puts - {p}, f)
    decreases |puts|
  {
    var q :| q in puts && Sum(puts, f) == f(puts[q]) + Sum(puts - {q}, f);
    if q != p {
      SumTake(puts - {q}, f, p);
      SumTake(puts - {p}, f, q);
      assert puts - {q} - {p} == puts - {p} - {q};
    }
  }

  lemma SumPut(puts: map<nat, Put>, f: Put -> nat, p: nat, put: Put)
    ensures Sum(puts[p := put], f) == f(put) + (if p in puts then Sum(puts, f) - f(puts[p]) else Sum(puts, f))
  {
    SumTake(puts[p := put], f, p);
    if p in puts {
      SumTake(puts, f, p);
      assert puts[p := put] - {p} == puts - {p};
    } else {
      assert puts[p := put] - {p} == puts;
    }
  }

  lemma {:induction false} KeptIsHeld(puts: map<nat, Put>)
    ensures Sum(puts, Kept) <= Sum(puts, Held)
    decreases |puts|
  {
    if puts != map[] {
      var p :| p in puts;
      SumTake(puts, Kept, p);
      SumTake(puts, Held, p);
      KeptIsHeld(puts - {p});
    }
  }

  /** A figure never mixes a new base with an old sample. */
  predicate PutOk(put: Put, base: int, sampled: int) {
    match put
    case HasBase(_, _, b) => b <= base
    case HasLive(_, _, b, _, sm) => b <= sm
    case _ => true
  }

  predicate Marks(s: State) {
    && |s.history| >= 3
    && s.base == s.history[|s.history| - 3] && s.mark0 == s.history[|s.history| - 2] && s.mark1 == s.history[|s.history| - 1]
    && (forall i, j :: 0 <= i < j < |s.history| ==> s.history[i] <= s.history[j])
    && s.mark1 <= s.committed
    && (match s.sampler
        case Marked(mark, _) => s.mark1 <= mark <= s.committed && s.sampled == s.base
        case Stored(mark, advance, size) =>
          s.mark1 <= mark <= s.committed && s.live == size && s.sampled == if advance then s.mark0 else s.base
        case Moved(size) => s.live == size && s.sampled == s.base
        case Idle => s.sampled == s.base)
  }

  ghost predicate Inv(s: State) {
    && s.written == s.committed + Sum(s.puts, Held)
    && Marks(s)
    && (forall p {:trigger PutOk(s.puts[p], s.base, s.sampled)} :: p in s.puts ==> PutOk(s.puts[p], s.base, s.sampled))
  }

  predicate Init(s: State) {
    s.written == s.committed == s.base == s.mark0 == s.mark1 == s.sampled == 0
    && s.sampler == Idle && s.puts == map[] && s.history == [0, 0, 0]
  }

  lemma PutsKeep(limit: nat, s: State, a: Action)
    requires Inv(s) && IsPut(a)
    ensures Inv(ApplyPut(limit, s, a))
  {
    var s' := ApplyPut(limit, s, a);
    if s' != s {
      if a.p in s'.puts { SumPut(s.puts, Held, a.p, s'.puts[a.p]); } else { SumTake(s.puts, Held, a.p); }
      forall p | p in s'.puts ensures PutOk(s'.puts[p], s'.base, s'.sampled) {
        if p in s.puts { assert PutOk(s.puts[p], s.base, s.sampled); }
      }
    }
  }

  lemma SamplerKeeps(s: State, a: Action)
    requires Inv(s) && !IsPut(a)
    ensures Inv(ApplySampler(s, a))
  {
    var s' := ApplySampler(s, a);
    forall p | p in s'.puts ensures PutOk(s'.puts[p], s'.base, s'.sampled) {
      assert PutOk(s.puts[p], s.base, s.sampled);
    }
  }

  lemma {:induction false} RunKeeps(limit: nat, s: State, actions: seq<Action>)
    requires Inv(s)
    ensures Inv(Run(limit, s, actions))
    decreases |actions|
  {
    if actions != [] {
      if IsPut(actions[0]) { PutsKeep(limit, s, actions[0]); } else { SamplerKeeps(s, actions[0]); }
      RunKeeps(limit, Apply(limit, s, actions[0]), actions[1..]);
    }
  }

  // ------------------------------------------------------------------ the ledger

  /**
    In every interleaving written is committed plus everything still outstanding; the base is committed
    as it was at the start of the good sample two samples back; nothing overtakes what follows it.
   */
  lemma LedgerBalances(limit: nat, s: State, actions: seq<Action>)
    requires Init(s)
    ensures var e := Run(limit, s, actions);
            && e.written == e.committed + Sum(e.puts, Held)
            && |e.history| >= 3 && e.base == e.history[|e.history| - 3]
            && e.base <= e.mark0 <= e.mark1 <= e.committed <= e.written
            && (!e.sampler.Stored? ==> e.sampled == e.base)
  {
    assert Sum(s.puts, Held) == 0;
    RunKeeps(limit, s, actions);
  }

  /**
    A torn read reads high. Whatever samples run between its loads, a put compares at least the live
    figure it loaded, plus everything written, less the base that belongs to that very sample: so all
    bytes committed since the mark that sample went with, and all outstanding ones, are in it.
   */
  lemma TornReadsReadHigh(limit: nat, s: State, actions: seq<Action>, p: nat)
    requires Init(s)
    requires var e := Run(limit, s, actions); p in e.puts && e.puts[p].HasLive?
    ensures var e := Run(limit, s, actions);
            var put := e.puts[p];
            var seen := put.live + (e.written + put.cost) - put.base;
            && seen >= put.live + (e.written + put.cost) - put.sampled
            && seen >= put.live + (e.committed - put.sampled) + Sum(e.puts, Held) + put.cost
            && (Apply(limit, e, Reserve(p)).puts[p].Admitted? <==> Fits(limit, put.lane, seen, put.cost))
  {
    assert Sum(s.puts, Held) == 0;
    RunKeeps(limit, s, actions);
    var e := Run(limit, s, actions);
    assert PutOk(e.puts[p], e.base, e.sampled);
  }

  // --------------------------------------------------------------- what is admitted

  function Figure(s: State): int {
    s.live + s.written - s.base
  }

  /** The figure without the reservations that were refused and not given back yet. */
  ghost function KeptFigure(s: State): int {
    s.live + s.committed + Sum(s.puts, Kept) - s.base
  }

  /** By how much the figure a put has loaded reads lower than the present one, because a sample came since. */
  function Short(s: State, put: Put): nat {
    if put.HasLive? && put.live - put.base < s.live - s.base then (s.live - s.base) - (put.live - put.base) else 0
  }

  /** No put reads lower than this. */
  predicate Low(s: State, d: nat) {
    forall p {:trigger s.puts[p]} :: p in s.puts ==> Short(s, s.puts[p]) <= d
  }

  predicate ReadsHigh(s: State) {
    Low(s, 0)
  }

  /** No good sample stores its figure. Its other steps may come, and failing samples too. */
  predicate NoStore(actions: seq<Action>) {
    forall a :: a in actions ==> !a.StoreLive?
  }

  lemma HeldCovers(s: State)
    requires Inv(s)
    ensures KeptFigure(s) <= Figure(s)
  {
    KeptIsHeld(s.puts);
  }

  /**
    At the moment a put is admitted, in any state of any run: the figure without it (refused reservations
    aside) is below the limit, or the figure with it is within its cap, by as much as the put reads low.
   */
  lemma AdmittedWithinLane(limit: nat, s: State, p: nat)
    requires Inv(s) && p in s.puts && s.puts[p].HasLive?
    requires Apply(limit, s, Reserve(p)).puts[p].Admitted?
    ensures KeptFigure(Apply(limit, s, Reserve(p))) == KeptFigure(s) + s.puts[p].cost
    ensures match s.puts[p].lane
            case Below => KeptFigure(s) < limit + Short(s, s.puts[p])
            case Within(cap) => KeptFigure(Apply(limit, s, Reserve(p))) <= cap + Short(s, s.puts[p])
  {
    HeldCovers(s);
    SumPut(s.puts, Kept, p, Apply(limit, s, Reserve(p)).puts[p]);
  }

  const MIB: nat := 0x10_0000

  /** Exactly when a put is admitted, by the figure it compares: the one with its own bytes in it. */
  lemma LanesEnd(limit: nat, s: State, p: nat)
    requires p in s.puts && s.puts[p].HasLive?
    ensures var put, admitted := s.puts[p], Apply(limit, s, Reserve(p)).puts[p].Admitted?;
            var seen := put.live + s.written + put.cost - put.base;
            && (put.lane == Below ==> (admitted <==> seen - put.cost < limit))
            && (put.lane == Within(CreateCap(limit)) ==> (admitted <==> seen <= limit + 16 * MIB))
            && (put.lane == Within(CleanupCap(limit)) ==> (admitted <==> seen <= 2 * limit + 32 * MIB))
            && (put.lane == Within(Ceiling(limit)) ==> (admitted <==> seen <= 2 * limit + 64 * MIB))
  {
  }

  /**
    Cleanup leaves room for control updates: right after any cleanup write that is admitted, one of up to 32 MiB
    that read the same figure still is.
   */
  lemma ControlHasRoom(limit: nat, s: State, p: nat, q: nat)
    requires p in s.puts && s.puts[p].HasLive? && s.puts[p].lane == Within(Ceiling(limit)) && s.puts[p].cost <= 32 * MIB
    requires q in s.puts && s.puts[q].HasLive? && s.puts[q].live - s.puts[q].base == s.puts[p].live - s.puts[p].base
    requires s.puts[q].lane == Within(CleanupCap(limit)) && Apply(limit, s, Reserve(q)).puts[q].Admitted?
    ensures Apply(limit, s, Reserve(p)).puts[p].Admitted?
    ensures var e := Apply(limit, s, Reserve(q)); p in e.puts && Apply(limit, e, Reserve(p)).puts[p].Admitted?
  {
    LanesEnd(limit, s, q);
    LanesEnd(limit, s, p);
    LanesEnd(limit, Apply(limit, s, Reserve(q)), p);
  }

  /** The largest figure a put may leave when it is admitted. */
  function Threshold(limit: nat, lane: Lane, cost: nat): int {
    match lane
    case Below => limit - 1 + cost
    case Within(cap) => cap
  }

  predicate Undecided(put: Put) {
    put.Started? || put.HasBase? || put.HasLive?
  }

  predicate PutsBelow(limit: nat, puts: map<nat, Put>, top: int) {
    forall p :: p in puts && Undecided(puts[p]) ==> Threshold(limit, puts[p].lane, puts[p].cost) <= top
  }

  predicate StartsBelow(limit: nat, actions: seq<Action>, top: int) {
    forall a :: a in actions && a.Start? ==> Threshold(limit, a.lane, a.cost) <= top
  }

  function MarkerBytes(actions: seq<Action>): nat {
    if actions == [] then 0 else (if actions[0].MarkHead? then actions[0].cost else 0) + MarkerBytes(actions[1..])
  }

  function Max(a: int, b: int): int {
    if a < b then b else a
  }

  lemma StepInv(limit: nat, s: State, a: Action)
    requires Inv(s)
    ensures Inv(Apply(limit, s, a))
  {
    if IsPut(a) { PutsKeep(limit, s, a); } else { SamplerKeeps(s, a); }
  }

  /** A put that loads its live figure now reads no lower than the present figure; a base that moves lowers that only. */
  lemma StepLow(limit: nat, s: State, a: Action, d: nat)
    requires Inv(s) && Low(s, d) && !a.StoreLive?
    ensures var e := Apply(limit, s, a);
            Low(e, d) && e.live == s.live && s.base <= e.base && s.committed <= e.committed
  {
    if a.LoadLive? && a.p in s.puts { assert PutOk(s.puts[a.p], s.base, s.sampled); }
  }

  lemma OnlyReserveKeepsMore(limit: nat, s: State, a: Action)
    requires Inv(s) && !a.StoreLive?
    ensures var e := Apply(limit, s, a);
            KeptFigure(e) <= KeptFigure(s) + MarkerBytes([a])
            || (a.Reserve? && a.p in s.puts && s.puts[a.p].HasLive?
                && KeptFigure(e) <= Threshold(limit, s.puts[a.p].lane, s.puts[a.p].cost) + Short(s, s.puts[a.p]))
  {
    var e := Apply(limit, s, a);
    if a.Reserve? && a.p in s.puts && s.puts[a.p].HasLive? && e.puts[a.p].Admitted? {
      AdmittedWithinLane(limit, s, a.p);
    } else if IsPut(a) && e != s {
      if a.p in e.puts { SumPut(s.puts, Kept, a.p, e.puts[a.p]); } else { SumTake(s.puts, Kept, a.p); }
    }
  }

  lemma StepPutsBelow(limit: nat, s: State, a: Action, top: int)
    requires PutsBelow(limit, s.puts, top) && StartsBelow(limit, [a], top)
    ensures PutsBelow(limit, Apply(limit, s, a).puts, top)
  {
    assert a in [a];
  }

  lemma {:induction false} WithinBy(limit: nat, s: State, actions: seq<Action>, top: int, d: nat)
    requires Inv(s) && Low(s, d) && NoStore(actions)
    requires PutsBelow(limit, s.puts, top) && StartsBelow(limit, actions, top)
    ensures var e := Run(limit, s, actions);
            && KeptFigure(e) <= Max(KeptFigure(s), top + d) + MarkerBytes(actions)
            && Inv(e) && Low(e, d) && e.live == s.live && s.base <= e.base && s.committed <= e.committed
    decreases |actions|
  {
    if actions != [] {
      var a, rest := actions[0], actions[1..];
      assert a in actions && NoStore(rest);
      assert StartsBelow(limit, [a], top) && StartsBelow(limit, rest, top);
      StepInv(limit, s, a);
      StepLow(limit, s, a, d);
      OnlyReserveKeepsMore(limit, s, a);
      StepPutsBelow(limit, s, a, top);
      WithinBy(limit, Apply(limit, s, a), rest, top, d);
    }
  }

  predicate IsDeficit(s: State, puts: map<nat, Put>, d: nat) {
    (forall p :: p in puts ==> Short(s, puts[p]) <= d) && (d == 0 || exists p :: p in puts && Short(s, puts[p]) == d)
  }

  /** The most any put that is between its loads and its add reads low. */
  ghost function Deficit(s: State): (d: nat)
    ensures IsDeficit(s, s.puts, d) && Low(s, d)
  {
    HasDeficit(s, s.puts);
    var d: nat :| IsDeficit(s, s.puts, d);
    d
  }

  lemma {:induction false} HasDeficit(s: State, puts: map<nat, Put>)
    ensures exists d: nat :: IsDeficit(s, puts, d)
    decreases |puts|
  {
    if puts == map[] {
      assert IsDeficit(s, puts, 0);
    } else {
      var p :| p in puts;
      var rest := puts - {p};
      HasDeficit(s, rest);
      var d: nat :| IsDeficit(s, rest, d);
      var e: nat := if d < Short(s, puts[p]) then Short(s, puts[p]) else d;
      assert forall q :: q in puts ==> q == p || (q in rest && rest[q] == puts[q]);
      assert IsDeficit(s, puts, e) by {
        if e != 0 && e == d {
          var q :| q in rest && Short(s, rest[q]) == d;
          assert q in puts && Short(s, puts[q]) == e;
        }
      }
    }
  }

  /**
    From any state of any run until the next good figure is stored, whatever the interleaving of
    reservations, refunds and failing samples: the figure ends no higher than it was, or than the highest
    threshold of any put, by as much as a put that loaded before the last sample reads low; head markers aside.
   */
  lemma FigureStaysWithin(limit: nat, s: State, actions: seq<Action>, top: int)
    requires Inv(s) && NoStore(actions)
    requires PutsBelow(limit, s.puts, top) && StartsBelow(limit, actions, top)
    ensures KeptFigure(Run(limit, s, actions)) <= Max(KeptFigure(s), top + Deficit(s)) + MarkerBytes(actions)
  {
    WithinBy(limit, s, actions, top, Deficit(s));
  }

  /** Ordinary puts alone pass the limit by one write at most, and by what a put reads low. */
  lemma OrdinaryPutsPassByOneWrite(limit: nat, s: State, actions: seq<Action>, largest: nat)
    requires Inv(s) && NoStore(actions) && KeptFigure(s) < limit
    requires forall p :: p in s.puts && Undecided(s.puts[p]) ==> s.puts[p].lane == Below && s.puts[p].cost <= largest
    requires forall a :: a in actions && a.Start? ==> a.lane == Below && a.cost <= largest
    ensures KeptFigure(Run(limit, s, actions)) < limit + largest + Deficit(s) + MarkerBytes(actions)
  {
    FigureStaysWithin(limit, s, actions, limit - 1 + largest);
  }

  predicate InCaps(limit: nat, lane: Lane, cost: nat, largest: nat) {
    match lane
    case Below => cost <= largest
    case Within(cap) => cap == CreateCap(limit) || cap == CleanupCap(limit) || cap == Ceiling(limit)
  }

  /** With all lanes at work, the figure ends at or below the ceiling, or one ordinary write above the limit. */
  lemma LanesEndAtTheCeiling(limit: nat, s: State, actions: seq<Action>, largest: nat)
    requires Inv(s) && NoStore(actions) && KeptFigure(s) < limit
    requires forall p :: p in s.puts && Undecided(s.puts[p]) ==> InCaps(limit, s.puts[p].lane, s.puts[p].cost, largest)
    requires forall a :: a in actions && a.Start? ==> InCaps(limit, a.lane, a.cost, largest)
    ensures KeptFigure(Run(limit, s, actions))
            <= Max(Ceiling(limit), limit - 1 + largest) + Deficit(s) + MarkerBytes(actions)
  {
    FigureStaysWithin(limit, s, actions, Max(Ceiling(limit), limit - 1 + largest));
  }

  /** Nothing reads low at the start, nor after a sample at whose store no put was between its loads and its add. */
  lemma NothingReadsLow(limit: nat, s: State, size: int, actions: seq<Action>)
    requires Inv(s) && NoStore(actions)
    requires Init(s) || (s.sampler.Marked? && forall p :: p in s.puts ==> !s.puts[p].HasLive?)
    ensures ReadsHigh(Run(limit, if Init(s) then s else Apply(limit, s, StoreLive(size)), actions))
  {
    var e := if Init(s) then s else Apply(limit, s, StoreLive(size));
    StepInv(limit, s, StoreLive(size));
    StaysLow(limit, e, actions, 0);
  }

  lemma {:induction false} StaysLow(limit: nat, s: State, actions: seq<Action>, d: nat)
    requires Inv(s) && Low(s, d) && NoStore(actions)
    ensures Low(Run(limit, s, actions), d)
    decreases |actions|
  {
    if actions != [] {
      assert actions[0] in actions && NoStore(actions[1..]);
      StepInv(limit, s, actions[0]);
      StepLow(limit, s, actions[0], d);
      StaysLow(limit, Apply(limit, s, actions[0]), actions[1..], d);
    }
  }

  lemma {:induction false} RunConcat(limit: nat, s: State, a: seq<Action>, b: seq<Action>)
    ensures Run(limit, s, a + b) == Run(limit, Run(limit, s, a), b)
    decreases |a|
  {
    if a == [] {
      assert a + b == b;
    } else {
      assert (a + b)[1..] == a[1..] + b && (a + b)[0] == a[0];
      RunConcat(limit, Apply(limit, s, a[0]), a[1..], b);
    }
  }

  /** A good sample with nothing in between. */
  lemma SampleRuns(limit: nat, s: State, size: int)
    requires s.sampler == Idle
    ensures Run(limit, s, GoodSample(size)) ==
            s.(live := size, base := s.mark0, sampled := s.mark0, mark0 := s.mark1, mark1 := s.committed, history := s.history + [s.committed])
  {
    var s1 := Apply(limit, s, SampleStart(true));
    var s2 := Apply(limit, s1, StoreLive(size));
    var s3 := Apply(limit, s2, MoveBase);
    var all := GoodSample(size);
    assert all[1..] == [StoreLive(size), MoveBase, Observe] && all[1..][1..] == [MoveBase, Observe];
    assert all[1..][1..][1..] == [Observe] && all[1..][1..][1..][1..] == [];
    assert Run(limit, s, all) == Run(limit, s1, all[1..]) == Run(limit, s2, all[1..][1..]) == Run(limit, s3, [Observe]);
    assert Run(limit, s3, [Observe]) == Run(limit, Apply(limit, s3, Observe), []);
  }

  function GoodSample(size: int): seq<Action> {
    [SampleStart(true), StoreLive(size), MoveBase, Observe]
  }

  /**
    A put that loaded a figure below the limit before a good sample passes after it, however far above the
    limit that sample found the database.
   */
  lemma StaleFigurePasses(limit: nat, s: State, p: nat, size: int)
    requires Inv(s) && s.sampler == Idle && p in s.puts && s.puts[p].HasLive? && s.puts[p].lane == Below
    requires s.puts[p].live + s.written - s.puts[p].base < limit
    ensures var e := Run(limit, s, GoodSample(size));
            p in e.puts && e.puts[p] == s.puts[p] && Apply(limit, e, Reserve(p)).puts[p].Admitted? && size <= KeptFigure(e)
  {
    SampleRuns(limit, s, size);
  }

  const FRESH: State := State(0, 0, 0, 0, 0, 0, Idle, map[], [0, 0, 0], 0)

  /** One put loads its figure; another reserves all that is left below the limit. */
  function TwoPuts(limit: nat, cost: nat): seq<Action>
    requires 0 < limit
  {
    [Start(1, cost, Below), LoadBase(1), LoadLive(1), Start(2, limit - 1, Below), LoadBase(2), LoadLive(2), Reserve(2)]
  }

  lemma FirstLoads(limit: nat, cost: nat)
    requires 0 < limit
    ensures Run(limit, FRESH, TwoPuts(limit, cost))
            == Run(limit, FRESH.(puts := map[1 := HasLive(cost, Below, 0, 0, 0)]), TwoPuts(limit, cost)[3..])
  {
    hide Run;
    var all := TwoPuts(limit, cost);
    var s1 := FRESH.(puts := map[1 := Started(cost, Below)]);
    var s2 := FRESH.(puts := map[1 := HasBase(cost, Below, 0)]);
    var s3 := FRESH.(puts := map[1 := HasLive(cost, Below, 0, 0, 0)]);
    Next(limit, FRESH, all, s1);
    Next(limit, s1, all[1..], s2);
    Next(limit, s2, all[2..], s3);
  }

  lemma TwoPutsRun(limit: nat, cost: nat)
    requires 0 < limit
    ensures Run(limit, FRESH, TwoPuts(limit, cost)) ==
            FRESH.(written := limit - 1, puts := map[1 := HasLive(cost, Below, 0, 0, 0), 2 := Admitted(limit - 1, Below)])
  {
    FirstLoads(limit, cost);
    var all := TwoPuts(limit, cost);
    var s3 := FRESH.(puts := map[1 := HasLive(cost, Below, 0, 0, 0)]);
    var s4 := FRESH.(puts := s3.puts[2 := Started(limit - 1, Below)]);
    var s5 := FRESH.(puts := s3.puts[2 := HasBase(limit - 1, Below, 0)]);
    var s6 := FRESH.(puts := s3.puts[2 := HasLive(limit - 1, Below, 0, 0, 0)]);
    var s7 := FRESH.(written := limit - 1, puts := s3.puts[2 := Admitted(limit - 1, Below)]);
    assert Run(limit, s7, all[7..]) == s7;
    hide Run;
    Next(limit, s3, all[3..], s4);
    Next(limit, s4, all[4..], s5);
    Next(limit, s5, all[5..], s6);
    Next(limit, s6, all[6..], s7);
  }

  lemma Next(limit: nat, s: State, actions: seq<Action>, e: State)
    requires actions != [] && Apply(limit, s, actions[0]) == e
    ensures Run(limit, s, actions) == Run(limit, e, actions[1..])
  {
  }

  /** The bound is reached, for every limit, write and sample: by a put that loaded before the sample of a run from the start. */
  lemma BoundIsReached(limit: nat, cost: nat, size: nat)
    requires 0 < limit
    ensures Init(FRESH)
    ensures var s := Run(limit, FRESH, TwoPuts(limit, cost) + GoodSample(size));
            && Inv(s) && Deficit(s) == size && KeptFigure(s) == limit - 1 + size
            && PutsBelow(limit, s.puts, limit - 1 + cost)
            && KeptFigure(Run(limit, s, [Reserve(1)])) == (limit - 1 + cost) + Deficit(s)
  {
    StaleState(limit, cost, size);
    hide Run;
    var s := Run(limit, FRESH, TwoPuts(limit, cost) + GoodSample(size));
    assert Short(s, s.puts[1]) == size && Short(s, s.puts[2]) == 0;
    Next(limit, s, [Reserve(1)], Apply(limit, s, Reserve(1)));
    RunNothing(limit, Apply(limit, s, Reserve(1)));
    AdmittedWithinLane(limit, s, 1);
  }

  lemma RunNothing(limit: nat, s: State)
    ensures Run(limit, s, []) == s && [Reserve(1)][1..] == []
  {
  }

  lemma StaleState(limit: nat, cost: nat, size: nat)
    requires 0 < limit
    ensures var s := Run(limit, FRESH, TwoPuts(limit, cost) + GoodSample(size));
            && Inv(s) && KeptFigure(s) == limit - 1 + size
            && s == FRESH.(live := size, written := limit - 1, history := [0, 0, 0, 0],
                           puts := map[1 := HasLive(cost, Below, 0, 0, 0), 2 := Admitted(limit - 1, Below)])
  {
    assert Sum(FRESH.puts, Held) == 0;
    RunKeeps(limit, FRESH, TwoPuts(limit, cost) + GoodSample(size));
    RunConcat(limit, FRESH, TwoPuts(limit, cost), GoodSample(size));
    TwoPutsRun(limit, cost);
    hide Run, Inv;
    SampleRuns(limit, Run(limit, FRESH, TwoPuts(limit, cost)), size);
    var s := Run(limit, FRESH, TwoPuts(limit, cost) + GoodSample(size));
    SumTake(s.puts, Kept, 1);
    SumTake(s.puts - {1}, Kept, 2);
    assert s.puts - {1} - {2} == map[];
  }

  // ---------------------------------------------------------- a sampler that keeps failing

  /** No good sample starts storing or ends; failing samples may come and go. */
  predicate NoGoodSample(actions: seq<Action>) {
    forall a :: a in actions ==> !a.StoreLive? && !a.MoveBase? && !a.Observe?
  }

  /** Puts that were written, of at least one byte each. */
  function Landed(limit: nat, s: State, actions: seq<Action>): nat
    decreases |actions|
  {
    if actions == [] then 0
    else
      var a := actions[0];
      (if a.Commit? && a.p in s.puts && Kept(s.puts[a.p]) > 0 then 1 else 0)
      + Landed(limit, Apply(limit, s, a), actions[1..])
  }

  lemma {:induction false} LandedCommits(limit: nat, s: State, actions: seq<Action>)
    ensures s.committed + Landed(limit, s, actions) <= Run(limit, s, actions).committed
    decreases |actions|
  {
    if actions != [] { LandedCommits(limit, Apply(limit, s, actions[0]), actions[1..]); }
  }

  /** A put that reads low has done so since s. */
  predicate LowSince(s: State, e: State) {
    forall p {:trigger e.puts[p]} :: p in e.puts && Short(e, e.puts[p]) > 0 ==> p in s.puts && s.puts[p] == e.puts[p]
  }

  lemma QuietStep(limit: nat, s: State, e: State, a: Action)
    requires Inv(e) && LowSince(s, e) && NoGoodSample([a])
    ensures var e' := Apply(limit, e, a);
            Inv(e') && LowSince(s, e') && e'.live == e.live && e'.base == e.base && e.committed <= e'.committed
  {
    assert a in [a];
    StepInv(limit, e, a);
    if a.LoadLive? && a.p in e.puts { assert PutOk(e.puts[a.p], e.base, e.sampled); }
  }

  lemma {:induction false} QuietRun(limit: nat, s: State, e: State, actions: seq<Action>)
    requires Inv(e) && LowSince(s, e) && NoGoodSample(actions)
    ensures var e' := Run(limit, e, actions);
            Inv(e') && LowSince(s, e') && e'.live == e.live && e'.base == e.base && e.committed <= e'.committed
    decreases |actions|
  {
    if actions != [] {
      var a, rest := actions[0], actions[1..];
      assert NoGoodSample([a]) && NoGoodSample(rest);
      QuietStep(limit, s, e, a);
      QuietRun(limit, s, Apply(limit, e, a), rest);
    }
  }

  /**
    Once the committed bytes alone fill the quota, no ordinary put passes until a good sample says otherwise,
    except one that has held a figure from before the last sample all the while.
   */
  lemma FailsClosed(limit: nat, s: State, actions: seq<Action>, p: nat)
    requires Inv(s) && NoGoodSample(actions) && limit <= s.live + s.committed - s.base
    ensures var e := Run(limit, s, actions);
            p in e.puts && e.puts[p].HasLive? && e.puts[p].lane == Below ==>
              Apply(limit, e, Reserve(p)).puts[p].Refused?
              || (p in s.puts && s.puts[p] == e.puts[p] && Short(s, s.puts[p]) > 0)
  {
    QuietRun(limit, s, s, actions);
    var e := Run(limit, s, actions);
    HeldCovers(e);
  }

  /**
    With only failing samples, as many landed puts as there are bytes left close the quota: from then on every
    ordinary put that loads its figure is refused, in every continuation.
   */
  lemma EventuallyAllRefused(limit: nat, s: State, actions: seq<Action>, more: seq<Action>, p: nat)
    requires Inv(s) && NoGoodSample(actions) && NoGoodSample(more)
    requires limit <= s.live + s.committed - s.base + Landed(limit, s, actions)
    ensures var e := Run(limit, Run(limit, s, actions), more);
            p in e.puts && e.puts[p].HasLive? && e.puts[p].lane == Below ==>
              Apply(limit, e, Reserve(p)).puts[p].Refused?
              || (p in s.puts && s.puts[p] == e.puts[p] && Short(s, s.puts[p]) > 0)
  {
    QuietRun(limit, s, s, actions);
    LandedCommits(limit, s, actions);
    FailsClosed(limit, Run(limit, s, actions), more, p);
  }

  /** And no more puts than that can land: the thresholds bound the committed bytes. */
  lemma LandedIsBounded(limit: nat, s: State, actions: seq<Action>, top: int)
    requires Inv(s) && NoGoodSample(actions)
    requires PutsBelow(limit, s.puts, top) && StartsBelow(limit, actions, top)
    ensures s.live + s.committed - s.base + Landed(limit, s, actions)
            <= Max(KeptFigure(s), top + Deficit(s)) + MarkerBytes(actions)
  {
    FigureStaysWithin(limit, s, actions, top);
    QuietRun(limit, s, s, actions);
    LandedCommits(limit, s, actions);
  }
}

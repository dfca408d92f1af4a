/**
  The broadcaster: one stream of event batches, copied into the bounded channel of every subscriber.
  Every critical section of its lock is one step; a subscriber takes from its channel at any time.
 */
module Broadcasting {
  import opened KineTable

  type Events = seq<Versioned>

  /** What Subscribe passes to make. */
  const CAPACITY: nat := 100

  datatype Reason = Cancelled | Slow | Ended

  datatype Status = Open | Closed(why: Reason, end: nat)

  /**
    A subscriber's channel. buffer is what it has not taken yet. The slots of the stream it was sent, and
    those it was refused, are kept for the specification, and so is its first one.
   */
  datatype Channel = Channel(first: nat, buffer: seq<Events>, received: seq<Events>, status: Status,
                             sent: seq<nat>, refused: seq<nat>)

  /** stream holds every batch the broadcaster read. panicked: a closed channel was sent to, or closed again. */
  datatype State = State(stream: seq<Events>, chans: map<nat, Channel>, subs: set<nat>, running: bool, panicked: bool)

  datatype Action =
    | Subscribe(c: nat, connects: bool)
    | Unsub(c: nat, why: Reason)
    | Item(item: Events)
    | End
    | Receive(c: nat)

  // ------------------------------------------------------------------- the steps

  /** A send that does not wait: it is refused when the buffer is full. */
  function Offer(c: Channel, slot: nat, item: Events): Channel {
    if |c.buffer| < CAPACITY then c.(buffer := c.buffer + [item], sent := c.sent + [slot])
    else c.(refused := c.refused + [slot])
  }

  function Close(c: Channel, why: Reason, end: nat): Channel {
    c.(status := Closed(why, end))
  }

  predicate AnyClosed(chans: map<nat, Channel>, subs: set<nat>) {
    exists c :: c in subs && c in chans && chans[c].status != Open
  }

  function Drop(s: State, c: nat, why: Reason): State {
    if c in s.subs && c in s.chans then
      s.(chans := s.chans[c := Close(s.chans[c], why, |s.stream|)], subs := s.subs - {c},
         panicked := s.panicked || s.chans[c].status != Open)
    else s
  }

  function Deliver(s: State, item: Events): State {
    s.(stream := s.stream + [item],
       chans := map c | c in s.chans :: if c in s.subs then Offer(s.chans[c], |s.stream|, item) else s.chans[c],
       panicked := s.panicked || AnyClosed(s.chans, s.subs))
  }

  function EndAll(s: State): State {
    s.(chans := map c | c in s.chans :: if c in s.subs then Close(s.chans[c], Ended, |s.stream|) else s.chans[c],
       subs := {}, running := false,
       panicked := s.panicked || AnyClosed(s.chans, s.subs))
  }

  function Joined(s: State, c: nat): State {
    s.(running := true, chans := s.chans[c := Channel(|s.stream|, [], [], Open, [], [])], subs := s.subs + {c})
  }

  function Apply(s: State, a: Action): State {
    match a
    case Subscribe(c, connects) => if s.running || connects then Joined(s, c) else s
    case Unsub(c, why) => Drop(s, c, why)
    case Item(item) => Deliver(s, item)
    case End => EndAll(s)
    case Receive(c) =>
      if c in s.chans && s.chans[c].buffer != [] then
        var ch := s.chans[c];
        s.(chans := s.chans[c := ch.(buffer := ch.buffer[1..], received := ch.received + [ch.buffer[0]])])
      else s
  }

  /** A channel is a new one; a subscriber may cancel at any time, and is dropped as slow only after a refusal. */
  predicate Allowed(s: State, a: Action) {
    match a
    case Subscribe(c, _) => c !in s.chans
    case Unsub(c, why) => c in s.chans && why != Ended && (why == Slow ==> s.chans[c].refused != [])
    case Item(_) => s.running
    case End => s.running
    case Receive(_) => true
  }

  function Run(s: State, actions: seq<Action>): State
    decreases |actions|
  {
    if actions == [] then s else Run(Apply(s, actions[0]), actions[1..])
  }

  predicate AllowedRun(s: State, actions: seq<Action>)
    decreases |actions|
  {
    actions == [] || (Allowed(s, actions[0]) && AllowedRun(Apply(s, actions[0]), actions[1..]))
  }

  // -------------------------------------------------------------- the invariant

  predicate Slots(slots: seq<nat>, from: nat, to: nat) {
    && (forall i :: 0 <= i < |slots| ==> from <= slots[i] < to)
    && (forall i, j :: 0 <= i < j < |slots| ==> slots[i] < slots[j])
  }

  /** Up to where the channel was sent everything: its first refusal, or its end. */
  function Whole(c: Channel, end: nat): nat {
    if c.refused == [] then end else c.refused[0]
  }

  /** What a channel was given, in terms of the stream up to end. */
  predicate Faithful(c: Channel, stream: seq<Events>, end: nat) {
    && c.first <= end <= |stream|
    && |c.buffer| <= CAPACITY
    && Slots(c.sent, c.first, end) && Slots(c.refused, c.first, end)
    && |c.received + c.buffer| == |c.sent| && |c.sent| + |c.refused| == end - c.first
    && (forall i :: 0 <= i < |c.sent| ==> (c.received + c.buffer)[i] == stream[c.sent[i]])
    && (forall n :: c.first <= n < end ==> (n in c.sent <==> n !in c.refused))
    && c.first <= Whole(c, end) <= c.first + |c.sent|
    && (forall i :: 0 <= i < Whole(c, end) - c.first ==> c.sent[i] == c.first + i)
    && (c.refused != [] ==> c.first + CAPACITY <= c.refused[0])
  }

  function EndOf(c: Channel, stream: seq<Events>): nat {
    if c.status == Open then |stream| else c.status.end
  }

  predicate ChannelOk(c: Channel, stream: seq<Events>, subscribed: bool) {
    && (subscribed <==> c.status == Open)
    && Faithful(c, stream, EndOf(c, stream))
    && (c.status.Closed? && c.status.why == Slow ==> c.refused != [])
  }

  predicate Inv(s: State) {
    && !s.panicked
    && (forall c :: c in s.subs ==> c in s.chans)
    && (forall c {:trigger ChannelOk(s.chans[c], s.stream, c in s.subs)} ::
          c in s.chans ==> ChannelOk(s.chans[c], s.stream, c in s.subs))
    && (!s.running ==> s.subs == {})
  }

  predicate Init(s: State) {
    s == State([], map[], {}, false, false)
  }

  // ------------------------------------------------- every step keeps the invariant

  lemma SlotsAppend(slots: seq<nat>, from: nat, to: nat)
    requires Slots(slots, from, to) && from <= to
    ensures Slots(slots + [to], from, to + 1)
    ensures forall n :: n in slots + [to] <==> n in slots || n == to
    ensures to !in slots
  {
  }

  lemma SendKeeps(c: Channel, stream: seq<Events>, item: Events)
    requires Faithful(c, stream, |stream|) && |c.buffer| < CAPACITY
    ensures Faithful(Offer(c, |stream|, item), stream + [item], |stream| + 1)
  {
    var d, n, now := Offer(c, |stream|, item), |stream|, stream + [item];
    SlotsAppend(c.sent, c.first, n);
    assert d.received + d.buffer == (c.received + c.buffer) + [item];
  }

  lemma RefusalKeeps(c: Channel, stream: seq<Events>, item: Events)
    requires Faithful(c, stream, |stream|) && |c.buffer| >= CAPACITY
    ensures Faithful(Offer(c, |stream|, item), stream + [item], |stream| + 1)
  {
    var d, n, now := Offer(c, |stream|, item), |stream|, stream + [item];
    SlotsAppend(c.refused, c.first, n);
    assert |c.sent| >= CAPACITY;
  }

  lemma OfferKeeps(c: Channel, stream: seq<Events>, item: Events)
    requires ChannelOk(c, stream, true)
    ensures ChannelOk(Offer(c, |stream|, item), stream + [item], true)
  {
    if |c.buffer| < CAPACITY { SendKeeps(c, stream, item); } else { RefusalKeeps(c, stream, item); }
  }

  lemma LongerStream(c: Channel, stream: seq<Events>, item: Events)
    requires ChannelOk(c, stream, false)
    ensures ChannelOk(c, stream + [item], false)
  {
  }

  lemma DeliverKeeps(s: State, item: Events)
    requires Inv(s) && s.running
    ensures Inv(Deliver(s, item))
  {
    var s' := Deliver(s, item);
    forall c | c in s'.chans ensures ChannelOk(s'.chans[c], s'.stream, c in s'.subs) {
      assert ChannelOk(s.chans[c], s.stream, c in s.subs);
      if c in s.subs { OfferKeeps(s.chans[c], s.stream, item); } else { LongerStream(s.chans[c], s.stream, item); }
    }
    OpenSubs(s);
  }

  lemma OpenSubs(s: State)
    requires Inv(s)
    ensures !AnyClosed(s.chans, s.subs)
    ensures forall c :: c in s.subs ==> c in s.chans && s.chans[c].status == Open
  {
    forall c | c in s.subs && c in s.chans ensures s.chans[c].status == Open {
      assert ChannelOk(s.chans[c], s.stream, c in s.subs);
    }
  }

  lemma DropKeeps(s: State, c: nat, why: Reason)
    requires Inv(s) && c in s.chans && (why == Slow ==> s.chans[c].refused != [])
    ensures Inv(Drop(s, c, why))
  {
    OpenSubs(s);
    var s' := Drop(s, c, why);
    forall d | d in s'.chans ensures ChannelOk(s'.chans[d], s'.stream, d in s'.subs) {
      assert ChannelOk(s.chans[d], s.stream, d in s.subs);
    }
  }

  lemma EndKeeps(s: State)
    requires Inv(s)
    ensures Inv(EndAll(s))
  {
    OpenSubs(s);
    var s' := EndAll(s);
    forall c | c in s'.chans ensures ChannelOk(s'.chans[c], s'.stream, c in s'.subs) {
      assert ChannelOk(s.chans[c], s.stream, c in s.subs);
    }
  }

  lemma OneChannelKeeps(s: State, c: nat, ch: Channel, subs: set<nat>)
    requires Inv(s) && ChannelOk(ch, s.stream, c in subs)
    requires forall d :: d in subs <==> d in s.subs || (d == c && c in subs)
    ensures Inv(s.(chans := s.chans[c := ch], subs := subs, running := s.running || c in subs))
  {
    var s' := s.(chans := s.chans[c := ch], subs := subs, running := s.running || c in subs);
    forall d | d in s'.chans ensures ChannelOk(s'.chans[d], s'.stream, d in s'.subs) {
      if d != c { assert ChannelOk(s.chans[d], s.stream, d in s.subs); }
    }
  }

  lemma ReceiveKeeps(s: State, c: nat)
    requires Inv(s)
    ensures Inv(Apply(s, Receive(c)))
  {
    if c in s.chans && s.chans[c].buffer != [] {
      var ch := s.chans[c];
      var d := ch.(buffer := ch.buffer[1..], received := ch.received + [ch.buffer[0]]);
      assert ChannelOk(ch, s.stream, c in s.subs);
      assert d.received + d.buffer == ch.received + ch.buffer;
      OneChannelKeeps(s, c, d, s.subs);
    }
  }

  lemma StepKeeps(s: State, a: Action)
    requires Inv(s) && Allowed(s, a)
    ensures Inv(Apply(s, a))
  {
    match a
    case Subscribe(c, _) =>
      OneChannelKeeps(s, c, Channel(|s.stream|, [], [], Open, [], []), s.subs + {c});
    case Unsub(c, why) => DropKeeps(s, c, why);
    case Item(item) => DeliverKeeps(s, item);
    case End => EndKeeps(s);
    case Receive(c) => ReceiveKeeps(s, c);
  }

  lemma {:induction false} RunKeeps(s: State, actions: seq<Action>)
    requires Inv(s) && AllowedRun(s, actions)
    ensures Inv(Run(s, actions))
    decreases |actions|
  {
    if actions != [] {
      StepKeeps(s, actions[0]);
      RunKeeps(Apply(s, actions[0]), actions[1..]);
    }
  }

  // ------------------------------------------------------------------ main results

  /**
    In every interleaving no channel is closed twice or sent to after it was closed. What a subscriber
    has taken and can still take is an ordered part of the stream since its subscription: all of it
    up to the first batch refused, which is never among its first hundred.
   */
  lemma SubscribersSeeTheStream(s: State, actions: seq<Action>, c: nat)
    requires Init(s) && AllowedRun(s, actions) && c in Run(s, actions).chans
    ensures var e := Run(s, actions);
            var ch := e.chans[c];
            var end := EndOf(ch, e.stream);
            && !e.panicked && (c in e.subs <==> ch.status == Open)
            && ch.first <= Whole(ch, end) <= end <= |e.stream|
            && e.stream[ch.first..Whole(ch, end)] <= ch.received + ch.buffer
            && |ch.received + ch.buffer| == |ch.sent| && Slots(ch.sent, ch.first, end)
            && (forall i :: 0 <= i < |ch.sent| ==> (ch.received + ch.buffer)[i] == e.stream[ch.sent[i]])
            && (Whole(ch, end) < end ==> ch.first + CAPACITY <= Whole(ch, end))
  {
    RunKeeps(s, actions);
    var e := Run(s, actions);
    assert ChannelOk(e.chans[c], e.stream, c in e.subs);
    var ch := e.chans[c];
    assert forall i :: 0 <= i < Whole(ch, EndOf(ch, e.stream)) - ch.first ==>
             e.stream[ch.first..Whole(ch, EndOf(ch, e.stream))][i] == (ch.received + ch.buffer)[i];
  }

  /** A subscriber is complete exactly when nothing was refused; one that was dropped as slow had a refusal. */
  lemma CompleteIffNothingRefused(s: State, actions: seq<Action>, c: nat)
    requires Init(s) && AllowedRun(s, actions) && c in Run(s, actions).chans
    ensures var e := Run(s, actions);
            var ch := e.chans[c];
            var end := EndOf(ch, e.stream);
            && ch.first <= end <= |e.stream|
            && (|ch.received + ch.buffer| == end - ch.first <==> ch.refused == [])
            && (ch.refused == [] ==> ch.received + ch.buffer == e.stream[ch.first..end])
            && (ch.status.Closed? && ch.status.why == Slow ==> ch.refused != [])
  {
    RunKeeps(s, actions);
    var e := Run(s, actions);
    assert ChannelOk(e.chans[c], e.stream, c in e.subs);
  }

  // -------------------------------------------------------------------- the calls

  class Broadcaster {
    var stream: seq<Events>
    var chans: map<nat, Channel>
    var subs: set<nat>
    var running: bool

    constructor ()
      ensures Init(Now())
    {
      stream, chans, subs, running := [], map[], {}, false;
    }

    /** None of the calls sends to a closed channel or closes one again, so there is no panic to record. */
    function Now(): State
      reads this
    {
      State(stream, chans, subs, running, false)
    }

    /** Go panics when the channel is closed already. */
    method CloseChannel(c: nat, why: Reason)
      requires c in chans && chans[c].status == Open
      modifies this`chans
      ensures chans == old(chans)[c := Close(old(chans)[c], why, |stream|)]
    {
      chans := chans[c := Close(chans[c], why, |stream|)];
    }

    /** The send of a select with a default case. Go panics when the channel is closed. */
    method TrySend(c: nat, slot: nat, item: Events)
      requires c in chans && chans[c].status == Open
      modifies this`chans
      ensures chans == old(chans)[c := Offer(old(chans)[c], slot, item)]
    {
      var ch := chans[c];
      if |ch.buffer| < CAPACITY {
        chans := chans[c := ch.(buffer := ch.buffer + [item], sent := ch.sent + [slot])];
      } else {
        chans := chans[c := ch.(refused := ch.refused + [slot])];
      }
    }

    method Subscribe(c: nat, connects: bool) returns (ok: bool)
      requires Inv(Now()) && c !in chans
      modifies this
      ensures Now() == Apply(old(Now()), Action.Subscribe(c, connects)) && Inv(Now())
      ensures ok <==> c in chans
    {
      StepKeeps(Now(), Action.Subscribe(c, connects));
      if !running {
        if !connects {
          return false;
        }
        running := true;
      }
      chans := chans[c := Channel(|stream|, [], [], Open, [], [])];
      subs := subs + {c};
      ok := true;
    }

    /** Cancelling, dropping a slow subscriber and ending the stream all come here; only the first has an effect. */
    method Unsub(c: nat, why: Reason)
      requires Inv(Now()) && c in chans
      requires why == Slow ==> chans[c].refused != []
      modifies this`chans, this`subs
      ensures Now() == Drop(old(Now()), c, why) && Inv(Now())
    {
      DropKeeps(Now(), c, why);
      if c in subs {
        CloseChannel(c, why);
        subs := subs - {c};
      }
    }

    /** The loop over the subscribers; slow are those it starts an unsub for. */
    method SendAll(item: Events) returns (slow: set<nat>)
      requires forall c :: c in subs ==> c in chans && chans[c].status == Open
      modifies this`chans
      ensures chans == map c | c in old(chans) :: if c in subs then Offer(old(chans)[c], |stream|, item) else old(chans)[c]
      ensures forall c :: c in slow <==> c in subs && |old(chans)[c].buffer| >= CAPACITY
    {
      slow := {};
      ghost var was := chans;
      var todo := subs;
      while todo != {}
        invariant todo <= subs && chans.Keys == was.Keys
        invariant forall c :: c in chans ==>
                    chans[c] == if c in subs && c !in todo then Offer(was[c], |stream|, item) else was[c]
        invariant forall c :: c in slow <==> c in subs && c !in todo && |was[c].buffer| >= CAPACITY
        decreases |todo|
      {
        var c :| c in todo;
        if |chans[c].buffer| >= CAPACITY {
          slow := slow + {c};
        }
        TrySend(c, |stream|, item);
        todo := todo - {c};
      }
    }

    /** One item of the stream. */
    method StreamItem(item: Events) returns (slow: set<nat>)
      requires Inv(Now()) && running
      modifies this`stream, this`chans
      ensures Now() == Apply(old(Now()), Item(item)) && Inv(Now())
      ensures forall c :: c in slow ==> c in chans && chans[c].refused != []
    {
      StepKeeps(Now(), Item(item));
      OpenSubs(Now());
      slow := SendAll(item);
      stream := stream + [item];
    }

    /** The input is closed: every subscriber is dropped under one lock. */
    method StreamEnd()
      requires Inv(Now()) && running
      modifies this
      ensures Now() == Apply(old(Now()), End) && Inv(Now())
    {
      StepKeeps(Now(), End);
      OpenSubs(Now());
      ghost var was, end := Now(), EndAll(Now());
      while subs != {}
        invariant Inv(Now()) && stream == was.stream && subs <= was.subs && chans.Keys == was.chans.Keys
        invariant forall c :: c in chans ==> chans[c] == if c in was.subs - subs then end.chans[c] else was.chans[c]
        decreases |subs|
      {
        var c :| c in subs;
        Unsub(c, Ended);
      }
      assert chans == end.chans;
      running := false;
    }
  }
}

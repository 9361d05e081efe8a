/** The two-slot inboxes, as a state machine over every interleaving of received packets and
    rounds.

    Slot 0 collects the packets tagged with the current round, slot 1 those of the next one. The
    history keeps the log of accepted packets, the inbox consumed in each round, and the batches
    of messages handed over for delivery. */
module Inboxes {
  import opened Bits
  import opened Options
  import opened Structures

  /** `deliver` is a std::set ordered by delivery time: a map from time to the message kept. */
  datatype Inbox = Inbox(
    structure: seq<OverlayMessage>,
    announce: seq<MessageTuple>,
    agreement: seq<AgreementTuple>,
    inject: seq<MessageTuple>,
    routing: seq<seq<RoutingTuple>>,
    predeliver: seq<MessageTuple>,
    deliver: map<U64, MessageTuple>,
    receivedFrom: map<Peer, bool>)

  const EMPTY_INBOX := Inbox([], [], [], [], [], [], map[], map[])

  /** An accepted packet and the round it belongs to (-1 before the first round). */
  datatype Logged = Logged(epoch: int, p: Packet)

  datatype Batch = Batch(epoch: int, messages: map<U64, MessageTuple>)

  datatype State = State(now: Inbox, next: Inbox, log: seq<Logged>, consumed: seq<Inbox>, batches: seq<Batch>) {
    function Cur(): int { |consumed| - 1 }

    function Slot(k: int): Inbox { if k == 0 then now else next }

    function WithSlot(k: int, i: Inbox): State { if k == 0 then this.(now := i) else this.(next := i) }
  }

  const INITIAL := State(EMPTY_INBOX, EMPTY_INBOX, [], [], [])

  // ---------------------------------------------------------------- one packet

  /** Inserting into a std::set keeps the element already there. */
  function InsertAll(m: map<U64, MessageTuple>, s: seq<MessageTuple>): map<U64, MessageTuple> {
    if s == [] then m
    else
      var rest := InsertAll(m, s[..|s| - 1]);
      var x := s[|s| - 1];
      if x.tDst in rest then rest else rest[x.tDst := x]
  }

  function NonEmpty(r: seq<RoutingTuple>): seq<seq<RoutingTuple>> {
    if r == [] then [] else [r]
  }

  /** A slot with the sections of one more packet. */
  function Contribute(i: Inbox, p: Packet): Inbox {
    Inbox(i.structure + p.structure, i.announce + p.announce, i.agreement + p.agreement, i.inject + p.inject,
          i.routing + NonEmpty(p.routing), i.predeliver + p.predeliver,
          InsertAll(i.deliver, p.deliver), i.receivedFrom[p.sender := true])
  }

  /** The current round as the 64-bit word the client stores. */
  function CurWord(cur: int): U64 { cur % TWO_64 }

  datatype Reception = Ignored | Aborted | Accepted(slot: int)

  predicate SeenFrom(i: Inbox, sender: Peer) {
    sender in i.receivedFrom && i.receivedFrom[sender]
  }

  function Receive(own: Peer, s: State, p: Packet): Reception {
    if p.receiver != own || p.round < CurWord(s.Cur()) then Ignored
    else if p.round - CurWord(s.Cur()) >= 2 then Aborted
    else if SeenFrom(s.Slot(p.round - CurWord(s.Cur())), p.sender) then Ignored
    else Accepted(p.round - CurWord(s.Cur()))
  }

  /** The state after accepting a packet into slot `k`; with more than m_corrupt senders heard,
      the collected messages become a batch and the slot forgets senders and messages. */
  function Accept(mCorrupt: nat, s: State, k: int, p: Packet): State {
    var slot := Contribute(s.Slot(k), p);
    var logged := s.(log := s.log + [Logged(s.Cur() + k, p)]);
    if |slot.receivedFrom| > mCorrupt then
      logged.(batches := s.batches + [Batch(s.Cur() + k, slot.deliver)])
            .WithSlot(k, slot.(deliver := map[], receivedFrom := map[]))
    else
      logged.WithSlot(k, slot)
  }

  /** The end of a round: slot 0 has been consumed, slot 1 takes its place. */
  function EndRound(s: State): State {
    s.(now := s.next, next := EMPTY_INBOX, consumed := s.consumed + [s.now])
  }

  // ---------------------------------------------------------------- runs

  datatype Event = PacketEvent(p: Packet) | RoundEvent

  function Apply(own: Peer, mCorrupt: nat, s: State, e: Event): Option<State> {
    match e
    case RoundEvent => Some(EndRound(s))
    case PacketEvent(p) =>
      match Receive(own, s, p)
      case Ignored => Some(s)
      case Aborted => None
      case Accepted(k) => Some(Accept(mCorrupt, s, k, p))
  }

  function Run(own: Peer, mCorrupt: nat, events: seq<Event>): Option<State> {
    if events == [] then Some(INITIAL)
    else
      match Run(own, mCorrupt, events[..|events| - 1])
      case None => None
      case Some(s) => Apply(own, mCorrupt, s, events[|events| - 1])
  }

  // ---------------------------------------------------------------- the map from tag to inbox

  /** The accepted packets of one round, in the order of their arrival. */
  function At(log: seq<Logged>, epoch: int): seq<Packet> {
    if log == [] then []
    else
      var e := log[|log| - 1];
      var rest := At(log[..|log| - 1], epoch);
      if e.epoch == epoch then rest + [e.p] else rest
  }

  /** What a slot must hold after exactly the packets `ps`: every section in order, the routing
      vectors without empty ones, and the senders and messages since the last batch. */
  function Collected(mCorrupt: nat, ps: seq<Packet>): Inbox {
    if ps == [] then EMPTY_INBOX
    else
      var slot := Contribute(Collected(mCorrupt, ps[..|ps| - 1]), ps[|ps| - 1]);
      if Filled(mCorrupt, ps) == 0 then slot.(deliver := map[], receivedFrom := map[]) else slot
  }

  /** The number of packets since the last batch. */
  function Filled(mCorrupt: nat, ps: seq<Packet>): nat {
    if ps == [] then 0
    else if Filled(mCorrupt, ps[..|ps| - 1]) + 1 > mCorrupt then 0
    else Filled(mCorrupt, ps[..|ps| - 1]) + 1
  }

  function BatchesAt(batches: seq<Batch>, epoch: int): seq<map<U64, MessageTuple>> {
    if batches == [] then []
    else
      var b := batches[|batches| - 1];
      var rest := BatchesAt(batches[..|batches| - 1], epoch);
      if b.epoch == epoch then rest + [b.messages] else rest
  }

  ghost predicate SlotInvariant(mCorrupt: nat, i: Inbox, ps: seq<Packet>) {
    && i == Collected(mCorrupt, ps)
    && |i.receivedFrom| == Filled(mCorrupt, ps)
    && (forall q :: q in i.receivedFrom ==> i.receivedFrom[q])
  }

  ghost predicate ConsumedInvariant(mCorrupt: nat, log: seq<Logged>, consumed: seq<Inbox>) {
    forall r :: 0 <= r < |consumed| ==> consumed[r] == Collected(mCorrupt, At(log, r - 1))
  }

  ghost predicate TagInvariant(log: seq<Logged>, cur: int) {
    forall e :: e in log ==> -1 <= e.epoch <= cur + 1 && e.p.round == CurWord(e.epoch)
  }

  ghost predicate Invariant(mCorrupt: nat, s: State) {
    && SlotInvariant(mCorrupt, s.now, At(s.log, s.Cur()))
    && SlotInvariant(mCorrupt, s.next, At(s.log, s.Cur() + 1))
    && TagInvariant(s.log, s.Cur())
    && ConsumedInvariant(mCorrupt, s.log, s.consumed)
    && BatchInvariant(mCorrupt, s)
  }

  /** The batches handed over for a round, in terms of the packets accepted for it. */
  function Batched(mCorrupt: nat, ps: seq<Packet>): seq<map<U64, MessageTuple>> {
    if ps == [] then []
    else
      var before := ps[..|ps| - 1];
      var rest := Batched(mCorrupt, before);
      if Filled(mCorrupt, ps) == 0
      then rest + [InsertAll(Collected(mCorrupt, before).deliver, ps[|ps| - 1].deliver)]
      else rest
  }

  ghost predicate BatchInvariant(mCorrupt: nat, s: State) {
    forall epoch :: BatchesAt(s.batches, epoch) == Batched(mCorrupt, At(s.log, epoch))
  }

  lemma AtStep(log: seq<Logged>, e: Logged, epoch: int)
    ensures At(log + [e], epoch) == if e.epoch == epoch then At(log, epoch) + [e.p] else At(log, epoch)
  {
    assert (log + [e])[..|log|] == log;
  }

  lemma {:induction false} NothingAt(log: seq<Logged>, epoch: int)
    requires forall e :: e in log ==> e.epoch < epoch
    ensures At(log, epoch) == []
  {
    if log != [] {
      assert log[|log| - 1] in log;
      NothingAt(log[..|log| - 1], epoch);
    }
  }

  lemma FilledBound(mCorrupt: nat, ps: seq<Packet>)
    ensures Filled(mCorrupt, ps) <= mCorrupt
  {
  }

  /** Accepting one more packet does to a slot what collecting it does. */
  lemma SlotStep(mCorrupt: nat, i: Inbox, ps: seq<Packet>, p: Packet)
    requires SlotInvariant(mCorrupt, i, ps) && !SeenFrom(i, p.sender)
    ensures var slot := Contribute(i, p);
            SlotInvariant(mCorrupt,
                          if |slot.receivedFrom| > mCorrupt then slot.(deliver := map[], receivedFrom := map[])
                          else slot,
                          ps + [p])
  {
    assert (ps + [p])[..|ps|] == ps;
    assert p.sender !in i.receivedFrom;
    assert i.receivedFrom[p.sender := true].Keys == i.receivedFrom.Keys + {p.sender};
    FilledBound(mCorrupt, ps);
  }

  lemma BatchesStep(batches: seq<Batch>, b: Batch, epoch: int)
    ensures BatchesAt(batches + [b], epoch)
         == if b.epoch == epoch then BatchesAt(batches, epoch) + [b.messages] else BatchesAt(batches, epoch)
  {
    assert (batches + [b])[..|batches|] == batches;
  }

  lemma BatchedStep(mCorrupt: nat, i: Inbox, ps: seq<Packet>, p: Packet)
    requires SlotInvariant(mCorrupt, i, ps) && !SeenFrom(i, p.sender)
    ensures Batched(mCorrupt, ps + [p])
         == Batched(mCorrupt, ps)
            + (if |Contribute(i, p).receivedFrom| > mCorrupt then [Contribute(i, p).deliver] else [])
  {
    assert (ps + [p])[..|ps|] == ps;
    assert p.sender !in i.receivedFrom;
    assert i.receivedFrom[p.sender := true].Keys == i.receivedFrom.Keys + {p.sender};
    FilledBound(mCorrupt, ps);
  }

  lemma AcceptKeepsBatches(mCorrupt: nat, s: State, k: int, p: Packet)
    requires BatchInvariant(mCorrupt, s)
    requires SlotInvariant(mCorrupt, s.Slot(k), At(s.log, s.Cur() + k)) && !SeenFrom(s.Slot(k), p.sender)
    ensures BatchInvariant(mCorrupt, Accept(mCorrupt, s, k, p))
  {
    hide At, Collected, Filled, Batched, BatchesAt, Contribute;
    var s' := Accept(mCorrupt, s, k, p);
    var slot := Contribute(s.Slot(k), p);
    var ps := At(s.log, s.Cur() + k);
    SlotStep(mCorrupt, s.Slot(k), ps, p);
    BatchedStep(mCorrupt, s.Slot(k), ps, p);
    forall epoch ensures BatchesAt(s'.batches, epoch) == Batched(mCorrupt, At(s'.log, epoch)) {
      AtStep(s.log, Logged(s.Cur() + k, p), epoch);
      BatchesStep(s.batches, Batch(s.Cur() + k, slot.deliver), epoch);
    }
  }

  lemma AcceptKeepsSlots(mCorrupt: nat, s: State, k: int, p: Packet)
    requires SlotInvariant(mCorrupt, s.now, At(s.log, s.Cur()))
    requires SlotInvariant(mCorrupt, s.next, At(s.log, s.Cur() + 1))
    requires 0 <= k < 2 && !SeenFrom(s.Slot(k), p.sender)
    ensures var s' := Accept(mCorrupt, s, k, p);
            && SlotInvariant(mCorrupt, s'.now, At(s'.log, s'.Cur()))
            && SlotInvariant(mCorrupt, s'.next, At(s'.log, s'.Cur() + 1))
  {
    hide At, Collected, Filled, Contribute;
    var e := Logged(s.Cur() + k, p);
    SlotStep(mCorrupt, s.Slot(k), At(s.log, s.Cur() + k), p);
    AtStep(s.log, e, s.Cur());
    AtStep(s.log, e, s.Cur() + 1);
  }

  lemma LoggingKeepsConsumed(mCorrupt: nat, log: seq<Logged>, consumed: seq<Inbox>, e: Logged)
    requires ConsumedInvariant(mCorrupt, log, consumed) && e.epoch >= |consumed| - 1
    ensures ConsumedInvariant(mCorrupt, log + [e], consumed)
  {
    forall epoch | epoch < |consumed| - 1 ensures At(log + [e], epoch) == At(log, epoch) {
      AtStep(log, e, epoch);
    }
  }

  lemma AcceptKeepsInvariant(own: Peer, mCorrupt: nat, s: State, p: Packet)
    requires Invariant(mCorrupt, s) && Receive(own, s, p).Accepted?
    ensures Invariant(mCorrupt, Accept(mCorrupt, s, Receive(own, s, p).slot, p))
  {
    hide At, Collected, Filled, Batched, BatchesAt;
    var k := Receive(own, s, p).slot;
    AcceptKeepsSlots(mCorrupt, s, k, p);
    AcceptKeepsBatches(mCorrupt, s, k, p);
    LoggingKeepsConsumed(mCorrupt, s.log, s.consumed, Logged(s.Cur() + k, p));
    TagOfEpoch(s.Cur(), p.round, k);
  }

  lemma TagOfEpoch(cur: int, round: U64, k: int)
    requires CurWord(cur) <= round && k == round - CurWord(cur)
    ensures CurWord(cur + k) == round
  {
  }

  lemma EndRoundKeepsInvariant(mCorrupt: nat, s: State)
    requires Invariant(mCorrupt, s)
    ensures Invariant(mCorrupt, EndRound(s))
  {
    hide At, BatchesAt, Batched;
    NothingAt(s.log, s.Cur() + 2);
  }

  lemma {:induction false} RunKeepsInvariant(own: Peer, mCorrupt: nat, events: seq<Event>)
    requires Run(own, mCorrupt, events).Some?
    ensures Invariant(mCorrupt, Run(own, mCorrupt, events).value)
  {
    if events != [] {
      RunKeepsInvariant(own, mCorrupt, events[..|events| - 1]);
      var s := Run(own, mCorrupt, events[..|events| - 1]).value;
      match events[|events| - 1]
      case RoundEvent => EndRoundKeepsInvariant(mCorrupt, s);
      case PacketEvent(p) =>
        if Receive(own, s, p).Accepted? { AcceptKeepsInvariant(own, mCorrupt, s, p); }
    }
  }

  // ---------------------------------------------------------------- theorems about runs

  function Concat<T>(f: Packet -> seq<T>, ps: seq<Packet>): seq<T> {
    if ps == [] then [] else Concat(f, ps[..|ps| - 1]) + f(ps[|ps| - 1])
  }

  function Senders(ps: seq<Packet>): set<Peer> { set p | p in ps :: p.sender }

  /** The packets since the last batch. */
  function SinceBatch(mCorrupt: nat, ps: seq<Packet>): seq<Packet>
    requires Filled(mCorrupt, ps) <= |ps|
  {
    ps[|ps| - Filled(mCorrupt, ps)..]
  }

  /** The messages the packets `ps` deliver, in the order of their arrival. */
  function Arrived(ps: seq<Packet>): seq<MessageTuple> { Concat((p: Packet) => p.deliver, ps) }

  /** The message kept for each delivery time: the first one. */
  function FirstPerTime(ps: seq<Packet>): map<U64, MessageTuple> {
    InsertAll(map[], Arrived(ps))
  }

  lemma {:induction false} CollectedSections(mCorrupt: nat, ps: seq<Packet>)
    ensures var i := Collected(mCorrupt, ps);
            && i.structure == Concat((p: Packet) => p.structure, ps)
            && i.announce == Concat((p: Packet) => p.announce, ps)
            && i.agreement == Concat((p: Packet) => p.agreement, ps)
            && i.inject == Concat((p: Packet) => p.inject, ps)
            && i.routing == Concat((p: Packet) => if p.routing == [] then [] else [p.routing], ps)
            && i.predeliver == Concat((p: Packet) => p.predeliver, ps)
  {
    if ps != [] { CollectedSections(mCorrupt, ps[..|ps| - 1]); }
  }

  lemma {:induction false} FilledWithin(mCorrupt: nat, ps: seq<Packet>)
    ensures Filled(mCorrupt, ps) <= |ps| && Filled(mCorrupt, ps) <= mCorrupt
  {
    if ps != [] { FilledWithin(mCorrupt, ps[..|ps| - 1]); }
  }

  lemma {:induction false} InsertAllTwice(m: map<U64, MessageTuple>, s: seq<MessageTuple>, t: seq<MessageTuple>)
    ensures InsertAll(InsertAll(m, s), t) == InsertAll(m, s + t)
  {
    if t == [] {
      assert s + t == s;
    } else {
      assert (s + t)[..|s + t| - 1] == s + t[..|t| - 1];
      InsertAllTwice(m, s, t[..|t| - 1]);
    }
  }

  lemma SinceBatchStep(mCorrupt: nat, before: seq<Packet>, p: Packet)
    requires Filled(mCorrupt, before) <= |before| && Filled(mCorrupt, before + [p]) <= |before| + 1
    ensures SinceBatch(mCorrupt, before + [p])
         == if Filled(mCorrupt, before + [p]) == 0 then [] else SinceBatch(mCorrupt, before) + [p]
  {
    assert (before + [p])[..|before|] == before;
  }

  lemma {:induction false} CollectedSenders(mCorrupt: nat, ps: seq<Packet>)
    requires Filled(mCorrupt, ps) <= |ps|
    ensures Collected(mCorrupt, ps).receivedFrom.Keys == Senders(SinceBatch(mCorrupt, ps))
  {
    NoSenders();
    if ps != [] {
      var before, p := ps[..|ps| - 1], ps[|ps| - 1];
      assert ps == before + [p];
      FilledWithin(mCorrupt, before);
      CollectedSenders(mCorrupt, before);
      SinceBatchStep(mCorrupt, before, p);
      SendersStep(mCorrupt, before, p);
      hide Collected, Filled, SinceBatch, Senders;
      SendersGrow(SinceBatch(mCorrupt, before), p);
    }
  }

  lemma SendersGrow(ps: seq<Packet>, p: Packet)
    ensures Senders(ps + [p]) == Senders(ps) + {p.sender}
  {
  }

  lemma NoSenders()
    ensures Senders([]) == {}
  {
  }

  lemma SendersStep(mCorrupt: nat, before: seq<Packet>, p: Packet)
    ensures Collected(mCorrupt, before + [p]).receivedFrom.Keys
         == if Filled(mCorrupt, before + [p]) == 0 then {}
            else Collected(mCorrupt, before).receivedFrom.Keys + {p.sender}
  {
    assert (before + [p])[..|before|] == before;
    hide Filled, InsertAll;
  }

  lemma {:induction false} CollectedDelivery(mCorrupt: nat, ps: seq<Packet>)
    requires Filled(mCorrupt, ps) <= |ps|
    ensures Collected(mCorrupt, ps).deliver == FirstPerTime(SinceBatch(mCorrupt, ps))
  {
    if ps != [] {
      var before, p := ps[..|ps| - 1], ps[|ps| - 1];
      assert ps == before + [p];
      FilledWithin(mCorrupt, before);
      CollectedDelivery(mCorrupt, before);
      SinceBatchStep(mCorrupt, before, p);
      FirstPerTimeStep(SinceBatch(mCorrupt, before), p);
    }
  }

  lemma FirstPerTimeStep(ps: seq<Packet>, p: Packet)
    ensures FirstPerTime(ps + [p]) == InsertAll(FirstPerTime(ps), p.deliver)
  {
    assert (ps + [p])[..|ps|] == ps;
    InsertAllTwice(map[], Arrived(ps), p.deliver);
  }

  /** Slot 0 holds exactly the accepted contributions tagged with the current round, slot 1 those
      tagged with the next; and what was consumed in round r is exactly what is, now and for ever,
      accepted under tag r - 1 - in whichever of the two rounds before it arrived. */
  lemma InboxesRefineTagMap(own: Peer, mCorrupt: nat, events: seq<Event>)
    requires Run(own, mCorrupt, events).Some?
    ensures var s := Run(own, mCorrupt, events).value;
            && s.now == Collected(mCorrupt, At(s.log, s.Cur()))
            && s.next == Collected(mCorrupt, At(s.log, s.Cur() + 1))
            && (forall r :: 0 <= r < |s.consumed| ==> s.consumed[r] == Collected(mCorrupt, At(s.log, r - 1)))
            && (forall e :: e in s.log ==> e.p.round == CurWord(e.epoch) && -1 <= e.epoch <= s.Cur() + 1)
  {
    hide At, Collected, Filled, Batched, BatchesAt, Run;
    RunKeepsInvariant(own, mCorrupt, events);
  }

  /** Between calls a slot remembers the senders of the packets since its last batch, each of them
      once, and never more than m_corrupt of them. */
  lemma SendersBounded(own: Peer, mCorrupt: nat, events: seq<Event>, k: int)
    requires Run(own, mCorrupt, events).Some? && 0 <= k < 2
    ensures var s := Run(own, mCorrupt, events).value;
            var ps := At(s.log, s.Cur() + k);
            && Filled(mCorrupt, ps) <= |ps|
            && s.Slot(k).receivedFrom.Keys == Senders(SinceBatch(mCorrupt, ps))
            && |s.Slot(k).receivedFrom| == |SinceBatch(mCorrupt, ps)| <= mCorrupt
            && s.Slot(k).deliver == FirstPerTime(SinceBatch(mCorrupt, ps))
  {
    hide At, Collected, Filled, Batched, BatchesAt, Run, Senders, FirstPerTime;
    RunKeepsInvariant(own, mCorrupt, events);
    var s := Run(own, mCorrupt, events).value;
    FilledWithin(mCorrupt, At(s.log, s.Cur() + k));
    CollectedDelivery(mCorrupt, At(s.log, s.Cur() + k));
    CollectedSenders(mCorrupt, At(s.log, s.Cur() + k));
  }

  lemma {:induction false} FilledIsRemainder(mCorrupt: nat, ps: seq<Packet>)
    ensures |Batched(mCorrupt, ps)| * (mCorrupt + 1) + Filled(mCorrupt, ps) == |ps|
  {
    if ps != [] {
      FilledIsRemainder(mCorrupt, ps[..|ps| - 1]);
      var b := |Batched(mCorrupt, ps[..|ps| - 1])|;
      assert (b + 1) * (mCorrupt + 1) == b * (mCorrupt + 1) + mCorrupt + 1;
    }
  }

  /** Messages are handed over once for every m_corrupt + 1 packets accepted for a round: at least
      once exactly if more than m_corrupt were accepted, and - contrary to the comment in the
      source - again each time as many have come. */
  lemma DeliveredOncePerQuorum(own: Peer, mCorrupt: nat, events: seq<Event>, epoch: int)
    requires Run(own, mCorrupt, events).Some?
    ensures var s := Run(own, mCorrupt, events).value;
            var n := |At(s.log, epoch)|;
            && |BatchesAt(s.batches, epoch)| == n / (mCorrupt + 1)
            && (|BatchesAt(s.batches, epoch)| == 1 <==> mCorrupt < n < 2 * (mCorrupt + 1))
            && BatchesAt(s.batches, epoch) == Batched(mCorrupt, At(s.log, epoch))
  {
    hide At, Collected, BatchesAt, Batched, Filled, Run;
    RunKeepsInvariant(own, mCorrupt, events);
    var s := Run(own, mCorrupt, events).value;
    var ps := At(s.log, epoch);
    assert BatchesAt(s.batches, epoch) == Batched(mCorrupt, ps);
    FilledIsRemainder(mCorrupt, ps);
    FilledWithin(mCorrupt, ps);
    var b := |Batched(mCorrupt, ps)|;
    DivUnique(|ps|, mCorrupt + 1, b, Filled(mCorrupt, ps));
    ProductSign(mCorrupt + 1, b - 1);
    ProductSign(mCorrupt + 1, b - 2);
    assert (mCorrupt + 1) * (b - 1) == b * (mCorrupt + 1) - (mCorrupt + 1);
    assert (mCorrupt + 1) * (b - 2) == b * (mCorrupt + 1) - 2 * (mCorrupt + 1);
  }

  /** A packet without entries, from the peer with number `k`, for round 0. */
  function NumberedPacket(own: Peer, k: U64): Packet {
    Packet(Peer(k, Uri(0, 0, 0, 0, 0)), own, 0, [], [], [], [], [], [], [])
  }

  /** The run of round 0 in which `n` different senders are heard. */
  function HearAll(own: Peer, n: nat): seq<Event>
    requires n <= TWO_64
  {
    if n == 0 then [RoundEvent] else HearAll(own, n - 1) + [PacketEvent(NumberedPacket(own, n - 1))]
  }

  /** The run is in round 0 and has accepted packets from `n` peers with numbers below n. */
  ghost predicate Heard(own: Peer, mCorrupt: nat, events: seq<Event>, n: nat) {
    && Run(own, mCorrupt, events).Some?
    && var s := Run(own, mCorrupt, events).value;
       s.Cur() == 0 && |At(s.log, 0)| == n && forall p :: p in At(s.log, 0) ==> p.sender.id < n
  }

  lemma {:induction false} HearAllRun(own: Peer, mCorrupt: nat, n: nat)
    requires n <= TWO_64
    ensures Heard(own, mCorrupt, HearAll(own, n), n)
  {
    hide Heard;
    if n == 0 {
      HeardNothing(own, mCorrupt);
    } else {
      HearAllRun(own, mCorrupt, n - 1);
      HearNext(own, mCorrupt, HearAll(own, n - 1), n - 1);
    }
  }

  lemma HeardNothing(own: Peer, mCorrupt: nat)
    ensures Heard(own, mCorrupt, [RoundEvent], 0)
  {
    assert [RoundEvent][..0] == [];
    assert Run(own, mCorrupt, []) == Some(INITIAL);
    assert Run(own, mCorrupt, [RoundEvent]) == Some(EndRound(INITIAL));
    hide Run;
  }

  lemma HearNext(own: Peer, mCorrupt: nat, events: seq<Event>, k: U64)
    requires Heard(own, mCorrupt, events, k)
    ensures Heard(own, mCorrupt, events + [PacketEvent(NumberedPacket(own, k))], k + 1)
  {
    hide At, Run;
    var p := NumberedPacket(own, k);
    var s := Run(own, mCorrupt, events).value;
    HearOneMore(own, mCorrupt, events, p);
    AtStep(s.log, Logged(0, p), 0);
  }

  lemma RunExtends(own: Peer, mCorrupt: nat, events: seq<Event>, e: Event)
    requires Run(own, mCorrupt, events).Some?
    ensures Run(own, mCorrupt, events + [e]) == Apply(own, mCorrupt, Run(own, mCorrupt, events).value, e)
  {
    assert (events + [e])[..|events|] == events;
    hide Apply;
  }

  lemma AcceptNow(own: Peer, mCorrupt: nat, s: State, p: Packet)
    requires s.Cur() == 0 && p.receiver == own && p.round == 0 && !SeenFrom(s.now, p.sender)
    ensures Receive(own, s, p) == Accepted(0)
    ensures Accept(mCorrupt, s, 0, p).log == s.log + [Logged(0, p)] && Accept(mCorrupt, s, 0, p).Cur() == 0
  {
    hide Contribute, SeenFrom;
  }

  /** One more sender in round 0. */
  lemma HearOneMore(own: Peer, mCorrupt: nat, events: seq<Event>, p: Packet)
    requires Run(own, mCorrupt, events).Some? && Run(own, mCorrupt, events).value.Cur() == 0
    requires p.receiver == own && p.round == 0
    requires forall q :: q in At(Run(own, mCorrupt, events).value.log, 0) ==> q.sender != p.sender
    ensures var s := Run(own, mCorrupt, events).value;
            var run := Run(own, mCorrupt, events + [PacketEvent(p)]);
            run.Some? && run.value.log == s.log + [Logged(0, p)] && run.value.Cur() == 0
  {
    hide Run, At, Filled, Senders, FirstPerTime, SeenFrom, Receive, Accept;
    var s := Run(own, mCorrupt, events).value;
    SendersBounded(own, mCorrupt, events, 0);
    NotSeen(mCorrupt, s, p);
    AcceptNow(own, mCorrupt, s, p);
    RunExtends(own, mCorrupt, events, PacketEvent(p));
  }

  lemma NotSeen(mCorrupt: nat, s: State, p: Packet)
    requires Filled(mCorrupt, At(s.log, s.Cur())) <= |At(s.log, s.Cur())|
    requires s.now.receivedFrom.Keys == Senders(SinceBatch(mCorrupt, At(s.log, s.Cur())))
    requires forall q :: q in At(s.log, s.Cur()) ==> q.sender != p.sender
    ensures !SeenFrom(s.now, p.sender)
  {
    hide At, Filled;
  }

  /** A run that hands messages over twice in one round: 2 (m_corrupt + 1) senders are heard. */
  lemma HandedOverTwice(own: Peer, mCorrupt: nat)
    requires 2 * (mCorrupt + 1) <= TWO_64
    ensures var run := Run(own, mCorrupt, HearAll(own, 2 * (mCorrupt + 1)));
            run.Some? && |BatchesAt(run.value.batches, 0)| == 2
  {
    hide Run, HearAll, At, BatchesAt, Batched;
    var n := 2 * (mCorrupt + 1);
    HearAllRun(own, mCorrupt, n);
    DeliveredOncePerQuorum(own, mCorrupt, HearAll(own, n), 0);
    DivUnique(n, mCorrupt + 1, 2, 0);
  }

  // ---------------------------------------------------------------- what the replay check forgets

  /** Packets of one sender stand in different groups of m_corrupt + 1. */
  ghost predicate RepeatsApart(mCorrupt: nat, ps: seq<Packet>) {
    forall i, j :: 0 <= i < j < |ps| && ps[i].sender == ps[j].sender ==> i / (mCorrupt + 1) != j / (mCorrupt + 1)
  }

  /** Where the packets since the last batch begin. */
  lemma SinceBatchStarts(mCorrupt: nat, ps: seq<Packet>, i: nat)
    requires i < |ps| && i / (mCorrupt + 1) == |ps| / (mCorrupt + 1)
    ensures Filled(mCorrupt, ps) <= |ps| && |ps| - Filled(mCorrupt, ps) <= i
  {
    FilledWithin(mCorrupt, ps);
    FilledIsRemainder(mCorrupt, ps);
    hide Filled, Batched;
    var n, b := mCorrupt + 1, |Batched(mCorrupt, ps)|;
    DivUnique(|ps|, n, b, Filled(mCorrupt, ps));
    assert i == n * (i / n) + i % n;
  }

  lemma SameGroupSender(mCorrupt: nat, ps: seq<Packet>, i: nat)
    requires i < |ps| && i / (mCorrupt + 1) == |ps| / (mCorrupt + 1) && Filled(mCorrupt, ps) <= |ps|
    ensures ps[i].sender in Senders(SinceBatch(mCorrupt, ps))
  {
    hide Filled;
    SinceBatchStarts(mCorrupt, ps, i);
    assert SinceBatch(mCorrupt, ps)[i - (|ps| - Filled(mCorrupt, ps))] == ps[i];
  }

  /** One more packet, from a sender not heard since the last batch. */
  lemma RepeatsStayApart(mCorrupt: nat, ps: seq<Packet>, p: Packet)
    requires RepeatsApart(mCorrupt, ps) && Filled(mCorrupt, ps) <= |ps|
    requires p.sender !in Senders(SinceBatch(mCorrupt, ps))
    ensures RepeatsApart(mCorrupt, ps + [p])
  {
    hide Filled;
    forall i | 0 <= i < |ps| && ps[i].sender == p.sender
      ensures i / (mCorrupt + 1) != |ps| / (mCorrupt + 1)
    {
      if i / (mCorrupt + 1) == |ps| / (mCorrupt + 1) {
        SameGroupSender(mCorrupt, ps, i);
      }
    }
  }

  lemma AcceptKeepsApart(own: Peer, mCorrupt: nat, s: State, p: Packet, epoch: int)
    requires Invariant(mCorrupt, s) && Receive(own, s, p).Accepted? && RepeatsApart(mCorrupt, At(s.log, epoch))
    ensures RepeatsApart(mCorrupt, At(Accept(mCorrupt, s, Receive(own, s, p).slot, p).log, epoch))
  {
    hide RepeatsApart, At, Collected, Filled, Batched, BatchesAt, Senders, Contribute;
    var k := Receive(own, s, p).slot;
    AtStep(s.log, Logged(s.Cur() + k, p), epoch);
    if epoch == s.Cur() + k {
      var ps := At(s.log, epoch);
      FilledWithin(mCorrupt, ps);
      CollectedSenders(mCorrupt, ps);
      SlotSenders(mCorrupt, s.Slot(k), ps, p.sender);
      RepeatsStayApart(mCorrupt, ps, p);
    }
  }

  lemma SlotSenders(mCorrupt: nat, i: Inbox, ps: seq<Packet>, sender: Peer)
    requires SlotInvariant(mCorrupt, i, ps) && !SeenFrom(i, sender)
    ensures sender !in Collected(mCorrupt, ps).receivedFrom.Keys
  {
    hide Collected, Filled;
  }

  lemma {:induction false} RunKeepsApart(own: Peer, mCorrupt: nat, events: seq<Event>, epoch: int)
    requires Run(own, mCorrupt, events).Some?
    ensures RepeatsApart(mCorrupt, At(Run(own, mCorrupt, events).value.log, epoch))
  {
    hide RepeatsApart, Receive, Accept;
    if events != [] {
      var front := events[..|events| - 1];
      RunKeepsApart(own, mCorrupt, front, epoch);
      RunKeepsInvariant(own, mCorrupt, front);
      StepKeepsApart(own, mCorrupt, Run(own, mCorrupt, front).value, events[|events| - 1], epoch);
    } else {
      NothingApart(mCorrupt, epoch);
    }
  }

  lemma NothingApart(mCorrupt: nat, epoch: int)
    ensures RepeatsApart(mCorrupt, At([], epoch))
  {
  }

  lemma StepKeepsApart(own: Peer, mCorrupt: nat, s: State, e: Event, epoch: int)
    requires Invariant(mCorrupt, s) && RepeatsApart(mCorrupt, At(s.log, epoch)) && Apply(own, mCorrupt, s, e).Some?
    ensures RepeatsApart(mCorrupt, At(Apply(own, mCorrupt, s, e).value.log, epoch))
  {
    hide RepeatsApart, Receive, Accept, Invariant, At;
    if e.PacketEvent? && Receive(own, s, e.p).Accepted? { AcceptKeepsApart(own, mCorrupt, s, e.p, epoch); }
  }

  /** In every run: the replay check keeps the packets of one sender for one round apart only as far as
      the next batch - two accepted ones never lie in the same group of m_corrupt + 1. */
  lemma AcceptedTwiceOnlyApart(own: Peer, mCorrupt: nat, events: seq<Event>, epoch: int, i: nat, j: nat)
    requires Run(own, mCorrupt, events).Some? && i < j < |At(Run(own, mCorrupt, events).value.log, epoch)|
    requires var ps := At(Run(own, mCorrupt, events).value.log, epoch); ps[i].sender == ps[j].sender
    ensures i / (mCorrupt + 1) != j / (mCorrupt + 1)
  {
    hide Run, At;
    RunKeepsApart(own, mCorrupt, events, epoch);
  }

  /** And they can lie in different ones: with m_corrupt = 0 a packet for round 0 is accepted as often
      as it comes. */
  lemma Replayed(own: Peer, p: Packet)
    requires p.receiver == own && p.round == 0
    ensures var run := Run(own, 0, [RoundEvent, PacketEvent(p), PacketEvent(p)]);
            run.Some? && At(run.value.log, 0) == [p, p]
  {
    var once := [RoundEvent, PacketEvent(p)];
    OnePacket(own, p);
    assert once + [PacketEvent(p)] == [RoundEvent, PacketEvent(p), PacketEvent(p)];
    RunExtends(own, 0, once, PacketEvent(p));
    hide Run;
    var s := Run(own, 0, once).value;
    AcceptNow(own, 0, s, p);
    AtStep([], Logged(0, p), 0);
    AtStep([Logged(0, p)], Logged(0, p), 0);
    hide At;
    assert [Logged(0, p)] == [] + [Logged(0, p)];
  }

  /** The run of round 0 in which one packet comes, with m_corrupt = 0. */
  lemma OnePacket(own: Peer, p: Packet)
    requires p.receiver == own && p.round == 0
    ensures var run := Run(own, 0, [RoundEvent, PacketEvent(p)]);
            && run.Some? && run.value.Cur() == 0 && run.value.log == [Logged(0, p)]
            && !SeenFrom(run.value.now, p.sender)
            && run.value.batches == [Batch(0, InsertAll(map[], p.deliver))]
  {
    assert [RoundEvent][..0] == [];
    assert Run(own, 0, []) == Some(INITIAL);
    assert Run(own, 0, [RoundEvent]) == Some(EndRound(INITIAL));
    RunExtends(own, 0, [RoundEvent], PacketEvent(p));
    assert [RoundEvent] + [PacketEvent(p)] == [RoundEvent, PacketEvent(p)];
    hide Run, InsertAll;
    AcceptNow(own, 0, EndRound(INITIAL), p);
  }

  /** A run in which a batch loses a message: a packet delivers two for the same time. */
  lemma DeliveryLost(own: Peer, p: Packet, a: MessageTuple, b: MessageTuple)
    requires p.receiver == own && p.round == 0 && p.deliver == [a, b] && a.tDst == b.tDst && a != b
    ensures var run := Run(own, 0, [RoundEvent, PacketEvent(p)]);
            run.Some? && |run.value.batches| == 1 && b !in run.value.batches[0].messages.Values
  {
    OnePacket(own, p);
    hide Run;
    assert [a, b][..1] == [a] && [a][..0] == [];
    assert InsertAll(map[], [a]) == map[a.tDst := a];
    assert InsertAll(map[], [a, b]) == map[a.tDst := a];
  }

  // ---------------------------------------------------------------- what delivery loses

  /** No two different messages share a delivery time. */
  ghost predicate OnePerTime(ms: seq<MessageTuple>) {
    forall i, j :: 0 <= i < |ms| && 0 <= j < |ms| && ms[i].tDst == ms[j].tDst ==> ms[i] == ms[j]
  }

  lemma {:induction false} InsertAllFromNothing(ms: seq<MessageTuple>)
    ensures forall t :: t in InsertAll(map[], ms) ==> InsertAll(map[], ms)[t] in ms && InsertAll(map[], ms)[t].tDst == t
    ensures forall m :: m in ms ==> m.tDst in InsertAll(map[], ms)
  {
    if ms != [] {
      InsertAllFromNothing(ms[..|ms| - 1]);
      assert ms == ms[..|ms| - 1] + [ms[|ms| - 1]];
    }
  }

  lemma KeepsAllIff(ms: seq<MessageTuple>)
    ensures (forall m :: m in ms ==> m in InsertAll(map[], ms).Values) <==> OnePerTime(ms)
  {
    InsertAllFromNothing(ms);
    hide InsertAll;
    var kept := InsertAll(map[], ms);
    if OnePerTime(ms) {
      forall m | m in ms ensures m in kept.Values { assert kept[m.tDst] == m; }
    }
    if forall m :: m in ms ==> m in kept.Values {
      forall i, j | 0 <= i < |ms| && 0 <= j < |ms| && ms[i].tDst == ms[j].tDst ensures ms[i] == ms[j] {
        assert ms[i] in ms && ms[j] in ms;
        assert kept[ms[i].tDst] == ms[i] && kept[ms[j].tDst] == ms[j];
      }
    }
  }

  /** `batch` is what the n-th group of m_corrupt + 1 packets, one after another, delivered. */
  ghost predicate IsBlock(mCorrupt: nat, ps: seq<Packet>, n: nat, batch: map<U64, MessageTuple>) {
    && Product(n, mCorrupt + 1) <= Product(n + 1, mCorrupt + 1) <= |ps|
    && batch == FirstPerTime(ps[Product(n, mCorrupt + 1)..Product(n + 1, mCorrupt + 1)])
  }

  lemma BlockStays(mCorrupt: nat, before: seq<Packet>, p: Packet, n: nat, batch: map<U64, MessageTuple>)
    requires IsBlock(mCorrupt, before, n, batch)
    ensures IsBlock(mCorrupt, before + [p], n, batch)
  {
    hide Product, FirstPerTime;
    var lo, hi := Product(n, mCorrupt + 1), Product(n + 1, mCorrupt + 1);
    assert (before + [p])[lo..hi] == before[lo..hi];
  }

  lemma {:induction false} BatchIsBlock(mCorrupt: nat, ps: seq<Packet>, n: nat)
    requires n < |Batched(mCorrupt, ps)|
    ensures IsBlock(mCorrupt, ps, n, Batched(mCorrupt, ps)[n])
  {
    assert ps != [];
    hide Batched, IsBlock, Filled;
    var last := |ps| - 1;
    var before := ps[..last];
    assert before + [ps[last]] == ps;
    BatchedGrows(mCorrupt, before, ps[last]);
    if n < |Batched(mCorrupt, before)| {
      BatchIsBlock(mCorrupt, before, n);
      BlockStays(mCorrupt, before, ps[last], n, Batched(mCorrupt, before)[n]);
    } else {
      BlockEnds(mCorrupt, before, ps[last]);
    }
  }

  lemma BatchedGrows(mCorrupt: nat, before: seq<Packet>, p: Packet)
    ensures var old', new' := Batched(mCorrupt, before), Batched(mCorrupt, before + [p]);
            && |new'| == |old'| + (if Filled(mCorrupt, before + [p]) == 0 then 1 else 0)
            && old' <= new'
  {
    assert (before + [p])[..|before|] == before;
    hide Filled, Collected, InsertAll;
  }

  /** A batch that is completed by one more packet. */
  lemma BlockEnds(mCorrupt: nat, before: seq<Packet>, p: Packet)
    requires Filled(mCorrupt, before + [p]) == 0
    ensures var n := |Batched(mCorrupt, before)|;
            && |Batched(mCorrupt, before + [p])| == n + 1
            && IsBlock(mCorrupt, before + [p], n, Batched(mCorrupt, before + [p])[n])
  {
    assert (before + [p])[..|before|] == before;
    FilledWithin(mCorrupt, before);
    CollectedDelivery(mCorrupt, before);
    FirstPerTimeStep(SinceBatch(mCorrupt, before), p);
    FilledIsRemainder(mCorrupt, before);
    var n := |Batched(mCorrupt, before)|;
    ProductIsMultiplication(n, mCorrupt + 1);
    ProductPlus(n, 1, mCorrupt + 1);
    var lo := Product(n, mCorrupt + 1);
    assert Filled(mCorrupt, before) == mCorrupt && |before| == lo + mCorrupt;
    EndOfBlock(mCorrupt, before, p, lo, Product(n + 1, mCorrupt + 1));
  }

  lemma EndOfBlock(mCorrupt: nat, before: seq<Packet>, p: Packet, lo: nat, hi: nat)
    requires Filled(mCorrupt, before) == mCorrupt <= |before| && |before| == lo + mCorrupt && hi == lo + mCorrupt + 1
    ensures SinceBatch(mCorrupt, before) + [p] == (before + [p])[lo..hi]
  {
    hide Filled;
  }

  /** In every run: a batch hands over every message that arrived for it iff no two different ones
      share a delivery time. */
  lemma BatchLosesNothingIff(own: Peer, mCorrupt: nat, events: seq<Event>, epoch: int, n: nat)
    requires Run(own, mCorrupt, events).Some? && n < |BatchesAt(Run(own, mCorrupt, events).value.batches, epoch)|
    ensures var s := Run(own, mCorrupt, events).value;
            var lo, hi := Product(n, mCorrupt + 1), Product(n + 1, mCorrupt + 1);
            && lo <= hi <= |At(s.log, epoch)|
            && var ms := Arrived(At(s.log, epoch)[lo..hi]);
               (forall m :: m in ms ==> m in BatchesAt(s.batches, epoch)[n].Values) <==> OnePerTime(ms)
  {
    RunKeepsInvariant(own, mCorrupt, events);
    var s := Run(own, mCorrupt, events).value;
    hide At, Collected, BatchesAt, Batched, Filled, Run, OnePerTime, InsertAll, SlotInvariant, Product;
    assert BatchesAt(s.batches, epoch) == Batched(mCorrupt, At(s.log, epoch));
    BatchIsBlock(mCorrupt, At(s.log, epoch), n);
    KeepsAllIff(Arrived(At(s.log, epoch)[Product(n, mCorrupt + 1)..Product(n + 1, mCorrupt + 1)]));
  }
}

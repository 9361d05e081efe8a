/** What the packets of a round that is carried out hold, section by section, in terms of what the client
    knew and heard. Tables, pseudonyms and numbers are written out here; none of the functions by which
    a round is computed says what a section is. */
module RoundSections {
  import opened Bits
  import opened Ordering
  import opened Outbound
  import opened QuorumVote
  import opened RoundWork
  import opened Rounds
  import opened Sequences
  import opened Structures
  import Agreement
  import RoutingScheme

  /** `i` is listed under onid `o`. */
  ghost predicate Listed(t: Table, o: U64, i: Peer) { o in t && i in t[o] }

  ghost predicate HasPacket(packets: seq<Packet>, i: Peer) {
    exists p :: p in packets && p.receiver == i
  }

  // ---------------------------------------------------------------- from maps to sections

  lemma {:induction false} FilterAlike<T>(p: T -> bool, q: T -> bool, s: seq<T>)
    requires forall x :: x in s ==> p(x) == q(x)
    ensures Filter(p, s) == Filter(q, s)
  {
    if s != [] {
      assert s[|s| - 1] in s;
      FilterAlike(p, q, s[..|s| - 1]);
    }
  }

  /** The sections of the packet for one recipient are its entries of the padded maps. */
  lemma PacketOf(s: Setting, tr: Trace, padded: OutMaps, packets: seq<Packet>, p: Packet)
    requires 2 * s.c.dimension < 64 && CarriedOut(s, tr, padded, packets) && p in packets
    ensures p == PacketFor(s.own, p.receiver, (s.cur + 1) % TWO_64, padded)
    ensures IsPadded(LimitsOf(s.c, s.maxRouting, s.ov), s.ov, MapsOf(s, tr), padded)
  {
    hide VotesHeld, RoutedBy, SourcesKnown, IsOutput, IsPadded, MapsOf, LimitsOf, AllKeys;
    OnePacketPerRecipient(s.own, (s.cur + 1) % TWO_64, padded, packets);
  }

  lemma KeyHasPacket(s: Setting, tr: Trace, padded: OutMaps, packets: seq<Packet>, i: Peer)
    requires 2 * s.c.dimension < 64 && CarriedOut(s, tr, padded, packets) && i in AllKeys(padded)
    ensures HasPacket(packets, i)
  {
    hide VotesHeld, RoutedBy, SourcesKnown, IsOutput, IsPadded, MapsOf, LimitsOf, AllKeys;
    PacketForKey(s.own, (s.cur + 1) % TWO_64, padded, packets, i);
  }

  /** Of the three maps that are not padded. */
  lemma PlainMaps(s: Setting, tr: Trace, padded: OutMaps)
    requires IsPadded(LimitsOf(s.c, s.maxRouting, s.ov), s.ov, MapsOf(s, tr), padded)
    ensures padded.agreement == Filled(AgreementEntries(tr.sends))
    ensures padded.inject == Filled(InjectEntries(s, tr.finals))
    ensures padded.structure == s.ov.structure
  {
    hide Filled, Broadcast, InjectEntries, AgreementEntries, Padded, Fits, RoutingPadded;
  }

  lemma PaddedMaps(s: Setting, tr: Trace, padded: OutMaps)
    requires IsPadded(LimitsOf(s.c, s.maxRouting, s.ov), s.ov, MapsOf(s, tr), padded)
    ensures var n := s.c.kSend * s.c.kAMax;
            padded.announce == Padded(Filled(Broadcast(tr.popped, s.ov.gammaSend)), s.ov.gammaSend, n, DUMMY)
    ensures var own, n := RouteAt(s.ov.gammaRoute, s.ov.onidEmul), s.c.kRecv * s.c.kAMax * |s.ov.gammaReceive|;
            padded.predeliver == Padded(Filled(Broadcast(PredeliverItems(s, tr), own)), own, n, DUMMY)
    ensures var n := s.c.kRecv * s.c.kAMax;
            padded.deliver == Padded(Filled(DeliverEntries(s, tr)), s.ov.gammaReceive, n, DUMMY)
  {
    hide Filled, Broadcast, InjectEntries, AgreementEntries, Padded, Fits, RoutingPadded, PredeliverItems,
         DeliverEntries;
  }

  // ---------------------------------------------------------------- header

  /** Every packet names its sender, is meant for the next round, carries the overlay messages for its
      recipient, and is the only one for it. */
  lemma Header(s: Setting, tr: Trace, padded: OutMaps, packets: seq<Packet>)
    requires 2 * s.c.dimension < 64 && CarriedOut(s, tr, padded, packets)
    ensures forall p :: p in packets ==>
              && p.sender == s.own && p.round == (s.cur + 1) % TWO_64
              && p.structure == (if p.receiver in s.ov.structure then s.ov.structure[p.receiver] else [])
    ensures forall j, k :: 0 <= j < k < |packets| ==> packets[j].receiver != packets[k].receiver
    ensures forall i :: i in s.ov.structure ==> HasPacket(packets, i)
  {
    hide CarriedOut, Padded, MapsOf, LimitsOf, Filled, IsPadded;
    Receivers(s, tr, padded, packets);
    forall p | p in packets
      ensures p.sender == s.own && p.round == (s.cur + 1) % TWO_64
      ensures p.structure == (if p.receiver in s.ov.structure then s.ov.structure[p.receiver] else [])
    {
      PacketOf(s, tr, padded, packets, p);
      PlainMaps(s, tr, padded);
    }
    forall i | i in s.ov.structure ensures HasPacket(packets, i) {
      CarriedOutPadded(s, tr, padded, packets);
      PlainMaps(s, tr, padded);
      KeyHasPacket(s, tr, padded, packets, i);
    }
  }

  lemma CarriedOutPadded(s: Setting, tr: Trace, padded: OutMaps, packets: seq<Packet>)
    requires 2 * s.c.dimension < 64 && CarriedOut(s, tr, padded, packets)
    ensures IsPadded(LimitsOf(s.c, s.maxRouting, s.ov), s.ov, MapsOf(s, tr), padded)
    ensures OneOnidPerPeer(s.ov.gammaRoute) && VotesHeld(s, tr) && SourcesKnown(s, tr.finals)
  {
    hide VotesHeld, SourcesKnown, IsOutput, IsPadded, MapsOf, LimitsOf;
  }

  lemma Receivers(s: Setting, tr: Trace, padded: OutMaps, packets: seq<Packet>)
    requires 2 * s.c.dimension < 64 && CarriedOut(s, tr, padded, packets)
    ensures forall j, k :: 0 <= j < k < |packets| ==> packets[j].receiver != packets[k].receiver
  {
    hide VotesHeld, RoutedBy, SourcesKnown, IsOutput, IsPadded, MapsOf, LimitsOf, AllKeys;
    OnePacketPerRecipient(s.own, (s.cur + 1) % TWO_64, padded, packets);
    var receivers := Map((p: Packet) => p.receiver, packets);
    forall j, k | 0 <= j < k < |packets| ensures packets[j].receiver != packets[k].receiver {
      assert receivers[j] != receivers[k];
    }
  }

  // ---------------------------------------------------------------- announce

  /** Each member of gamma_send, listed once, gets all popped messages and as many dummies as make up
      k_send * A_max entries; nobody else gets any. */
  lemma AnnounceSections(s: Setting, tr: Trace, padded: OutMaps, packets: seq<Packet>)
    requires 2 * s.c.dimension < 64 && CarriedOut(s, tr, padded, packets) && Distinct(s.ov.gammaSend)
    ensures forall p :: p in packets ==>
              if p.receiver in s.ov.gammaSend
              then |tr.popped| <= |p.announce| == s.c.kSend * s.c.kAMax
                   && p.announce == tr.popped + seq(|p.announce| - |tr.popped|, _ => DUMMY)
              else p.announce == []
    ensures forall i :: i in s.ov.gammaSend ==> HasPacket(packets, i)
  {
    hide *;
    forall p | p in packets
      ensures if p.receiver in s.ov.gammaSend
              then |tr.popped| <= |p.announce| == s.c.kSend * s.c.kAMax
                   && p.announce == tr.popped + seq(|p.announce| - |tr.popped|, _ => DUMMY)
              else p.announce == []
    {
      AnnounceSection(s, tr, padded, packets, p);
    }
    forall i | i in s.ov.gammaSend ensures HasPacket(packets, i) {
      EveryoneGetsPacket(s, tr, padded, packets, i);
      IsThere(packets, i);
    }
  }

  lemma IsThere(packets: seq<Packet>, i: Peer)
    requires exists p :: p in packets && p.receiver == i
    ensures HasPacket(packets, i)
  {
  }

  lemma AnnounceSection(s: Setting, tr: Trace, padded: OutMaps, packets: seq<Packet>, p: Packet)
    requires 2 * s.c.dimension < 64 && CarriedOut(s, tr, padded, packets) && Distinct(s.ov.gammaSend)
    requires p in packets
    ensures if p.receiver in s.ov.gammaSend
            then |tr.popped| <= |p.announce| == s.c.kSend * s.c.kAMax
                 && p.announce == tr.popped + seq(|p.announce| - |tr.popped|, _ => DUMMY)
            else p.announce == []
  {
    hide CarriedOut, Padded, MapsOf, LimitsOf, Filled, Broadcast, IsPadded, Distinct;
    PacketOf(s, tr, padded, packets, p);
    PaddedMaps(s, tr, padded);
    AnnounceFits(s, tr, padded);
    BroadcastMap(tr.popped, s.ov.gammaSend);
    var n := s.c.kSend * s.c.kAMax;
    PaddedAt(Filled(Broadcast(tr.popped, s.ov.gammaSend)), s.ov.gammaSend, n, DUMMY, p.receiver);
    if p.receiver in s.ov.gammaSend { FilledUpTo(tr.popped, n, DUMMY); }
  }

  lemma AnnounceFits(s: Setting, tr: Trace, padded: OutMaps)
    requires IsPadded(LimitsOf(s.c, s.maxRouting, s.ov), s.ov, MapsOf(s, tr), padded)
    ensures Fits(Filled(Broadcast(tr.popped, s.ov.gammaSend)), s.ov.gammaSend, s.c.kSend * s.c.kAMax)
  {
    hide Filled, Broadcast, InjectEntries, AgreementEntries, Padded, RoutingPadded, PredeliverItems, DeliverEntries;
  }

  lemma FilledUpTo<T>(list: seq<T>, n: nat, dummy: T)
    requires |list| <= n
    ensures FillUp(list, n, dummy) == list + seq(n - |list|, _ => dummy)
  {
  }

  // ---------------------------------------------------------------- agreement

  /** Each recipient gets the agreement messages sent to it, in order. */
  lemma AgreementSections(s: Setting, tr: Trace, padded: OutMaps, packets: seq<Packet>)
    requires 2 * s.c.dimension < 64 && CarriedOut(s, tr, padded, packets)
    ensures forall p :: p in packets ==>
              p.agreement == Map((x: Agreement.Send) => x.tuple,
                                 Filter((x: Agreement.Send) => x.receiver == p.receiver, tr.sends))
    ensures forall x :: x in tr.sends ==> HasPacket(packets, x.receiver)
  {
    hide CarriedOut, MapsOf, LimitsOf, Filled, IsPadded, HasPacket, AgreementEntries;
    CarriedOutPadded(s, tr, padded, packets);
    PlainMaps(s, tr, padded);
    forall p | p in packets
      ensures p.agreement == Map((x: Agreement.Send) => x.tuple,
                                 Filter((x: Agreement.Send) => x.receiver == p.receiver, tr.sends))
    {
      PacketOf(s, tr, padded, packets, p);
      SendsFor(tr.sends, p.receiver);
    }
    forall x | x in tr.sends ensures HasPacket(packets, x.receiver) {
      SendHasEntry(tr.sends, x);
      FilledContains(AgreementEntries(tr.sends), Entry(x.receiver, x.tuple));
      KeyHasPacket(s, tr, padded, packets, x.receiver);
    }
  }

  lemma SendsFor(sends: seq<Agreement.Send>, i: Peer)
    ensures At(Filled(AgreementEntries(sends)), i)
         == Map((x: Agreement.Send) => x.tuple, Filter((x: Agreement.Send) => x.receiver == i, sends))
  {
    FilledAt(AgreementEntries(sends), i);
    FilterMap((x: Agreement.Send) => Entry(x.receiver, x.tuple), (e: Entry<AgreementTuple>) => e.peer == i,
              (x: Agreement.Send) => x.receiver == i, sends);
    hide Filter, Filled;
  }

  lemma SendHasEntry(sends: seq<Agreement.Send>, x: Agreement.Send)
    requires x in sends
    ensures Entry(x.receiver, x.tuple) in AgreementEntries(sends)
  {
    var k :| 0 <= k < |sends| && sends[k] == x;
    assert AgreementEntries(sends)[k] == Entry(x.receiver, x.tuple);
  }

  // ---------------------------------------------------------------- inject

  /** A finalized message goes, in the same round, to exactly the quorum of its source: each recipient
      gets, in order, those of which the source's onid lists it. */
  lemma FinalizedIsInjected(s: Setting, tr: Trace, padded: OutMaps, packets: seq<Packet>)
    requires 2 * s.c.dimension < 64 && CarriedOut(s, tr, padded, packets)
    ensures forall p :: p in packets ==>
              p.inject == Filter((m: MessageTuple) =>
                                   s.decrypt(m.nSrc).onidRepr in s.ov.gammaRoute
                                   && p.receiver in s.ov.gammaRoute[s.decrypt(m.nSrc).onidRepr],
                                 tr.finals)
    ensures forall m :: m in tr.finals ==> s.decrypt(m.nSrc).onidRepr in s.ov.gammaRoute
    ensures forall m, i :: m in tr.finals && Listed(s.ov.gammaRoute, s.decrypt(m.nSrc).onidRepr, i) ==>
              exists p :: p in packets && p.receiver == i && m in p.inject
  {
    hide CarriedOut, MapsOf, LimitsOf, Filled, IsPadded, HasPacket, InjectEntries, OneOnidPerPeer;
    CarriedOutPadded(s, tr, padded, packets);
    PlainMaps(s, tr, padded);
    forall p | p in packets
      ensures p.inject == Filter((m: MessageTuple) =>
                                   s.decrypt(m.nSrc).onidRepr in s.ov.gammaRoute
                                   && p.receiver in s.ov.gammaRoute[s.decrypt(m.nSrc).onidRepr],
                                 tr.finals)
    {
      PacketOf(s, tr, padded, packets, p);
      FilledAt(InjectEntries(s, tr.finals), p.receiver);
      InjectFor(s, tr.finals, p.receiver);
    }
    forall m, i | m in tr.finals && Listed(s.ov.gammaRoute, s.decrypt(m.nSrc).onidRepr, i)
      ensures exists p :: p in packets && p.receiver == i && m in p.inject
    {
      var p := Injected(s, tr, padded, packets, m, i);
    }
  }

  lemma Injected(s: Setting, tr: Trace, padded: OutMaps, packets: seq<Packet>, m: MessageTuple, i: Peer)
    returns (p: Packet)
    requires 2 * s.c.dimension < 64 && CarriedOut(s, tr, padded, packets)
    requires m in tr.finals && Listed(s.ov.gammaRoute, s.decrypt(m.nSrc).onidRepr, i)
    ensures p in packets && p.receiver == i && m in p.inject
  {
    hide CarriedOut, MapsOf, LimitsOf, Filled, IsPadded, InjectEntries, OneOnidPerPeer;
    CarriedOutPadded(s, tr, padded, packets);
    PlainMaps(s, tr, padded);
    InjectEntry(s, tr.finals, m, i);
    FilledContains(InjectEntries(s, tr.finals), Entry(i, m));
    KeyHasPacket(s, tr, padded, packets, i);
    p :| p in packets && p.receiver == i;
    PacketOf(s, tr, padded, packets, p);
  }

  lemma {:induction false} InjectFor(s: Setting, finals: seq<MessageTuple>, i: Peer)
    requires OneOnidPerPeer(s.ov.gammaRoute)
    ensures ItemsFor(InjectEntries(s, finals), i)
         == Filter((m: MessageTuple) =>
                     s.decrypt(m.nSrc).onidRepr in s.ov.gammaRoute
                     && i in s.ov.gammaRoute[s.decrypt(m.nSrc).onidRepr],
                   finals)
  {
    if finals != [] {
      var n := |finals| - 1;
      InjectFor(s, finals[..n], i);
      ToEachFor(finals[n], SourceQuorum(s, finals[n]), i);
      ItemsForConcat(InjectEntries(s, finals[..n]), ToEach(finals[n], SourceQuorum(s, finals[n])), i);
      hide ItemsFor, ToEach;
    }
  }

  lemma {:induction false} InjectEntry(s: Setting, finals: seq<MessageTuple>, m: MessageTuple, i: Peer)
    requires m in finals && Listed(s.ov.gammaRoute, s.decrypt(m.nSrc).onidRepr, i)
    ensures Entry(i, m) in InjectEntries(s, finals)
  {
    var n := |finals| - 1;
    assert finals == finals[..n] + [finals[n]];
    if m in finals[..n] {
      InjectEntry(s, finals[..n], m, i);
    } else {
      var quorum := s.ov.gammaRoute[s.decrypt(m.nSrc).onidRepr];
      var k :| 0 <= k < |quorum| && quorum[k] == i;
      assert ToEach(m, quorum)[k] == Entry(i, m);
    }
  }

  // ---------------------------------------------------------------- predeliver

  /** Messages due in this round, in the order of the elected vectors. */
  function Due(s: Setting, tr: Trace): seq<MessageTuple> {
    Map((x: RoutingTuple) => x.m,
        Filter((x: RoutingTuple) => x.lDst == s.cur, FlatMap((w: seq<RoutingTuple>) => w, tr.vectors)))
  }

  /** The own quorum gets the messages of the elected tuples that are due, in order, and dummies up to
      the fixed number; nobody else gets any. */
  lemma PredeliverSections(s: Setting, tr: Trace, padded: OutMaps, packets: seq<Packet>)
    requires 2 * s.c.dimension < 64 && CarriedOut(s, tr, padded, packets)
    ensures forall p :: p in packets ==>
              if Listed(s.ov.gammaRoute, s.ov.onidEmul, p.receiver)
              then |Due(s, tr)| <= |p.predeliver| == s.c.kRecv * s.c.kAMax * |s.ov.gammaReceive|
                   && p.predeliver == Due(s, tr) + seq(|p.predeliver| - |Due(s, tr)|, _ => DUMMY)
              else p.predeliver == []
  {
    hide CarriedOut, Padded, MapsOf, LimitsOf, Filled, Broadcast, IsPadded, Distinct, FlatMap, Filter, Listed;
    CarriedOutPadded(s, tr, padded, packets);
    PaddedMaps(s, tr, padded);
    var n := s.c.kRecv * s.c.kAMax * |s.ov.gammaReceive|;
    var items, quorum := PredeliverItems(s, tr), RouteAt(s.ov.gammaRoute, s.ov.onidEmul);
    DueItems(s, tr);
    PredeliverFits(s, tr, padded);
    BroadcastMap(items, quorum);
    OwnQuorum(s);
    forall p | p in packets
      ensures if Listed(s.ov.gammaRoute, s.ov.onidEmul, p.receiver)
              then |items| <= |p.predeliver| == n
                   && p.predeliver == items + seq(|p.predeliver| - |items|, _ => DUMMY)
              else p.predeliver == []
    {
      PacketOf(s, tr, padded, packets, p);
      PaddedAt(Filled(Broadcast(items, quorum)), quorum, n, DUMMY, p.receiver);
      if p.receiver in quorum { FilledUpTo(items, n, DUMMY); }
    }
  }

  lemma OwnQuorum(s: Setting)
    requires OneOnidPerPeer(s.ov.gammaRoute)
    ensures Distinct(RouteAt(s.ov.gammaRoute, s.ov.onidEmul))
    ensures forall i :: i in RouteAt(s.ov.gammaRoute, s.ov.onidEmul) <==> Listed(s.ov.gammaRoute, s.ov.onidEmul, i)
  {
  }

  lemma DueItems(s: Setting, tr: Trace)
    ensures PredeliverItems(s, tr) == Due(s, tr)
  {
    VectorsAlike(tr.vectors);
    FilterAlike(DueNow(s), (x: RoutingTuple) => x.lDst == s.cur, Flattened(tr.vectors));
    hide FlatMap, Filter;
  }

  lemma {:induction false} VectorsAlike(vectors: seq<seq<RoutingTuple>>)
    ensures Flattened(vectors) == FlatMap((w: seq<RoutingTuple>) => w, vectors)
  {
    if vectors != [] { VectorsAlike(vectors[..|vectors| - 1]); }
  }

  lemma PredeliverFits(s: Setting, tr: Trace, padded: OutMaps)
    requires IsPadded(LimitsOf(s.c, s.maxRouting, s.ov), s.ov, MapsOf(s, tr), padded)
    ensures Fits(Filled(Broadcast(PredeliverItems(s, tr), RouteAt(s.ov.gammaRoute, s.ov.onidEmul))),
                 RouteAt(s.ov.gammaRoute, s.ov.onidEmul), s.c.kRecv * s.c.kAMax * |s.ov.gammaReceive|)
  {
    hide Filled, Broadcast, InjectEntries, AgreementEntries, Padded, RoutingPadded, PredeliverItems, DeliverEntries;
  }

  // ---------------------------------------------------------------- deliver

  /** The elected messages for peer `i`. */
  function Final(s: Setting, tr: Trace, i: Peer): seq<MessageTuple> {
    Filter((m: MessageTuple) => m.tDst != 0 && s.decrypt(m.nDst).peer == i, tr.predelivered)
  }

  /** Each peer gets the elected messages whose destination it is, in order; a member of gamma_receive
      gets dummies up to the fixed number. */
  lemma DeliverSections(s: Setting, tr: Trace, padded: OutMaps, packets: seq<Packet>)
    requires 2 * s.c.dimension < 64 && CarriedOut(s, tr, padded, packets)
    ensures forall p :: p in packets ==>
              var own := Final(s, tr, p.receiver);
              if p.receiver in s.ov.gammaReceive
              then |own| <= |p.deliver| == s.c.kRecv * s.c.kAMax
                   && p.deliver == own + seq(|p.deliver| - |own|, _ => DUMMY)
              else p.deliver == own
    ensures forall m :: m in tr.predelivered && m.tDst != 0 ==> HasPacket(packets, s.decrypt(m.nDst).peer)
  {
    hide CarriedOut, Padded, MapsOf, LimitsOf, Filled, IsPadded, HasPacket, DeliverEntries;
    CarriedOutPadded(s, tr, padded, packets);
    PaddedMaps(s, tr, padded);
    var n := s.c.kRecv * s.c.kAMax;
    DeliverFits(s, tr, padded);
    forall p | p in packets
      ensures var own := Final(s, tr, p.receiver);
              if p.receiver in s.ov.gammaReceive
              then |own| <= |p.deliver| == n && p.deliver == own + seq(|p.deliver| - |own|, _ => DUMMY)
              else p.deliver == own
    {
      PacketOf(s, tr, padded, packets, p);
      DeliverFor(s, tr, p.receiver);
      PaddedAt(Filled(DeliverEntries(s, tr)), s.ov.gammaReceive, n, DUMMY, p.receiver);
      if p.receiver in s.ov.gammaReceive { FilledUpTo(At(Filled(DeliverEntries(s, tr)), p.receiver), n, DUMMY); }
    }
    forall m | m in tr.predelivered && m.tDst != 0 ensures HasPacket(packets, s.decrypt(m.nDst).peer) {
      DeliverHasEntry(s, tr, m);
      FilledContains(DeliverEntries(s, tr), Entry(s.decrypt(m.nDst).peer, m));
      PaddedAt(Filled(DeliverEntries(s, tr)), s.ov.gammaReceive, n, DUMMY, s.decrypt(m.nDst).peer);
      KeyHasPacket(s, tr, padded, packets, s.decrypt(m.nDst).peer);
    }
  }

  lemma DeliverFor(s: Setting, tr: Trace, i: Peer)
    ensures At(Filled(DeliverEntries(s, tr)), i) == Final(s, tr, i)
  {
    var kept := Filter(IsReal, tr.predelivered);
    var mine := (m: MessageTuple) => s.decrypt(m.nDst).peer == i;
    FilledAt(DeliverEntries(s, tr), i);
    FilterMap(DeliverEntry(s), (e: Entry<MessageTuple>) => e.peer == i, mine, kept);
    RealAndMine(s, tr.predelivered, i);
    hide Filter, Filled;
    assert forall ms: seq<MessageTuple> :: Map((e: Entry<MessageTuple>) => e.item, Map(DeliverEntry(s), ms)) == ms;
  }

  lemma {:induction false} RealAndMine(s: Setting, ms: seq<MessageTuple>, i: Peer)
    ensures Filter((m: MessageTuple) => s.decrypt(m.nDst).peer == i, Filter(IsReal, ms))
         == Filter((m: MessageTuple) => m.tDst != 0 && s.decrypt(m.nDst).peer == i, ms)
  {
    if ms != [] {
      var n := |ms| - 1;
      RealAndMine(s, ms[..n], i);
      FilterStep((m: MessageTuple) => s.decrypt(m.nDst).peer == i, Filter(IsReal, ms[..n]), ms[n]);
    }
  }

  lemma DeliverHasEntry(s: Setting, tr: Trace, m: MessageTuple)
    requires m in tr.predelivered && m.tDst != 0
    ensures Entry(s.decrypt(m.nDst).peer, m) in DeliverEntries(s, tr)
  {
    FilterMembers(IsReal, tr.predelivered);
    hide Filter;
    var kept := Filter(IsReal, tr.predelivered);
    assert m in kept;
    var k :| 0 <= k < |kept| && kept[k] == m;
    assert DeliverEntries(s, tr)[k] == Entry(s.decrypt(m.nDst).peer, m);
  }

  lemma DeliverFits(s: Setting, tr: Trace, padded: OutMaps)
    requires IsPadded(LimitsOf(s.c, s.maxRouting, s.ov), s.ov, MapsOf(s, tr), padded)
    ensures Fits(Filled(DeliverEntries(s, tr)), s.ov.gammaReceive, s.c.kRecv * s.c.kAMax)
  {
    hide Filled, Broadcast, InjectEntries, AgreementEntries, Padded, RoutingPadded, PredeliverItems, DeliverEntries;
  }

  // ---------------------------------------------------------------- what is voted on and routed

  /** Elected are, from each of the three inputs, the first entries of the classes - by delivery time,
      and for vectors by what is compared of their tuples - with more than m_corrupt entries. */
  lemma Elected(s: Setting, tr: Trace)
    requires VotesHeld(s, tr)
    ensures forall m :: m in tr.injected <==>
              FirstOfClass(MessageLess, s.input.inject, m) && ClassCount(MessageLess, s.input.inject, m) > s.mCorrupt
    ensures forall m :: m in tr.predelivered <==>
              FirstOfClass(MessageLess, s.input.predeliver, m)
              && ClassCount(MessageLess, s.input.predeliver, m) > s.mCorrupt
    ensures forall w :: w in tr.vectors <==>
              FirstOfClass(RoutingVecLess, s.input.routing, w)
              && ClassCount(RoutingVecLess, s.input.routing, w) > s.mCorrupt
    ensures forall j, k :: 0 <= j < k < |tr.predelivered| ==> tr.predelivered[j].tDst < tr.predelivered[k].tDst
    ensures forall j, k :: 0 <= j < k < |tr.injected| ==> tr.injected[j].tDst < tr.injected[k].tDst
  {
    MessageOrder();
    RoutingVecOrder();
    hide FirstOfClass, ClassCount, Represented, RoutingVecLess, IsVote;
    forall m ensures m in tr.injected <==>
      FirstOfClass(MessageLess, s.input.inject, m) && ClassCount(MessageLess, s.input.inject, m) > s.mCorrupt
    {
      ReturnedIff(MessageLess, s.input.inject, s.mCorrupt, tr.injected, m);
    }
    forall m ensures m in tr.predelivered <==>
      FirstOfClass(MessageLess, s.input.predeliver, m) && ClassCount(MessageLess, s.input.predeliver, m) > s.mCorrupt
    {
      ReturnedIff(MessageLess, s.input.predeliver, s.mCorrupt, tr.predelivered, m);
    }
    forall w ensures w in tr.vectors <==>
      FirstOfClass(RoutingVecLess, s.input.routing, w) && ClassCount(RoutingVecLess, s.input.routing, w) > s.mCorrupt
    {
      ReturnedIff(RoutingVecLess, s.input.routing, s.mCorrupt, tr.vectors, w);
    }
    VoteAscends(s.input.predeliver, s.mCorrupt, tr.predelivered);
    VoteAscends(s.input.inject, s.mCorrupt, tr.injected);
  }

  lemma VoteAscends(vec: seq<MessageTuple>, mCorrupt: nat, result: seq<MessageTuple>)
    requires IsVote(MessageLess, vec, mCorrupt, result)
    ensures forall j, k :: 0 <= j < k < |result| ==> result[j].tDst < result[k].tDst
  {
    assert StrictlyAscending(MessageLess, result);
    hide IsVote;
  }

  /** Sorted and scanned are: a tuple for each elected message to inject that is no dummy, from the
      quorum of its source to that of its destination, 2d + 2 rounds ahead; and the elected tuples whose
      round is past. */
  lemma RoutedTuples(s: Setting, tr: Trace)
    requires Scanned(s, tr)
    ensures multiset(tr.sorted)
         == multiset(Map((m: MessageTuple) =>
                           RoutingTuple(m, s.decrypt(m.nDst).onidRepr, m.nDst,
                                        (s.cur + 2 * s.c.dimension + 2) % TWO_64, s.decrypt(m.nSrc).onidRepr),
                         Filter((m: MessageTuple) => m.tDst != 0, tr.injected)))
            + multiset(Filter((x: RoutingTuple) => x.lDst < s.cur, FlatMap((w: seq<RoutingTuple>) => w, tr.vectors)))
  {
    NewTuples(s, tr);
    OverdueTuples(s, tr);
    hide Filter, FlatMap, Sorted;
  }

  lemma NewTuples(s: Setting, tr: Trace)
    ensures Map(ToRouting(s), Filter(IsReal, tr.injected))
         == Map((m: MessageTuple) =>
                  RoutingTuple(m, s.decrypt(m.nDst).onidRepr, m.nDst,
                               (s.cur + 2 * s.c.dimension + 2) % TWO_64, s.decrypt(m.nSrc).onidRepr),
                Filter((m: MessageTuple) => m.tDst != 0, tr.injected))
  {
    FilterAlike(IsReal, (m: MessageTuple) => m.tDst != 0, tr.injected);
    hide Filter;
    assert s.cur + s.c.RoutingTime() == s.cur + 2 * s.c.dimension + 2;
    MapAlike(ToRouting(s),
             (m: MessageTuple) =>
               RoutingTuple(m, s.decrypt(m.nDst).onidRepr, m.nDst,
                            (s.cur + 2 * s.c.dimension + 2) % TWO_64, s.decrypt(m.nSrc).onidRepr),
             Filter(IsReal, tr.injected));
  }

  lemma MapAlike<T, R>(f: T -> R, g: T -> R, s: seq<T>)
    requires forall x :: x in s ==> f(x) == g(x)
    ensures Map(f, s) == Map(g, s)
  {
    forall k | 0 <= k < |s| ensures f(s[k]) == g(s[k]) { assert s[k] in s; }
  }

  lemma OverdueTuples(s: Setting, tr: Trace)
    ensures Filter(Overdue(s), Flattened(tr.vectors))
         == Filter((x: RoutingTuple) => x.lDst < s.cur, FlatMap((w: seq<RoutingTuple>) => w, tr.vectors))
  {
    VectorsAlike(tr.vectors);
    FilterAlike(Overdue(s), (x: RoutingTuple) => x.lDst < s.cur, Flattened(tr.vectors));
    hide Filter, FlatMap;
  }

  // ---------------------------------------------------------------- aborts

  /** Why a round is not carried out: the quorum of a finalized message's source is unknown, a tuple
      survives the cancel scan, a peer stands twice in the routing table, or there are too many messages to
      announce, to predeliver, or to deliver to one of gamma_receive. */
  ghost predicate AbortReason(s: Setting, tr: Trace) {
    || (exists m :: m in tr.finals && s.decrypt(m.nSrc).onidRepr !in s.ov.gammaRoute)
    || tr.survivors != []
    || !OneOnidPerPeer(s.ov.gammaRoute)
    || (s.ov.gammaSend != [] && |tr.popped| > s.c.kSend * s.c.kAMax)
    || ((exists i :: Listed(s.ov.gammaRoute, s.ov.onidEmul, i))
        && |Due(s, tr)| > s.c.kRecv * s.c.kAMax * |s.ov.gammaReceive|)
    || (exists i :: i in s.ov.gammaReceive && |Final(s, tr, i)| > s.c.kRecv * s.c.kAMax)
  }

  /** With a reason to abort no round is carried out. */
  lemma NotCarriedOut(s: Setting, tr: Trace, padded: OutMaps, packets: seq<Packet>)
    requires 2 * s.c.dimension < 64 && s.cur + s.c.RoutingTime() < TWO_64
    requires Distinct(s.ov.gammaSend) && AbortReason(s, tr)
    ensures !CarriedOut(s, tr, padded, packets)
  {
    if CarriedOut(s, tr, padded, packets) {
      NothingIsRouted(s, tr, padded, packets);
      CarriedOutPadded(s, tr, padded, packets);
      AnnounceSections(s, tr, padded, packets);
      FinalizedIsInjected(s, tr, padded, packets);
      PredeliverSections(s, tr, padded, packets);
      DeliverSections(s, tr, padded, packets);
      hide CarriedOut, Filter, FlatMap, OneOnidPerPeer, Distinct, MapsOf, LimitsOf, IsPadded;
      if i :| Listed(s.ov.gammaRoute, s.ov.onidEmul, i) { EveryoneGetsPacket(s, tr, padded, packets, i); }
      if i :| i in s.ov.gammaReceive && |Final(s, tr, i)| > s.c.kRecv * s.c.kAMax {
        EveryoneGetsPacket(s, tr, padded, packets, i);
      }
      if s.ov.gammaSend != [] { EveryoneGetsPacket(s, tr, padded, packets, s.ov.gammaSend[0]); }
    }
  }

  /** And a round that is aborted has a reason. */
  lemma AbortedForReason(s: Setting, tr: Trace)
    requires 2 * s.c.dimension < 64 && s.cur + s.c.RoutingTime() < TWO_64
    requires Distinct(s.ov.gammaSend) && Failed(s, tr)
    ensures AbortReason(s, tr)
  {
    if !AbortReason(s, tr) && VotesHeld(s, tr) && RoutedBy(s, tr) {
      NothingTooLong(s, tr);
    }
    hide VotesHeld, RoutedBy, Scanned, OneOnidPerPeer, AllFit, LimitsOf, MapsOf, Filter, FlatMap, Distinct;
    if Failed(s, tr) && !AbortReason(s, tr) { NoSurvivorInRange(s, tr); }
  }

  lemma NoSurvivorInRange(s: Setting, tr: Trace)
    requires 2 * s.c.dimension < 64 && tr.survivors == []
    ensures RoutingScheme.AllInRange(tr.survivors, s.cur, s.c.dimension)
  {
  }

  lemma NothingTooLong(s: Setting, tr: Trace)
    requires 2 * s.c.dimension < 64 && s.cur + s.c.RoutingTime() < TWO_64
    requires Distinct(s.ov.gammaSend) && RoutedBy(s, tr) && !AbortReason(s, tr)
    ensures AllFit(LimitsOf(s.c, s.maxRouting, s.ov), s.ov, MapsOf(s, tr))
  {
    var maps, l := MapsOf(s, tr), LimitsOf(s.c, s.maxRouting, s.ov);
    hide Filter, FlatMap, Filled, Broadcast;
    AnnounceFitsIff(s, tr);
    OwnQuorum(s);
    BroadcastMap(PredeliverItems(s, tr), RouteAt(s.ov.gammaRoute, s.ov.onidEmul));
    DueItems(s, tr);
    forall i | i in s.ov.gammaReceive ensures |At(maps.deliver, i)| <= l.deliver { DeliverFor(s, tr, i); }
    forall i | InRoute(s.ov.gammaRoute, i) ensures |At(maps.routing, i)| <= l.routing { NoTuples(s, tr, i); }
  }

  lemma NoTuples(s: Setting, tr: Trace, i: Peer)
    requires 2 * s.c.dimension < 64 && RoutedBy(s, tr) && tr.survivors == []
    ensures At(tr.routing, i) == []
  {
    hide Sorted;
    if i in tr.routing {
      var o :| o in s.ov.gammaRoute && i in s.ov.gammaRoute[o];
    }
  }
}

/** What one round makes of its input: the votes, the routing step and the seven outgoing maps. */
module RoundWork {
  import opened Bits
  import opened BitFixing
  import opened Ordering
  import opened Outbound
  import opened QuorumVote
  import opened Rounds
  import opened RoutingScheme
  import opened Sequences
  import opened Structures
  import opened SurvivingBuckets
  import Agreement
  import Inboxes

  type Decryption = Pseudonym -> DecryptedPseudonym

  /** What the client knows when it starts to build the messages of round `cur`. */
  datatype Setting = Setting(
    c: Config, own: Peer, decrypt: Decryption, itm: (Pseudonym, U64) -> U64, mCorrupt: nat, maxRouting: nat,
    cur: U64, ov: OverlayResult, input: Inboxes.Inbox)

  /** Everything a round determines on the way from its input to its packets. */
  datatype Trace = Trace(
    popped: seq<MessageTuple>,
    sends: seq<Agreement.Send>,
    finals: seq<MessageTuple>,
    injected: seq<MessageTuple>,
    vectors: seq<seq<RoutingTuple>>,
    predelivered: seq<MessageTuple>,
    sorted: seq<RoutingTuple>,
    last: nat,
    survivors: seq<RoutingTuple>,
    routing: map<Peer, seq<RoutingTuple>>)

  // ---------------------------------------------------------------- entries of the maps

  function AgreementEntries(sends: seq<Agreement.Send>): seq<Entry<AgreementTuple>> {
    Map((s: Agreement.Send) => Entry(s.receiver, s.tuple), sends)
  }

  function SourceQuorum(s: Setting, m: MessageTuple): seq<Peer> {
    RouteAt(s.ov.gammaRoute, s.decrypt(m.nSrc).onidRepr)
  }

  function InjectEntries(s: Setting, finals: seq<MessageTuple>): seq<Entry<MessageTuple>> {
    FlatMap((m: MessageTuple) => ToEach(m, SourceQuorum(s, m)), finals)
  }

  /** The quorum of every finalized message's source is a neighbour. */
  ghost predicate SourcesKnown(s: Setting, finals: seq<MessageTuple>) {
    forall m :: m in finals ==> s.decrypt(m.nSrc).onidRepr in s.ov.gammaRoute
  }

  predicate IsReal(m: MessageTuple) { !m.IsDummy() }

  function ToRouting(s: Setting): MessageTuple -> RoutingTuple {
    (m: MessageTuple) =>
      RoutingTuple(m, s.decrypt(m.nDst).onidRepr, m.nDst, (s.cur + s.c.RoutingTime()) % TWO_64,
                   s.decrypt(m.nSrc).onidRepr)
  }

  function Flattened(vectors: seq<seq<RoutingTuple>>): seq<RoutingTuple> {
    FlatMap((v: seq<RoutingTuple>) => v, vectors)
  }

  function Overdue(s: Setting): RoutingTuple -> bool { (v: RoutingTuple) => v.lDst < s.cur }

  function DueNow(s: Setting): RoutingTuple -> bool { (v: RoutingTuple) => v.lDst == s.cur }

  function MessageOf(v: RoutingTuple): MessageTuple { v.m }

  /** The tuples handed to the routing scheme. */
  function RoutingInput(s: Setting, tr: Trace): seq<RoutingTuple> {
    Map(ToRouting(s), Filter(IsReal, tr.injected)) + Filter(Overdue(s), Flattened(tr.vectors))
  }

  function PredeliverItems(s: Setting, tr: Trace): seq<MessageTuple> {
    Map(MessageOf, Filter(DueNow(s), Flattened(tr.vectors)))
  }

  function DeliverEntry(s: Setting): MessageTuple -> Entry<MessageTuple> {
    (m: MessageTuple) => Entry(s.decrypt(m.nDst).peer, m)
  }

  function DeliverEntries(s: Setting, tr: Trace): seq<Entry<MessageTuple>> {
    Map(DeliverEntry(s), Filter(IsReal, tr.predelivered))
  }

  /** The outgoing maps before padding. */
  function MapsOf(s: Setting, tr: Trace): OutMaps {
    OutMaps(
      Filled(Broadcast(tr.popped, s.ov.gammaSend)),
      Filled(AgreementEntries(tr.sends)),
      Filled(InjectEntries(s, tr.finals)),
      tr.routing,
      Filled(Broadcast(PredeliverItems(s, tr), RouteAt(s.ov.gammaRoute, s.ov.onidEmul))),
      Filled(DeliverEntries(s, tr)),
      s.ov.structure)
  }

  // ---------------------------------------------------------------- the relation of a round

  ghost predicate VotesHeld(s: Setting, tr: Trace) {
    && IsVote(MessageLess, s.input.inject, s.mCorrupt, tr.injected)
    && IsVote(RoutingVecLess, s.input.routing, s.mCorrupt, tr.vectors)
    && IsVote(MessageLess, s.input.predeliver, s.mCorrupt, tr.predelivered)
  }

  ghost predicate RoutedBy(s: Setting, tr: Trace)
    requires 2 * s.c.dimension < 64
  {
    && Sorted(RoutingLess, tr.sorted) && multiset(tr.sorted) == multiset(RoutingInput(s, tr))
    && (tr.sorted != [] ==> StartsLastRun(tr.sorted, tr.last))
    && IsSurvivorList(tr.sorted, tr.last, s.c.kRecv, tr.survivors)
    && AllInRange(tr.survivors, s.cur, s.c.dimension)
    && OneOnidPerPeer(s.ov.gammaRoute)
    && (forall i :: i in tr.routing <==> InRoute(s.ov.gammaRoute, i))
    && (forall o, i :: o in s.ov.gammaRoute && i in s.ov.gammaRoute[o] ==>
          i in tr.routing
          && tr.routing[i] == Towards(o, AdvanceAll(tr.survivors, s.cur, s.c.dimension, s.itm)))
  }

  /** The list the scan sorts and what it leaves of it. */
  ghost predicate Scanned(s: Setting, tr: Trace) {
    && Sorted(RoutingLess, tr.sorted) && multiset(tr.sorted) == multiset(RoutingInput(s, tr))
    && (tr.sorted != [] ==> StartsLastRun(tr.sorted, tr.last))
    && IsSurvivorList(tr.sorted, tr.last, s.c.kRecv, tr.survivors)
  }

  /** All sections are within the limits the asserts check. */
  ghost predicate AllFit(l: Limits, ov: OverlayResult, maps: OutMaps) {
    && Fits(maps.announce, ov.gammaSend, l.announce)
    && (forall i :: InRoute(ov.gammaRoute, i) ==> |At(maps.routing, i)| <= l.routing)
    && Fits(maps.predeliver, RouteAt(ov.gammaRoute, ov.onidEmul), l.predeliver)
    && Fits(maps.deliver, ov.gammaReceive, l.deliver)
  }

  /** Why a round is aborted: the source quorum of a finalized message is unknown, a surviving tuple
      is out of the range of `route`, a peer stands twice in the routing table, or some section is
      too long. */
  ghost predicate Failed(s: Setting, tr: Trace)
    requires 2 * s.c.dimension < 64
  {
    || !SourcesKnown(s, tr.finals)
    || (VotesHeld(s, tr) && Scanned(s, tr)
        && !(AllInRange(tr.survivors, s.cur, s.c.dimension) && OneOnidPerPeer(s.ov.gammaRoute)))
    || (VotesHeld(s, tr) && RoutedBy(s, tr) && !AllFit(LimitsOf(s.c, s.maxRouting, s.ov), s.ov, MapsOf(s, tr)))
  }

  lemma PaddedFits(l: Limits, ov: OverlayResult, maps: OutMaps, padded: OutMaps)
    requires IsPadded(l, ov, maps, padded)
    ensures AllFit(l, ov, maps)
  {
    hide Padded, InRoute, RouteAt;
  }

  /** A round that is carried out to the end: its votes, its routing, its padding, its packets. */
  ghost predicate CarriedOut(s: Setting, tr: Trace, padded: OutMaps, packets: seq<Packet>)
    requires 2 * s.c.dimension < 64
  {
    && VotesHeld(s, tr)
    && RoutedBy(s, tr)
    && SourcesKnown(s, tr.finals)
    && IsPadded(LimitsOf(s.c, s.maxRouting, s.ov), s.ov, MapsOf(s, tr), padded)
    && IsOutput(s.own, (s.cur + 1) % TWO_64, padded, packets)
  }

  // ---------------------------------------------------------------- its steps

  method PushEntries<T>(entries: seq<Entry<T>>) returns (m: map<Peer, seq<T>>)
    ensures m == Filled(entries)
  {
    m := map[];
    for k := 0 to |entries|
      invariant m == Filled(entries[..k])
    {
      assert entries[..k + 1][..k] == entries[..k];
      m := Push(m, entries[k].peer, entries[k].item);
    }
    assert entries[..|entries|] == entries;
  }

  /** Sends the finalized messages to the quorums of their sources; `ok` is false where `at` throws. */
  method Inject(s: Setting, finals: seq<MessageTuple>) returns (ok: bool, m: map<Peer, seq<MessageTuple>>)
    ensures ok <==> SourcesKnown(s, finals)
    ensures ok ==> m == Filled(InjectEntries(s, finals))
  {
    m := map[];
    for k := 0 to |finals|
      invariant SourcesKnown(s, finals[..k])
      invariant m == Filled(InjectEntries(s, finals[..k]))
    {
      assert finals[..k + 1][..k] == finals[..k];
      if s.decrypt(finals[k].nSrc).onidRepr !in s.ov.gammaRoute {
        return false, m;
      }
      m := PushBroadcast(m, finals[k], SourceQuorum(s, finals[k]), InjectEntries(s, finals[..k]));
    }
    assert finals[..|finals|] == finals;
    ok := true;
  }

  method HoldVotes(s: Setting)
    returns (injected: seq<MessageTuple>, vectors: seq<seq<RoutingTuple>>, predelivered: seq<MessageTuple>)
    ensures IsVote(MessageLess, s.input.inject, s.mCorrupt, injected)
    ensures IsVote(RoutingVecLess, s.input.routing, s.mCorrupt, vectors)
    ensures IsVote(MessageLess, s.input.predeliver, s.mCorrupt, predelivered)
  {
    MessageOrder();
    RoutingVecOrder();
    injected := ElementsThatExceed(s.input.inject, MessageLess, s.mCorrupt);
    vectors := ElementsThatExceed(s.input.routing, RoutingVecLess, s.mCorrupt);
    predelivered := ElementsThatExceed(s.input.predeliver, MessageLess, s.mCorrupt);
  }

  method FilterBy<T>(p: T -> bool, xs: seq<T>) returns (r: seq<T>)
    ensures r == Filter(p, xs)
  {
    r := [];
    for k := 0 to |xs|
      invariant r == Filter(p, xs[..k])
    {
      assert xs[..k + 1][..k] == xs[..k];
      if p(xs[k]) {
        r := r + [xs[k]];
      }
    }
    assert xs[..|xs|] == xs;
  }

  method Flatten(vectors: seq<seq<RoutingTuple>>) returns (vSet: seq<RoutingTuple>)
    ensures vSet == Flattened(vectors)
  {
    vSet := [];
    for k := 0 to |vectors|
      invariant vSet == Flattened(vectors[..k])
    {
      assert vectors[..k + 1][..k] == vectors[..k];
      vSet := vSet + vectors[k];
    }
    assert vectors[..|vectors|] == vectors;
  }

  /** Routes the tuples of a round to the neighbours. */
  method RouteMessages(s: Setting, input: seq<RoutingTuple>)
    returns (ok: bool, routing: map<Peer, seq<RoutingTuple>>,
             ghost sorted: seq<RoutingTuple>, ghost last: nat, ghost survivors: seq<RoutingTuple>)
    requires 2 * s.c.dimension < 64
    ensures Sorted(RoutingLess, sorted) && multiset(sorted) == multiset(input)
    ensures sorted != [] ==> StartsLastRun(sorted, last)
    ensures IsSurvivorList(sorted, last, s.c.kRecv, survivors)
    ensures ok <==> AllInRange(survivors, s.cur, s.c.dimension) && OneOnidPerPeer(s.ov.gammaRoute)
    ensures ok ==>
      && (forall i :: i in routing <==> InRoute(s.ov.gammaRoute, i))
      && (forall o, i :: o in s.ov.gammaRoute && i in s.ov.gammaRoute[o] ==>
            i in routing && routing[i] == Towards(o, AdvanceAll(survivors, s.cur, s.c.dimension, s.itm)))
  {
    hide *;
    routing := map[];
    var setS := new RoutingTuple[|input|](i requires 0 <= i < |input| => input[i]);
    assert setS[..] == input;
    var routed;
    ok, routed, sorted, last, survivors := Route(setS, s.cur, s.c.dimension, s.c.kRecv, s.itm);
    if ok {
      ok, routing := RouteToNeighbors(s.ov.gammaRoute, routed);
    }
  }

  /** The votes and the routing step. `ok` is false when an assert fails; the trace says why. */
  method VoteAndRoute(s: Setting, popped: seq<MessageTuple>, sends: seq<Agreement.Send>, finals: seq<MessageTuple>)
    returns (ok: bool, vSet: seq<RoutingTuple>, predelivered: seq<MessageTuple>,
             routing: map<Peer, seq<RoutingTuple>>, ghost tr: Trace)
    requires 2 * s.c.dimension < 64
    ensures tr.popped == popped && tr.sends == sends && tr.finals == finals
    ensures vSet == Flattened(tr.vectors) && predelivered == tr.predelivered && routing == tr.routing
    ensures VotesHeld(s, tr) && Scanned(s, tr)
    ensures ok <==> AllInRange(tr.survivors, s.cur, s.c.dimension) && OneOnidPerPeer(s.ov.gammaRoute)
    ensures ok ==> RoutedBy(s, tr)
  {
    hide IsVote, IsSurvivorList, AllInRange, StartsLastRun, InRoute, OneOnidPerPeer, Filter, FlatMap, Sorted,
         AdvanceAll, Towards;
    var injected, vectors;
    injected, vectors, predelivered := HoldVotes(s);
    var nonDummies := FilterBy(IsReal, injected);
    vSet := Flatten(vectors);
    var overdue := FilterBy(Overdue(s), vSet);
    ghost var sorted, last, survivors;
    ok, routing, sorted, last, survivors := RouteMessages(s, Map(ToRouting(s), nonDummies) + overdue);
    tr := Trace(popped, sends, finals, injected, vectors, predelivered, sorted, last, survivors, routing);
  }

  /** The maps of predelivered and delivered messages. */
  method Deliveries(s: Setting, vSet: seq<RoutingTuple>, predelivered: seq<MessageTuple>, ghost tr: Trace)
    returns (predeliver: map<Peer, seq<MessageTuple>>, deliver: map<Peer, seq<MessageTuple>>)
    requires vSet == Flattened(tr.vectors) && predelivered == tr.predelivered
    ensures predeliver == Filled(Broadcast(PredeliverItems(s, tr), RouteAt(s.ov.gammaRoute, s.ov.onidEmul)))
    ensures deliver == Filled(DeliverEntries(s, tr))
  {
    hide Filled, Filter, FlatMap, Broadcast;
    var dueNow := FilterBy(DueNow(s), vSet);
    assert Filled<MessageTuple>([]) == map[] by { FilledNothing(); }
    predeliver := PushItems(map[], Map(MessageOf, dueNow), RouteAt(s.ov.gammaRoute, s.ov.onidEmul), []);
    assert [] + Broadcast(Map(MessageOf, dueNow), RouteAt(s.ov.gammaRoute, s.ov.onidEmul))
        == Broadcast(Map(MessageOf, dueNow), RouteAt(s.ov.gammaRoute, s.ov.onidEmul));
    var deliverable := FilterBy(IsReal, predelivered);
    deliver := PushEntries(Map(DeliverEntry(s), deliverable));
  }

  /** The dummies and the packets. `ok` is false when a section is too long. */
  method PadAndPack(s: Setting, maps: OutMaps, ghost tr: Trace)
    returns (ok: bool, packets: seq<Packet>, ghost padded: OutMaps)
    requires 2 * s.c.dimension < 64 && maps == MapsOf(s, tr)
    requires VotesHeld(s, tr) && RoutedBy(s, tr) && SourcesKnown(s, tr.finals)
    ensures ok <==> AllFit(LimitsOf(s.c, s.maxRouting, s.ov), s.ov, maps)
    ensures ok ==> CarriedOut(s, tr, padded, packets)
  {
    hide IsPadded, IsOutput, InRoute, Fits, MapsOf, VotesHeld, RoutedBy, SourcesKnown, LimitsOf, CarriedOut;
    packets := [];
    var full;
    ok, full := AddDummies(LimitsOf(s.c, s.maxRouting, s.ov), s.ov, maps);
    padded := full;
    if ok {
      PaddedFits(LimitsOf(s.c, s.maxRouting, s.ov), s.ov, maps, padded);
      hide *;
      packets := BuildPackets(s.own, (s.cur + 1) % TWO_64, full);
      IsCarriedOut(s, tr, padded, packets);
    }
  }

  lemma IsCarriedOut(s: Setting, tr: Trace, padded: OutMaps, packets: seq<Packet>)
    requires 2 * s.c.dimension < 64
    requires VotesHeld(s, tr) && RoutedBy(s, tr) && SourcesKnown(s, tr.finals)
    requires IsPadded(LimitsOf(s.c, s.maxRouting, s.ov), s.ov, MapsOf(s, tr), padded)
    requires IsOutput(s.own, (s.cur + 1) % TWO_64, padded, packets)
    ensures CarriedOut(s, tr, padded, packets)
  {
  }

  /** Everything from the votes to the packets. `ok` is false where an assert fails or `at` throws. */
  method FinishRound(s: Setting, popped: seq<MessageTuple>, announce: map<Peer, seq<MessageTuple>>,
                     sends: seq<Agreement.Send>, finals: seq<MessageTuple>)
    returns (ok: bool, packets: seq<Packet>, ghost tr: Trace, ghost padded: OutMaps)
    requires 2 * s.c.dimension < 64 && announce == Filled(Broadcast(popped, s.ov.gammaSend))
    ensures ok ==> CarriedOut(s, tr, padded, packets)
    ensures ok <==> !Failed(s, tr)
    ensures tr.popped == popped && tr.sends == sends && tr.finals == finals
  {
    hide Filled, Scanned, VotesHeld, RoutedBy, SourcesKnown, AllFit, CarriedOut, AllInRange, OneOnidPerPeer, Broadcast,
         AgreementEntries, InjectEntries, PredeliverItems, DeliverEntries, Flattened, LimitsOf;
    packets := [];
    padded := OutMaps(map[], map[], map[], map[], map[], map[], map[]);
    tr := Trace(popped, sends, finals, [], [], [], [], 0, [], map[]);
    var agreement := PushEntries(AgreementEntries(sends));
    var inject;
    ok, inject := Inject(s, finals);
    if !ok { return; }
    var vSet, predelivered, routing;
    ok, vSet, predelivered, routing, tr := VoteAndRoute(s, popped, sends, finals);
    if !ok { return; }
    var predeliver, deliver := Deliveries(s, vSet, predelivered, tr);
    ok, packets, padded :=
      PadAndPack(s, OutMaps(announce, agreement, inject, routing, predeliver, deliver, s.ov.structure), tr);
    RoutedInRange(s, tr);
  }

  lemma RoutedInRange(s: Setting, tr: Trace)
    requires 2 * s.c.dimension < 64 && RoutedBy(s, tr)
    ensures AllInRange(tr.survivors, s.cur, s.c.dimension) && OneOnidPerPeer(s.ov.gammaRoute)
  {
  }

  lemma FilledNothing()
    ensures Filled<MessageTuple>([]) == map[]
  {
  }

  // ---------------------------------------------------------------- theorems about rounds

  lemma MapsConfined(s: Setting, tr: Trace)
    requires 2 * s.c.dimension < 64 && RoutedBy(s, tr)
    ensures Confined(s.ov, MapsOf(s, tr))
  {
    BroadcastMap(tr.popped, s.ov.gammaSend);
    BroadcastMap(PredeliverItems(s, tr), RouteAt(s.ov.gammaRoute, s.ov.onidEmul));
    hide Filled, Broadcast, Filter, FlatMap;
    forall i | i in MapsOf(s, tr).announce ensures i in s.ov.gammaSend {
      assert i in Elements(s.ov.gammaSend);
    }
    forall i | i in MapsOf(s, tr).predeliver ensures i in RouteAt(s.ov.gammaRoute, s.ov.onidEmul) {
      assert i in Elements(RouteAt(s.ov.gammaRoute, s.ov.onidEmul));
    }
  }

  /** How many entries a packet to `i` has, as far as the overlay result determines it. */
  datatype Shape = Shape(announce: nat, routing: nat, predeliver: nat)

  ghost function ShapeFor(c: Config, maxRouting: nat, ov: OverlayResult, i: Peer): Shape {
    Shape(if i in ov.gammaSend then c.kSend * c.kAMax else 0,
          if InRoute(ov.gammaRoute, i) then maxRouting else 0,
          if i in RouteAt(ov.gammaRoute, ov.onidEmul) then c.kRecv * c.kAMax * |ov.gammaReceive| else 0)
  }

  function ShapeOf(p: Packet): Shape {
    Shape(|p.announce|, |p.routing|, |p.predeliver|)
  }

  /** The number of announce, routing and predeliver entries in every packet, and of deliver
      entries in every packet to a member of gamma_receive, depends on the overlay alone. */
  lemma TrafficShapeOfRound(s: Setting, tr: Trace, padded: OutMaps, packets: seq<Packet>, p: Packet)
    requires 2 * s.c.dimension < 64 && CarriedOut(s, tr, padded, packets) && p in packets
    ensures ShapeOf(p) == ShapeFor(s.c, s.maxRouting, s.ov, p.receiver)
    ensures p.receiver in s.ov.gammaReceive ==> |p.deliver| == s.c.kRecv * s.c.kAMax
  {
    hide IsVote, IsPadded, MapsOf, InRoute, RoutedBy, AllKeys;
    MapsConfined(s, tr);
    TrafficShape(LimitsOf(s.c, s.maxRouting, s.ov), s.ov, MapsOf(s, tr), padded, p.receiver);
    var all: seq<Peer> :| Distinct(all) && Elements(all) == AllKeys(padded)
      && packets == Map((i: Peer) => PacketFor(s.own, i, (s.cur + 1) % TWO_64, padded), all);
    assert p == PacketFor(s.own, p.receiver, (s.cur + 1) % TWO_64, padded);
  }

  /** Any two rounds with the same overlay result, whatever was queued and received, give every
      recipient packets of the same shape. */
  lemma SameOverlaySameShape(s1: Setting, tr1: Trace, padded1: OutMaps, packets1: seq<Packet>, p1: Packet,
                             s2: Setting, tr2: Trace, padded2: OutMaps, packets2: seq<Packet>, p2: Packet)
    requires 2 * s1.c.dimension < 64 && s1.c == s2.c && s1.maxRouting == s2.maxRouting && s1.ov == s2.ov
    requires CarriedOut(s1, tr1, padded1, packets1) && p1 in packets1
    requires CarriedOut(s2, tr2, padded2, packets2) && p2 in packets2
    requires p1.receiver == p2.receiver
    ensures ShapeOf(p1) == ShapeOf(p2)
    ensures p1.receiver in s1.ov.gammaReceive ==> |p1.deliver| == |p2.deliver|
  {
    hide CarriedOut, ShapeFor;
    TrafficShapeOfRound(s1, tr1, padded1, packets1, p1);
    TrafficShapeOfRound(s2, tr2, padded2, packets2, p2);
  }

  lemma PaddedKeys(l: Limits, ov: OverlayResult, maps: OutMaps, padded: OutMaps, i: Peer)
    requires IsPadded(l, ov, maps, padded)
    ensures i in ov.gammaSend ==> i in padded.announce
    ensures i in ov.gammaReceive ==> i in padded.deliver
    ensures InRoute(ov.gammaRoute, i) ==> i in padded.routing
  {
    hide Padded, InRoute, RouteAt, Fits;
    var list: seq<Peer> :| PaddedAlong(list, l.routing, ov.gammaRoute, maps.routing, padded.routing);
    PaddedAt(maps.announce, ov.gammaSend, l.announce, DUMMY, i);
    PaddedAt(maps.deliver, ov.gammaReceive, l.deliver, DUMMY, i);
    PaddedAt(maps.routing, list, l.routing, DUMMY_ROUTING, i);
  }

  lemma PacketForKey(own: Peer, tag: U64, maps: OutMaps, packets: seq<Packet>, i: Peer)
    requires IsOutput(own, tag, maps, packets) && i in AllKeys(maps)
    ensures exists p :: p in packets && p.receiver == i
  {
    hide AllKeys;
    var all: seq<Peer> :| Distinct(all) && Elements(all) == AllKeys(maps)
      && packets == Map((i: Peer) => PacketFor(own, i, tag, maps), all);
    assert i in Elements(all);
    var k :| 0 <= k < |all| && all[k] == i;
    assert packets[k] in packets && packets[k].receiver == i;
  }

  /** Every member of gamma_send, of gamma_receive and of a routing list gets a packet in every round. */
  lemma EveryoneGetsPacket(s: Setting, tr: Trace, padded: OutMaps, packets: seq<Packet>, i: Peer)
    requires 2 * s.c.dimension < 64 && CarriedOut(s, tr, padded, packets)
    requires i in s.ov.gammaSend || i in s.ov.gammaReceive || InRoute(s.ov.gammaRoute, i)
    ensures exists p :: p in packets && p.receiver == i
  {
    hide VotesHeld, RoutedBy, IsPadded, IsOutput, MapsOf, InRoute;
    PaddedKeys(LimitsOf(s.c, s.maxRouting, s.ov), s.ov, MapsOf(s, tr), padded, i);
    PacketForKey(s.own, (s.cur + 1) % TWO_64, padded, packets, i);
  }

  // ---------------------------------------------------------------- what is routed, what is announced

  /** Every tuple handed to `route` has an address round outside the range of its asserts. */
  lemma RoutingInputOutOfRange(s: Setting, tr: Trace, x: RoutingTuple)
    requires 2 * s.c.dimension < 64 && s.cur + s.c.RoutingTime() < TWO_64 && x in RoutingInput(s, tr)
    ensures !IndexInRange(x.lDst, s.cur, s.c.dimension)
  {
    hide Filter, FlatMap;
    FilterMembers(Overdue(s), Flattened(tr.vectors));
    CallersOutOfRange(s.cur, s.c.dimension);
    var injected := Map(ToRouting(s), Filter(IsReal, tr.injected));
    if x in injected {
      var i :| 0 <= i < |injected| && injected[i] == x;
      assert x.lDst == s.cur + 2 * s.c.dimension + 2;
    } else {
      assert Overdue(s)(x);
    }
  }

  /** The asserts of `route` hold in a round iff the scan empties every bucket of what is routed. */
  lemma RouteAssertsIff(s: Setting, tr: Trace)
    requires 2 * s.c.dimension < 64 && s.cur + s.c.RoutingTime() < TWO_64 && Scanned(s, tr)
    ensures AllInRange(tr.survivors, s.cur, s.c.dimension) <==>
              forall x :: x in RoutingInput(s, tr) ==> Emptied(RoutingInput(s, tr), s.c.kRecv, x.Key())
  {
    hide Sorted, RoutingInput, StartsLastRun, IsSurvivorList, IndexInRange, Emptied, AllInRange;
    AssertsHoldIff(RoutingInput(s, tr), tr.sorted, tr.last, s.c.kRecv, tr.survivors, s.cur, s.c.dimension);
    forall x | x in RoutingInput(s, tr) ensures !IndexInRange(x.lDst, s.cur, s.c.dimension) {
      RoutingInputOutOfRange(s, tr, x);
    }
  }

  ghost predicate AllDummies(v: seq<RoutingTuple>) {
    forall x :: x in v ==> x == DUMMY_ROUTING
  }

  /** Nothing but padding has come: no message to inject, and vectors of dummies only, of which more
      than m_corrupt are equally long and not empty. */
  ghost predicate OnlyPaddingHeard(s: Setting, v: seq<RoutingTuple>) {
    && s.input.inject == []
    && (forall w :: w in s.input.routing ==> AllDummies(w))
    && v in s.input.routing && v != [] && ClassCount(RoutingVecLess, s.input.routing, v) > s.mCorrupt
  }

  lemma PaddingElected(s: Setting, tr: Trace, v: seq<RoutingTuple>)
    requires VotesHeld(s, tr) && OnlyPaddingHeard(s, v)
    ensures tr.injected == []
    ensures forall w :: w in tr.vectors ==> AllDummies(w)
    ensures exists w :: w in tr.vectors && w != []
  {
    hide ClassCount, StrictlyAscending, AllDummies, RoutingVecLess;
    HeadIsMember(tr.injected);
    forall w | w in tr.vectors ensures AllDummies(w) {
      assert FirstOfClass(RoutingVecLess, s.input.routing, w);
    }
    var i :| 0 <= i < |tr.vectors| && Equiv(RoutingVecLess, tr.vectors[i], v);
    SameLength(tr.vectors[i], v);
    assert tr.vectors[i] in tr.vectors;
  }

  lemma HeadIsMember(ms: seq<MessageTuple>)
    ensures ms != [] ==> ms[0] in ms
  {
  }

  lemma SameLength(v: seq<RoutingTuple>, w: seq<RoutingTuple>)
    requires Equiv(RoutingVecLess, v, w)
    ensures |v| == |w|
  {
    LexEquiv(RoutingLess, v, w);
  }

  lemma {:induction false} FlattenedMembers(vectors: seq<seq<RoutingTuple>>, x: RoutingTuple)
    ensures x in Flattened(vectors) <==> exists v :: v in vectors && x in v
  {
    if vectors != [] {
      var n := |vectors| - 1;
      FlattenedMembers(vectors[..n], x);
      assert vectors == vectors[..n] + [vectors[n]];
      if v :| v in vectors[..n] && x in v { assert v in vectors; }
      assert vectors[n] in vectors;
    }
  }

  /** In any round but the first, dummies count as overdue tuples and are routed. */
  lemma PaddingIsRouted(s: Setting, tr: Trace, v: seq<RoutingTuple>)
    requires VotesHeld(s, tr) && OnlyPaddingHeard(s, v) && s.cur >= 1
    ensures RoutingInput(s, tr) != [] && AllDummies(RoutingInput(s, tr))
  {
    PaddingElected(s, tr, v);
    hide VotesHeld, OnlyPaddingHeard, Filter, FlatMap;
    var w :| w in tr.vectors && w != [];
    assert w[0] in w && w[0] == DUMMY_ROUTING;
    FlattenedMembers(tr.vectors, w[0]);
    FilterMembers(Overdue(s), Flattened(tr.vectors));
    NothingToInject(s);
    assert w[0] in Filter(Overdue(s), Flattened(tr.vectors));
    forall x | x in RoutingInput(s, tr) ensures x == DUMMY_ROUTING {
      FlattenedMembers(tr.vectors, x);
    }
  }

  lemma NothingToInject(s: Setting)
    ensures Map(ToRouting(s), Filter(IsReal, [])) == []
  {
  }

  /** The dummies are routed, no marker cancels their bucket, and the asserts fail. */
  lemma PaddingFails(s: Setting, tr: Trace, v: seq<RoutingTuple>)
    requires 2 * s.c.dimension < 64 && s.cur + s.c.RoutingTime() < TWO_64 && s.cur >= 1
    requires OnlyPaddingHeard(s, v) && VotesHeld(s, tr) && Scanned(s, tr)
    ensures !AllInRange(tr.survivors, s.cur, s.c.dimension)
  {
    hide OnlyPaddingHeard, VotesHeld, RoutingInput, AllInRange, Scanned;
    PaddingIsRouted(s, tr, v);
    var x := RoutingInput(s, tr)[0];
    assert x in RoutingInput(s, tr) && x == DUMMY_ROUTING;
    RouteAssertsIff(s, tr);
    DummyIsNoMarker();
    OnlyBucket(RoutingInput(s, tr), x);
  }

  /** A round, not the first, in which nothing but the padding of more than m_corrupt neighbours
      arrives is never carried out. */
  lemma PaddingAborts(s: Setting, tr: Trace, padded: OutMaps, packets: seq<Packet>, v: seq<RoutingTuple>)
    requires 2 * s.c.dimension < 64 && s.cur + s.c.RoutingTime() < TWO_64 && s.cur >= 1
    requires OnlyPaddingHeard(s, v)
    ensures !CarriedOut(s, tr, padded, packets)
  {
    hide OnlyPaddingHeard, VotesHeld, RoutedBy, RoutingInput, IsPadded, IsOutput, MapsOf, SourcesKnown, Scanned,
         AllInRange;
    if CarriedOut(s, tr, padded, packets) {
      RoutedIsScanned(s, tr);
      PaddingFails(s, tr, v);
    }
  }

  /** A packet as a carried-out round sends it to a neighbour when no agreement ends in it. */
  ghost predicate IsPadding(p: Packet, n: nat) {
    p.inject == [] && AllDummies(p.routing) && |p.routing| == n
  }

  lemma {:induction false} PaddingCollected(ps: seq<Packet>, n: nat, v: seq<RoutingTuple>)
    requires n > 0 && |v| == n && AllDummies(v) && forall p :: p in ps ==> IsPadding(p, n)
    ensures Inboxes.Concat((p: Packet) => p.inject, ps) == []
    ensures var vectors := Inboxes.Concat((p: Packet) => if p.routing == [] then [] else [p.routing], ps);
            |vectors| == |ps| && forall w :: w in vectors ==> w == v
  {
    if ps != [] {
      var p := ps[|ps| - 1];
      PaddingCollected(ps[..|ps| - 1], n, v);
      assert p in ps;
      forall i | 0 <= i < n ensures p.routing[i] == v[i] { assert p.routing[i] in p.routing && v[i] in v; }
      assert p.routing == v;
    }
  }

  lemma {:induction false} AllAlikeCount(vectors: seq<seq<RoutingTuple>>, v: seq<RoutingTuple>)
    requires forall w :: w in vectors ==> w == v
    ensures ClassCount(RoutingVecLess, vectors, v) == |vectors|
  {
    if vectors != [] {
      RoutingVecOrder();
      var front := vectors[..|vectors| - 1];
      assert forall w :: w in front ==> w in vectors;
      AllAlikeCount(front, v);
      assert vectors[|vectors| - 1] in vectors;
    }
  }

  /** Concretely: a client whose input was collected from more than m_corrupt neighbours, each sending
      what a carried-out round sends by `NothingIsRouted`, aborts. */
  lemma NeighborsAbort(s: Setting, ps: seq<Packet>, n: nat, tr: Trace, padded: OutMaps, packets: seq<Packet>)
    requires 2 * s.c.dimension < 64 && s.cur + s.c.RoutingTime() < TWO_64 && s.cur >= 1
    requires |ps| > s.mCorrupt && n > 0 && forall p :: p in ps ==> IsPadding(p, n)
    requires s.input == Inboxes.Collected(s.mCorrupt, ps)
    ensures !CarriedOut(s, tr, padded, packets)
  {
    hide CarriedOut, AllDummies, Inboxes.Collected, ClassCount, Inboxes.Concat;
    assert ps[0] in ps;
    var v := ps[0].routing;
    Inboxes.CollectedSections(s.mCorrupt, ps);
    PaddingCollected(ps, n, v);
    AllAlikeCount(s.input.routing, v);
    assert s.input.routing[0] in s.input.routing;
    PaddingAborts(s, tr, padded, packets, v);
  }

  lemma DummyIsNoMarker()
    ensures !DUMMY_ROUTING.m.IsCancel()
  {
  }

  lemma RoutedIsScanned(s: Setting, tr: Trace)
    requires 2 * s.c.dimension < 64 && RoutedBy(s, tr)
    ensures Scanned(s, tr) && AllInRange(tr.survivors, s.cur, s.c.dimension)
  {
    hide Sorted, IsSurvivorList, AllInRange, StartsLastRun, RoutingInput, OneOnidPerPeer;
  }

  /** So a round is carried out to its end only when no tuple at all survives the cancel scan - a
      single surviving tuple, a dummy included, aborts it - and every neighbour is sent exactly
      maxRouting dummies. */
  lemma NothingIsRouted(s: Setting, tr: Trace, padded: OutMaps, packets: seq<Packet>)
    requires 2 * s.c.dimension < 64 && s.cur + s.c.RoutingTime() < TWO_64
    requires CarriedOut(s, tr, padded, packets)
    ensures tr.survivors == []
    ensures forall p :: p in packets ==> AllDummies(p.routing)
    ensures forall p :: p in packets && InRoute(s.ov.gammaRoute, p.receiver) ==> |p.routing| == s.maxRouting
  {
    hide CarriedOut, AllDummies, InRoute, ShapeFor;
    NothingForNeighbors(s, tr, padded, packets);
    forall p | p in packets
      ensures AllDummies(p.routing) && (InRoute(s.ov.gammaRoute, p.receiver) ==> |p.routing| == s.maxRouting)
    {
      OnlyDummies(s, tr, padded, packets, p);
      TrafficShapeOfRound(s, tr, padded, packets, p);
      NeighborShape(s, p.receiver);
    }
  }

  lemma NeighborShape(s: Setting, i: Peer)
    ensures InRoute(s.ov.gammaRoute, i) ==> ShapeFor(s.c, s.maxRouting, s.ov, i).routing == s.maxRouting
  {
    hide InRoute;
  }

  /** What is filled up from nothing is dummies. */
  lemma OnlyDummies(s: Setting, tr: Trace, padded: OutMaps, packets: seq<Packet>, p: Packet)
    requires 2 * s.c.dimension < 64 && CarriedOut(s, tr, padded, packets) && p in packets
    requires forall i :: i in tr.routing ==> tr.routing[i] == []
    ensures AllDummies(p.routing)
  {
    hide VotesHeld, RoutedBy, SourcesKnown, IsOutput, MapsOf, LimitsOf;
    OnePacketPerRecipient(s.own, (s.cur + 1) % TWO_64, padded, packets);
    var n := LimitsOf(s.c, s.maxRouting, s.ov).routing;
    assert MapsOf(s, tr).routing == tr.routing by { MapsRouting(s, tr); }
    FilledUpFromNothing(s.ov, n, tr.routing, padded.routing, p.receiver);
  }

  lemma MapsRouting(s: Setting, tr: Trace)
    ensures MapsOf(s, tr).routing == tr.routing
  {
    hide Filled;
  }

  lemma FilledUpFromNothing(ov: OverlayResult, n: nat, m: map<Peer, seq<RoutingTuple>>,
                            m': map<Peer, seq<RoutingTuple>>, i: Peer)
    requires RoutingPadded(n, ov.gammaRoute, m, m') && forall j :: j in m ==> m[j] == []
    ensures AllDummies(At(m', i))
  {
    hide Padded, IsNeighborList, Fits;
    var list: seq<Peer> :| PaddedAlong(list, n, ov.gammaRoute, m, m');
    PaddedAt(m, list, n, DUMMY_ROUTING, i);
  }

  lemma NothingForNeighbors(s: Setting, tr: Trace, padded: OutMaps, packets: seq<Packet>)
    requires 2 * s.c.dimension < 64 && s.cur + s.c.RoutingTime() < TWO_64
    requires CarriedOut(s, tr, padded, packets)
    ensures tr.survivors == []
    ensures forall i :: i in tr.routing ==> tr.routing[i] == []
  {
    hide Sorted, IsSurvivorList, AllInRange, StartsLastRun, RoutingInput, OneOnidPerPeer, IsPadded, IsOutput, VotesHeld,
         IndexInRange, MapsOf;
    NoSurvivor(s, tr);
    forall i | i in tr.routing ensures tr.routing[i] == [] {
      assert InRoute(s.ov.gammaRoute, i);
      var o :| o in s.ov.gammaRoute && i in s.ov.gammaRoute[o];
      assert AdvanceAll(tr.survivors, s.cur, s.c.dimension, s.itm) == [];
    }
  }

  lemma NoSurvivor(s: Setting, tr: Trace)
    requires 2 * s.c.dimension < 64 && s.cur + s.c.RoutingTime() < TWO_64 && RoutedBy(s, tr)
    ensures tr.survivors == []
  {
    hide Sorted, IsSurvivorList, RoutingInput, OneOnidPerPeer, InRoute, IndexInRange, Towards, AdvanceAll;
    SurvivorsMembers(tr.sorted, tr.last, s.c.kRecv, tr.survivors);
    if tr.survivors != [] {
      var x := tr.survivors[0];
      assert x in tr.sorted && x in multiset(RoutingInput(s, tr));
      RoutingInputOutOfRange(s, tr, x);
    }
  }

  /** Announced to distinct peers, each gets all popped messages, so the assert on the size of the
      announce sections holds iff there are at most k_send * A_max of them. */
  lemma AnnounceFitsIff(s: Setting, tr: Trace)
    requires Distinct(s.ov.gammaSend)
    ensures forall i :: i in s.ov.gammaSend ==> At(MapsOf(s, tr).announce, i) == tr.popped
    ensures Fits(MapsOf(s, tr).announce, s.ov.gammaSend, LimitsOf(s.c, s.maxRouting, s.ov).announce) <==>
              s.ov.gammaSend == [] || |tr.popped| <= s.c.kSend * s.c.kAMax
  {
    BroadcastMap(tr.popped, s.ov.gammaSend);
    hide Broadcast, Filled;
    if s.ov.gammaSend != [] { assert s.ov.gammaSend[0] in s.ov.gammaSend; }
  }
}

/** Where the server and the client meet: a client that starts from the tables the server built
    satisfies what its code relies on; and the traffic of a round in bytes. */
module Bootstrap {
  import opened Bits
  import opened Hypercube
  import opened Ordering
  import opened Outbound
  import opened Overlay
  import opened OverlayRuns
  import opened RoundWork
  import opened ServerEnclave
  import opened Structures
  import S = Serialization
  import W = WireFormat

  /** The tables of a client before its first round. */
  function TablesFrom(t: InitData, uninitialized: U64): Tables {
    FirstTables(t.onidEmul, t.gammaSend, t.gammaReceive, t.gammaRoute, uninitialized)
  }

  lemma {:induction false} MergeNothing(base: seq<Peer>)
    ensures MergeList(base, []) == base
  {
  }

  lemma MergeNoTable(base: Table)
    ensures MergeTables(base, map[]) == base
  {
    var m := MergeTables(base, map[]);
    assert m.Keys == base.Keys;
    forall o | o in base ensures m[o] == base[o] { MergeNothing(base[o]); }
  }

  lemma {:induction false} TouchingKeys(m: Table, onids: seq<U64>)
    requires forall i :: 0 <= i < |onids| ==> onids[i] in m
    ensures TouchAll(m, onids) == m
  {
    if onids != [] { TouchingKeys(m, onids[..|onids| - 1]); }
  }

  /** What the first update - in round 0 - leaves and returns, whatever it receives and draws. */
  lemma FirstUpdate(a: Assignment, i: nat, uninitialized: U64, setS: seq<OverlayMessage>, randomQuorum: U64,
                    order: seq<U64>)
    requires a.Valid() && i < a.z.required
    ensures var t, d := a.InitFor(i), a.z.dimension;
            ResultRoute(AfterSending(Prepared(TablesFrom(t, uninitialized), 0, setS, randomQuorum, d), 0, order, d))
              == t.gammaRoute
  {
    InitialTables(a, i);
    var t, d := a.InitFor(i), a.z.dimension;
    var first := TablesFrom(t, uninitialized);
    hide Neighborhood, OneOnidPerPeer, Distinct, MergeTables, HopInRange, AbsorbedAll, TouchAll;
    assert Staged(first, 0, randomQuorum, d) == first;
    AbsorbingKeepsLists(first, setS);
    var ready := Prepared(first, 0, setS, randomQuorum, d);
    forall k | 0 <= k < |order| ensures HopsOf(order, t.onidEmul, d)[k] in t.gammaRoute {
      HopHasEntry(t.gammaRoute, t.onidEmul, order[k], d);
    }
    TouchingKeys(t.gammaRoute, HopsOf(order, t.onidEmul, d));
    MergeNoTable(t.gammaRoute);
  }

  /** What the first update of client i returns, whatever it receives and draws, in terms of what the
      server knows: it agrees with whoever has drawn its quorum, sends to whoever has drawn the quorum it is
      associated with, receives from the clients associated with its quorum, and routes to whoever has drawn
      its quorum or one that differs from it in one bit. */
  lemma FirstResult(a: Assignment, i: nat, j: nat, uninitialized: U64, setS: seq<OverlayMessage>, randomQuorum: U64,
                    own: Peer, t': Tables, ov: OverlayResult, order: seq<U64>)
    requires a.Valid() && i < a.z.required && j < a.z.required
    requires IsUpdateOf(TablesFrom(a.InitFor(i), uninitialized), 0, setS, randomQuorum, own, a.z.dimension, t', ov,
                        order)
    ensures ov.onidEmul == a.draws[i]
    ensures a.clients[j] in ov.gammaAgree <==> a.draws[j] == a.draws[i]
    ensures a.clients[j] in ov.gammaSend <==> a.clients[i] in a.AssociatedWith(a.draws[j])
    ensures ov.gammaReceive == a.AssociatedWith(a.draws[i])
    ensures forall p :: p in ov.gammaAgree || p in ov.gammaSend ==> p in a.clients
    ensures forall o: U64 :: o in ov.gammaRoute && a.clients[j] in ov.gammaRoute[o] <==>
              a.draws[j] == o && o in Neighborhood(a.draws[i], a.z.dimension)
  {
    var t, d := a.InitFor(i), a.z.dimension;
    InitialLists(a, i, j);
    InitialTables(a, i);
    FirstUpdate(a, i, uninitialized, setS, randomQuorum, order);
    FirstLists(t, uninitialized, setS, randomQuorum, order, d);
    hide Neighborhood, Assignment.InitFor, Assignment.AssociatedWith, AfterSending, Prepared, ResultRoute, Filled,
         OutQueue, HandOverEntries, ForwardEntries, OneOnidPerPeer, Distinct, TablesFrom;
  }

  lemma FirstLists(t: InitData, uninitialized: U64, setS: seq<OverlayMessage>, randomQuorum: U64, order: seq<U64>,
                   d: nat)
    requires d <= 64
    ensures var t1 := AfterSending(Prepared(TablesFrom(t, uninitialized), 0, setS, randomQuorum, d), 0, order, d);
            && t1.onidEmul == t.onidEmul && t1.gammaAgree == RouteAt(t.gammaRoute, t.onidEmul)
            && t1.gammaSend == t.gammaSend && t1.gammaReceive == t.gammaReceive
  {
    hide AbsorbedAll, TouchAll, HopsOf;
    var first := TablesFrom(t, uninitialized);
    assert Staged(first, 0, randomQuorum, d) == first;
    AbsorbingKeepsUse(first, setS);
  }

  /** A client starting from the server's tables: every run of updates keeps its lists, and the lists
      the updates return, free of repetitions; whatever the first update receives and draws, the
      table it returns has every peer under one onid, so the client's assert on it holds in round 0;
      and every greedy hop finds an entry with a member of the next quorum in it. */
  lemma InitialTablesServe(a: Assignment, i: nat, uninitialized: U64, target: U64, ts: seq<Tables>, k: nat)
    requires a.Valid() && i < a.z.required && k < |ts|
    requires ts[0] == TablesFrom(a.InitFor(i), uninitialized)
    requires forall j :: 0 <= j < |ts| - 1 ==> IsUpdate(ts[j], ts[j + 1], a.z.dimension)
    ensures DistinctTables(ts[k]) && DistinctTable(ResultRoute(ts[k]))
    ensures forall setS, randomQuorum: U64, order ::
              OneOnidPerPeer(ResultRoute(
                AfterSending(Prepared(ts[0], 0, setS, randomQuorum, a.z.dimension), 0, order, a.z.dimension)))
    ensures var d, t := a.z.dimension, a.InitFor(i);
            && HopInRange(t.onidEmul, target, d) in t.gammaRoute
            && t.gammaRoute[HopInRange(t.onidEmul, target, d)] != []
  {
    InitialTables(a, i);
    var t, d := a.InitFor(i), a.z.dimension;
    assert DistinctTables(ts[0]) by { NothingDistinct(); }
    hide Neighborhood, OneOnidPerPeer, Distinct, DistinctTables, HopInRange, IsUpdate, ResultRoute, AfterSending,
         Prepared, TablesFrom, DistinctTable, Assignment.InitFor;
    RunsKeepDistinct(ts, d, k);
    HopHasEntry(t.gammaRoute, t.onidEmul, target, d);
    forall setS, randomQuorum: U64, order
      ensures OneOnidPerPeer(ResultRoute(AfterSending(Prepared(ts[0], 0, setS, randomQuorum, d), 0, order, d)))
    {
      FirstUpdate(a, i, uninitialized, setS, randomQuorum, order);
    }
  }

  /** No message hands over tables or introduces a sender. */
  ghost predicate NoHandOver(setS: seq<OverlayMessage>) {
    forall s :: s in setS ==> s.t != HAND_OVER && s.t != SELF_INTRODUCE
  }

  lemma {:induction false} AbsorbingNoHandOver(t: Tables, setS: seq<OverlayMessage>)
    requires NoHandOver(setS)
    ensures var t' := AbsorbedAll(t, setS);
            t'.gammaRouteNew == t.gammaRouteNew && t'.gammaSendNew == t.gammaSendNew
  {
    hide AppendAll;
    if setS != [] {
      AbsorbingNoHandOver(t, setS[..|setS| - 1]);
      assert setS[|setS| - 1] in setS;
    }
  }

  ghost predicate NoLists(m: Table) {
    forall o: U64 :: RouteAt(m, o) == []
  }

  /** The tables after round 0 have nothing prepared to rotate in. */
  lemma NothingPrepared(t: InitData, uninitialized: U64, setS: seq<OverlayMessage>, randomQuorum: U64,
                        order: seq<U64>, d: nat)
    requires d <= 64 && NoHandOver(setS)
    ensures var t1 := AfterSending(Prepared(TablesFrom(t, uninitialized), 0, setS, randomQuorum, d), 0, order, d);
            && t1.gammaRouteNew == map[] && t1.gammaSendNew == [] && t1.gammaAgreePrev == map[]
            && t1.onidEmul == t.onidEmul
  {
    hide AbsorbedAll, TouchAll, HopsOf;
    var first := TablesFrom(t, uninitialized);
    assert Staged(first, 0, randomQuorum, d) == first;
    AbsorbingKeepsLists(first, setS);
    AbsorbingNoHandOver(first, setS);
  }

  /** What round 1 makes of tables with nothing prepared. */
  lemma RotatedToNothing(t: Tables, setS: seq<OverlayMessage>, randomQuorum: U64, order: seq<U64>, d: nat)
    requires d <= 64 && t.gammaRouteNew == map[] && t.gammaSendNew == [] && t.gammaAgreePrev == map[]
    ensures var t' := AfterSending(Prepared(t, 1, setS, randomQuorum, d), 1, order, d);
            && t'.gammaSend == [] && t'.gammaAgree == [] && NoLists(t'.gammaRoute)
            && t'.gammaAgreePrev == t'.gammaRoutePrev
            && t'.gammaRoutePrev == AppendAll(map[], t.onidEmul, RouteAt(t.gammaRouteSucc, t.onidEmul))
  {
    hide AbsorbedAll, TouchAll, HopsOf;
    var rotated := Rotated(t, randomQuorum);
    assert Staged(t, 1, randomQuorum, d) == rotated;
    AbsorbingKeepsLists(rotated, setS);
    var ready := Prepared(t, 1, setS, randomQuorum, d);
    forall o: U64 ensures RouteAt(TouchAll(ready.gammaRoute, HopsOf(order, ready.onidEmul, d)), o) == [] {
      TouchKeepsLists(ready.gammaRoute, HopsOf(order, ready.onidEmul, d), o);
    }
  }

  /** Round 1 rotates in tables that nobody has filled: unless tables were handed over in round 0, the
      client has nobody left to announce to, to agree with or to route to but the successors it was
      told of for its old quorum; the assert on the routing table still holds. */
  lemma SecondUpdateIsolates(a: Assignment, i: nat, uninitialized: U64, setS: seq<OverlayMessage>, randomQuorum: U64,
                             order: seq<U64>, setS': seq<OverlayMessage>, randomQuorum': U64, order': seq<U64>)
    requires a.Valid() && i < a.z.required && NoHandOver(setS)
    ensures var d, t := a.z.dimension, a.InitFor(i);
            var t1 := AfterSending(Prepared(TablesFrom(t, uninitialized), 0, setS, randomQuorum, d), 0, order, d);
            var t2 := AfterSending(Prepared(t1, 1, setS', randomQuorum', d), 1, order', d);
            && t2.gammaSend == [] && t2.gammaAgree == [] && NoLists(t2.gammaRoute)
            && (forall o: U64 :: Elements(RouteAt(ResultRoute(t2), o))
                  == if o == t.onidEmul then Elements(RouteAt(t1.gammaRouteSucc, o)) else {})
            && OneOnidPerPeer(ResultRoute(t2))
  {
    var d, t := a.z.dimension, a.InitFor(i);
    hide Assignment.InitFor, AfterSending, Prepared, TablesFrom, AppendAll, ResultRoute;
    NothingPrepared(t, uninitialized, setS, randomQuorum, order, d);
    var t1 := AfterSending(Prepared(TablesFrom(t, uninitialized), 0, setS, randomQuorum, d), 0, order, d);
    RotatedToNothing(t1, setS', randomQuorum', order', d);
    var t2 := AfterSending(Prepared(t1, 1, setS', randomQuorum', d), 1, order', d);
    OnlySuccessors(t2, t.onidEmul, RouteAt(t1.gammaRouteSucc, t.onidEmul));
  }

  lemma OnlySuccessors(t: Tables, prev: U64, succ: seq<Peer>)
    requires NoLists(t.gammaRoute) && t.gammaAgreePrev == t.gammaRoutePrev == AppendAll(map[], prev, succ)
    ensures forall o: U64 :: Elements(RouteAt(ResultRoute(t), o)) == if o == prev then Elements(succ) else {}
    ensures OneOnidPerPeer(ResultRoute(t))
  {
    hide ResultRoute, MergeTables;
    forall o | o in t.gammaRoute ensures Distinct(t.gammaRoute[o]) { assert RouteAt(t.gammaRoute, o) == []; }
    ResultExtends(t);
    forall o: U64 ensures Elements(RouteAt(ResultRoute(t), o)) == if o == prev then Elements(succ) else {} {
      assert RouteAt(t.gammaRoute, o) == [] && Elements<Peer>([]) == {};
    }
    forall o, o', p | o in ResultRoute(t) && o' in ResultRoute(t) && p in ResultRoute(t)[o] && p in ResultRoute(t)[o']
      ensures o == o'
    {
      assert p in Elements(RouteAt(ResultRoute(t), o)) && p in Elements(RouteAt(ResultRoute(t), o'));
    }
  }

  lemma NothingDistinct()
    ensures Distinct<Peer>([])
  {
  }

  lemma Emulator(a: Assignment, q: nat) returns (j: nat)
    requires a.Valid() && q < a.z.Quorums()
    ensures j < a.z.required && a.draws[j] == q
  {
    EmulatingMembers(a.clients, a.draws, q, |a.clients|, a.Emulated(q)[0]);
    j :| 0 <= j < |a.clients| && a.clients[j] == a.Emulated(q)[0] && a.draws[j] == q;
  }

  /** From the quorum of any client the greedy rule reaches any onid of the overlay in as many hops
      as bits differ; on each hop some client emulates the quorum the message is at, and its table
      lists a client that emulates the next one. */
  lemma RelayChain(a: Assignment, i: nat, target: U64, k: nat) returns (here: nat, there: nat)
    requires a.Valid() && i < a.z.required && target < a.z.Quorums()
    requires k < Hamming(a.draws[i], target, a.z.dimension)
    ensures here < a.z.required && a.draws[here] == Walk(a.draws[i], target, a.z.dimension, k)
    ensures there < a.z.required && a.draws[there] == Walk(a.draws[i], target, a.z.dimension, k + 1)
    ensures k + 1 == Hamming(a.draws[i], target, a.z.dimension) ==> a.draws[there] == target
    ensures var o: int, route := a.draws[there], a.InitFor(here).gammaRoute;
            o in route && a.clients[there] in route[o]
  {
    hide Neighborhood, NextHop, Hamming, Walk, Pow2, Emulating;
    var d, from := a.z.dimension, a.draws[i];
    QuorumsFit(a.z);
    WalkReachesTarget(from, target, d);
    WalkInRange(from, target, d, k);
    WalkInRange(from, target, d, k + 1);
    here := Emulator(a, Walk(from, target, d, k));
    there := Emulator(a, Walk(from, target, d, k + 1));
    assert ProperHop(from, target, d, k);
    EmulatedIff(a, a.draws[there], there);
  }

  // ---------------------------------------------------------------- the traffic in bytes

  /** Two rounds with the same overlay result give each recipient announce, routing and predeliver
      sections, and if it is in gamma_receive a deliver section, of the same length in bytes. */
  lemma SameSectionBytes(s1: Setting, tr1: Trace, padded1: OutMaps, packets1: seq<Packet>, p1: Packet,
                         s2: Setting, tr2: Trace, padded2: OutMaps, packets2: seq<Packet>, p2: Packet)
    requires 2 * s1.c.dimension < 64 && s1.c == s2.c && s1.maxRouting == s2.maxRouting && s1.ov == s2.ov
    requires CarriedOut(s1, tr1, padded1, packets1) && p1 in packets1
    requires CarriedOut(s2, tr2, padded2, packets2) && p2 in packets2
    requires p1.receiver == p2.receiver
    ensures |S.EncVec(W.EncMessage, p1.announce)| == |S.EncVec(W.EncMessage, p2.announce)|
    ensures |S.EncVec(W.EncRouting, p1.routing)| == |S.EncVec(W.EncRouting, p2.routing)|
    ensures |S.EncVec(W.EncMessage, p1.predeliver)| == |S.EncVec(W.EncMessage, p2.predeliver)|
    ensures p1.receiver in s1.ov.gammaReceive ==>
              |S.EncVec(W.EncMessage, p1.deliver)| == |S.EncVec(W.EncMessage, p2.deliver)|
  {
    hide CarriedOut, S.EncVec, W.EncMessage, W.EncRouting;
    SameOverlaySameShape(s1, tr1, padded1, packets1, p1, s2, tr2, padded2, packets2, p2);
    W.MessagesLength(p1.announce);
    W.MessagesLength(p2.announce);
    W.MessagesLength(p1.predeliver);
    W.MessagesLength(p2.predeliver);
    W.MessagesLength(p1.deliver);
    W.MessagesLength(p2.deliver);
    W.RoutingsLength(p1.routing);
    W.RoutingsLength(p2.routing);
  }
}

/** The overlay structure scheme: the neighbour tables of a client, and the messages with which
    they are kept up. */
module Overlay {
  import opened Bits
  import opened Hypercube
  import opened Ordering
  import opened Outbound
  import opened Structures

  // ---------------------------------------------------------------- lists and tables

  /** `m[k]` also creates the entry when it is missing. */
  function Touch(m: Table, k: U64): (r: Table)
    ensures k in r
  {
    if k in m then m else m[k := []]
  }

  /** Pushing all of `list` to the end of `m[k]`. */
  function AppendAll(m: Table, k: U64, list: seq<Peer>): Table {
    if list == [] then m else m[k := RouteAt(m, k) + list]
  }

  /** Adding the elements that are not there yet. */
  function MergeList(base: seq<Peer>, extra: seq<Peer>): seq<Peer> {
    if extra == [] then base
    else
      var rest := MergeList(base, extra[..|extra| - 1]);
      if extra[|extra| - 1] in rest then rest else rest + [extra[|extra| - 1]]
  }

  /** Merging list by list; an empty list creates no entry. */
  function MergeTables(base: Table, extra: Table): Table {
    map o | o in base.Keys + extra.Keys && (o in base || extra[o] != []) ::
      MergeList(RouteAt(base, o), RouteAt(extra, o))
  }

  lemma {:induction false} MergeListProperties(base: seq<Peer>, extra: seq<Peer>)
    ensures base <= MergeList(base, extra)
    ensures Elements(MergeList(base, extra)) == Elements(base) + Elements(extra)
    ensures Distinct(base) ==> Distinct(MergeList(base, extra))
  {
    if extra != [] {
      var n := |extra| - 1;
      MergeListProperties(base, extra[..n]);
      var rest := MergeList(base, extra[..n]);
      assert extra == extra[..n] + [extra[n]];
      assert Elements(extra) == Elements(extra[..n]) + {extra[n]};
      assert Elements(rest + [extra[n]]) == Elements(rest) + {extra[n]};
      assert extra[n] in rest <==> extra[n] in Elements(rest);
    }
  }

  method MergeInto(base: seq<Peer>, extra: seq<Peer>) returns (merged: seq<Peer>)
    ensures merged == MergeList(base, extra)
  {
    merged := base;
    for i := 0 to |extra|
      invariant merged == MergeList(base, extra[..i])
    {
      assert extra[..i + 1][..i] == extra[..i];
      if extra[i] !in merged {
        merged := merged + [extra[i]];
      }
    }
    assert extra[..|extra|] == extra;
  }

  /** What has been merged when the keys in `rest` are still to come. */
  ghost predicate MergedUpTo(base: Table, extra: Table, rest: set<U64>, merged: Table) {
    forall o: U64 ::
      if o in rest then RouteAt(merged, o) == RouteAt(base, o) && (o in merged <==> o in base)
      else RouteAt(merged, o) == MergeList(RouteAt(base, o), RouteAt(extra, o))
           && (o in merged <==> o in base || (o in extra && extra[o] != []))
  }

  lemma MergedAll(base: Table, extra: Table, merged: Table)
    requires MergedUpTo(base, extra, {}, merged)
    ensures merged == MergeTables(base, extra)
  {
    var m := MergeTables(base, extra);
    forall o: U64 ensures (o in merged <==> o in m) && (o in m ==> merged[o] == m[o]) {
      assert RouteAt(merged, o) == MergeList(RouteAt(base, o), RouteAt(extra, o));
    }
    assert merged.Keys == m.Keys;
  }

  method MergeTableInto(base: Table, extra: Table) returns (merged: Table)
    ensures merged == MergeTables(base, extra)
  {
    merged := base;
    var rest := extra.Keys;
    assert MergedUpTo(base, extra, rest, merged);
    while rest != {}
      invariant rest <= extra.Keys
      invariant MergedUpTo(base, extra, rest, merged)
      decreases rest
    {
      var o :| o in rest;
      if extra[o] != [] {
        var list := MergeInto(RouteAt(merged, o), extra[o]);
        merged := merged[o := list];
      }
      rest := rest - {o};
    }
    MergedAll(base, extra, merged);
  }

  ghost predicate DistinctTable(m: Table) {
    forall o :: o in m ==> Distinct(m[o])
  }

  lemma MergeTablesDistinct(base: Table, extra: Table)
    requires DistinctTable(base)
    ensures DistinctTable(MergeTables(base, extra))
  {
    var m := MergeTables(base, extra);
    forall o | o in m ensures Distinct(m[o]) {
      MergeListProperties(RouteAt(base, o), RouteAt(extra, o));
    }
  }

  // ---------------------------------------------------------------- the tables of a client

  datatype Tables = Tables(
    onidEmul: U64, onidEmulPrev: U64, onidEmulNew: U64,
    gammaAgree: seq<Peer>, gammaSend: seq<Peer>, gammaReceive: seq<Peer>, gammaRoute: Table,
    gammaAgreePrev: Table, gammaSendNew: seq<Peer>, gammaRouteNew: Table, gammaRouteSucc: Table,
    gammaRoutePrev: Table, gammaReceiveNew: seq<Peer>)

  type Queue = map<U64, seq<OverlayMessage>>

  function QueueAt(q: Queue, o: U64): seq<OverlayMessage> {
    if o in q then q[o] else []
  }

  function Enqueue(q: Queue, o: U64, m: OverlayMessage): Queue {
    q[o := QueueAt(q, o) + [m]]
  }

  function EmulateRequest(onid: U64, p: Peer): OverlayMessage {
    OverlayMessage(EMULATE_REQUEST, onid, p, map[], [])
  }

  function EmulateRequestReceived(onid: U64, p: Peer): OverlayMessage {
    OverlayMessage(EMULATE_REQUEST_RECEIVED, onid, p, map[], [])
  }

  function HandOver(gammaRoute: Table, gammaReceive: seq<Peer>): OverlayMessage {
    OverlayMessage(HAND_OVER, 0, Peer(0, Uri(0, 0, 0, 0, 0)), gammaRoute, gammaReceive)
  }

  /** The source builds this message with the type of a hand-over. */
  function SelfIntroduction(p: Peer): OverlayMessage {
    OverlayMessage(HAND_OVER, 0, p, map[], [])
  }

  /** Step (3): the overlay moves on by one reconfiguration. */
  function Rotated(t: Tables, randomQuorum: U64): Tables {
    var prev := t.onidEmul;
    var route := Touch(t.gammaRouteNew, t.onidEmulNew);
    var succ := RouteAt(t.gammaRouteSucc, prev);
    t.(onidEmulPrev := prev, onidEmul := t.onidEmulNew,
       gammaAgree := route[t.onidEmulNew], gammaSend := t.gammaSendNew, gammaRoute := route,
       onidEmulNew := randomQuorum, gammaSendNew := [], gammaRouteNew := map[],
       gammaAgreePrev := AppendAll(t.gammaAgreePrev, prev, succ),
       gammaRoutePrev := AppendAll(map[], prev, succ), gammaRouteSucc := map[])
  }

  /** Step (4); the source compares gamma_receive_ with the new list instead of assigning it. */
  function AfterHandOver(t: Tables): Tables {
    var route := Touch(t.gammaRoute, t.onidEmul);
    t.(gammaReceiveNew := [], gammaRoute := route,
       gammaRoutePrev := AppendAll(t.gammaRoutePrev, t.onidEmul, route[t.onidEmul]))
  }

  /** Step (5). */
  function AfterAgreement(t: Tables): Tables {
    var route := Touch(t.gammaRoute, t.onidEmul);
    t.(gammaRoute := route, gammaAgreePrev := AppendAll(map[], t.onidEmul, route[t.onidEmul]))
  }

  /** Step (6), the part that changes tables. */
  function Absorbed(t: Tables, s: OverlayMessage): Tables {
    if s.t == EMULATE_REQUEST_RECEIVED then
      t.(gammaRouteSucc := AppendAll(t.gammaRouteSucc, s.onid, [s.peer]))
    else if s.t == HAND_OVER then
      t.(gammaRouteNew := MergeTables(t.gammaRouteNew, s.gammaRoute),
         gammaReceiveNew := MergeList(t.gammaReceiveNew, s.gammaReceive))
    else if s.t == SELF_INTRODUCE then
      t.(gammaSendNew := t.gammaSendNew + [s.peer])
    else t
  }

  function AbsorbedAll(t: Tables, setS: seq<OverlayMessage>): Tables {
    if setS == [] then t else Absorbed(AbsorbedAll(t, setS[..|setS| - 1]), setS[|setS| - 1])
  }

  /** Absorbing messages changes nothing that is in use. */
  lemma {:induction false} AbsorbingKeepsLists(t: Tables, setS: seq<OverlayMessage>)
    ensures var t' := AbsorbedAll(t, setS);
            && t'.gammaRoute == t.gammaRoute && t'.onidEmul == t.onidEmul
            && t'.gammaAgreePrev == t.gammaAgreePrev && t'.gammaRoutePrev == t.gammaRoutePrev
            && t'.gammaSend == t.gammaSend && t'.gammaAgree == t.gammaAgree
  {
    hide MergeTables, MergeList;
    if setS != [] { AbsorbingKeepsLists(t, setS[..|setS| - 1]); }
  }

  function EnqueueEach(q: Queue, onids: seq<nat>, m: OverlayMessage): Queue
    requires forall k :: 0 <= k < |onids| ==> onids[k] < TWO_64
  {
    if onids == [] then q else Enqueue(EnqueueEach(q, onids[..|onids| - 1], m), onids[|onids| - 1], m)
  }

  /** Step (6)(a): an emulate request is passed on unless it has arrived, and all neighbours are
      told of it. */
  function Queued(q: Queue, onidEmul: U64, s: OverlayMessage, d: nat): Queue
    requires d <= 64
  {
    if s.t != EMULATE_REQUEST then q
    else
      NeighborhoodInRange(onidEmul, d);
      EnqueueEach(if s.onid != onidEmul then Enqueue(q, s.onid, s) else q,
                  Neighborhood(onidEmul, d), EmulateRequestReceived(s.onid, s.peer))
  }

  function QueuedAll(q: Queue, onidEmul: U64, setS: seq<OverlayMessage>, d: nat): Queue
    requires d <= 64
  {
    if setS == [] then q else Queued(QueuedAll(q, onidEmul, setS[..|setS| - 1], d), onidEmul, setS[|setS| - 1], d)
  }

  lemma NeighborhoodInRange(x: U64, d: nat)
    requires d <= 64
    ensures forall k :: 0 <= k < d + 1 ==> Neighborhood(x, d)[k] < TWO_64
  {
    Pow2Of64();
    forall k | 0 <= k < d + 1 ensures Neighborhood(x, d)[k] < TWO_64 {
      if k > 0 { SetBitBound(x, k - 1, true, 64); }
    }
  }

  /** Step (9): every queued message goes to the whole quorum that is next on the way to its onid. */
  function ForwardEntries(order: seq<U64>, q: Queue, t: Tables, d: nat): seq<Entry<OverlayMessage>> {
    if order == [] then []
    else
      var o := order[|order| - 1];
      ForwardEntries(order[..|order| - 1], q, t, d)
      + Broadcast(QueueAt(q, o), RouteAt(t.gammaRoute, NextHop(t.onidEmul, o, d)))
  }

  function TouchAll(m: Table, onids: seq<U64>): Table {
    if onids == [] then m else Touch(TouchAll(m, onids[..|onids| - 1]), onids[|onids| - 1])
  }

  function HopsOf(order: seq<U64>, onidEmul: U64, d: nat): seq<U64>
    requires d <= 64
  {
    seq(|order|, k requires 0 <= k < |order| => HopInRange(onidEmul, order[k], d))
  }

  function HopInRange(onidEmul: U64, o: U64, d: nat): U64
    requires d <= 64
  {
    Pow2Of64();
    NextHopCloser(onidEmul, o, d);
    NeighborsBound64(onidEmul, NextHop(onidEmul, o, d), d);
    NextHop(onidEmul, o, d)
  }

  lemma NeighborsBound64(x: U64, y: nat, d: nat)
    requires d <= 64 && y in Neighborhood(x, d)
    ensures y < TWO_64
  {
    NeighborhoodInRange(x, d);
    var k :| 0 <= k < d + 1 && Neighborhood(x, d)[k] == y;
  }

  /** Step (10): the current lists, completed by those of the previous quorums. */
  function ResultRoute(t: Tables): Table {
    MergeTables(MergeTables(t.gammaRoute, t.gammaAgreePrev), t.gammaRoutePrev)
  }

  // ---------------------------------------------------------------- one update

  function Period(d: nat): nat { (d + 7) / 2 }

  function Phase(round: U64, d: nat): nat { round % Period(d) }

  /** Steps (3) to (5). */
  function Staged(t: Tables, round: U64, randomQuorum: U64, d: nat): Tables {
    var t3 := if Phase(round, d) == 1 then Rotated(t, randomQuorum) else t;
    var t4 := if Phase(round, d) == 2 then AfterHandOver(t3) else t3;
    if Phase(round, d) == d + 2 + 1 then AfterAgreement(t4) else t4
  }

  /** Steps (3) to (6): the tables with which messages are sent in this round. */
  function Prepared(t: Tables, round: U64, setS: seq<OverlayMessage>, randomQuorum: U64, d: nat): Tables {
    AbsorbedAll(Staged(t, round, randomQuorum, d), setS)
  }

  function InitialQueue(round: U64, own: Peer, randomQuorum: U64, d: nat): Queue {
    if Phase(round, d) == 1 then map[randomQuorum := [EmulateRequest(randomQuorum, own)]] else map[]
  }

  /** Steps (7) and (8): hand-over to the successors, introduction to the new receivers. */
  function HandOverEntries(t: Tables, round: U64, own: Peer, d: nat): seq<Entry<OverlayMessage>> {
    (if Phase(round, d) == d + 2
     then ToEach(HandOver(Touch(t.gammaRouteSucc, t.onidEmul), t.gammaReceive), RouteAt(t.gammaRouteSucc, t.onidEmul))
     else [])
    + (if Phase(round, d) == d + 3 then ToEach(SelfIntroduction(own), t.gammaReceiveNew) else [])
  }

  /** The messages of step (9) by the onid they are on the way to. */
  function OutQueue(t: Tables, round: U64, setS: seq<OverlayMessage>, randomQuorum: U64, own: Peer, d: nat): Queue
    requires d <= 64
  {
    QueuedAll(InitialQueue(round, own, randomQuorum, d), Staged(t, round, randomQuorum, d).onidEmul, setS, d)
  }

  /** Step (7) looks up its own quorum among the successors. */
  function Sending(t: Tables, round: U64, d: nat): Tables {
    if Phase(round, d) == d + 2 then t.(gammaRouteSucc := Touch(t.gammaRouteSucc, t.onidEmul)) else t
  }

  function AfterSending(t: Tables, round: U64, order: seq<U64>, d: nat): Tables
    requires d <= 64
  {
    Sending(t, round, d).(gammaRoute := TouchAll(t.gammaRoute, HopsOf(order, t.onidEmul, d)))
  }

  /** One update leaves the tables `t'` and returns `ov`: each list returned is the table of that name.
      `order` are the onids for which messages are sent in step (9). */
  ghost predicate IsUpdateOf(t: Tables, round: U64, setS: seq<OverlayMessage>, randomQuorum: U64, own: Peer, d: nat,
                             t': Tables, ov: OverlayResult, order: seq<U64>)
    requires d <= 64
  {
    var ready := Prepared(t, round, setS, randomQuorum, d);
    var q := OutQueue(t, round, setS, randomQuorum, own, d);
    && StrictlyAscending(OnidLess, order) && Elements(order) == q.Keys
    && t' == AfterSending(ready, round, order, d)
    && ov.onidEmul == t'.onidEmul && ov.gammaAgree == t'.gammaAgree && ov.gammaSend == t'.gammaSend
    && ov.gammaReceive == t'.gammaReceive && ov.gammaRoute == ResultRoute(t')
    && ov.structure == Filled(HandOverEntries(ready, round, own, d)
                              + ForwardEntries(order, q, Sending(ready, round, d), d))
  }

  /** The tables of a client before its first update. */
  function FirstTables(onidEmul: U64, gammaSend: seq<Peer>, gammaReceive: seq<Peer>, gammaRoute: Table,
                       uninitialized: U64): Tables
  {
    Tables(onidEmul, onidEmul, uninitialized, RouteAt(gammaRoute, onidEmul), gammaSend, gammaReceive, gammaRoute,
           map[], [], map[], map[], map[], [])
  }

  class OverlayStructureScheme {
    var t: Tables
    const dimension: nat
    const own: Peer

    constructor (onidEmul: U64, gammaSend: seq<Peer>, gammaReceive: seq<Peer>, gammaRoute: Table,
                 dimension: nat, own: Peer, uninitialized: U64)
      requires onidEmul in gammaRoute && dimension <= 64
      ensures this.dimension == dimension && this.own == own
      ensures t == FirstTables(onidEmul, gammaSend, gammaReceive, gammaRoute, uninitialized)
    {
      this.dimension := dimension;
      this.own := own;
      t := Tables(onidEmul, onidEmul, uninitialized, gammaRoute[onidEmul], gammaSend, gammaReceive, gammaRoute,
                  map[], [], map[], map[], map[], []);
    }

    method Rotate(randomQuorum: U64)
      modifies this
      ensures t == Rotated(old(t), randomQuorum)
    {
      var prev := t.onidEmul;
      t := t.(onidEmulPrev := prev);
      t := t.(onidEmul := t.onidEmulNew);
      t := t.(gammaRouteNew := Touch(t.gammaRouteNew, t.onidEmul));
      t := t.(gammaAgree := t.gammaRouteNew[t.onidEmul]);
      t := t.(gammaSend := t.gammaSendNew, gammaRoute := t.gammaRouteNew);
      t := t.(onidEmulNew := randomQuorum);
      t := t.(gammaSendNew := [], gammaRouteNew := map[]);
      var succ := RouteAt(t.gammaRouteSucc, prev);
      t := t.(gammaAgreePrev := AppendAll(t.gammaAgreePrev, prev, succ));
      t := t.(gammaRoutePrev := AppendAll(map[], prev, succ));
      t := t.(gammaRouteSucc := map[]);
    }

    method Absorb(s: OverlayMessage)
      modifies this
      ensures t == Absorbed(old(t), s)
    {
      if s.t == EMULATE_REQUEST_RECEIVED {
        t := t.(gammaRouteSucc := AppendAll(t.gammaRouteSucc, s.onid, [s.peer]));
      }
      if s.t == HAND_OVER {
        var route := MergeTableInto(t.gammaRouteNew, s.gammaRoute);
        t := t.(gammaRouteNew := route);
        var receive := MergeInto(t.gammaReceiveNew, s.gammaReceive);
        t := t.(gammaReceiveNew := receive);
      }
      if s.t == SELF_INTRODUCE {
        t := t.(gammaSendNew := t.gammaSendNew + [s.peer]);
      }
    }

    method QueueMessage(q: Queue, s: OverlayMessage) returns (q': Queue)
      requires dimension <= 64
      ensures q' == Queued(q, t.onidEmul, s, dimension)
    {
      q' := q;
      if s.t == EMULATE_REQUEST {
        NeighborhoodInRange(t.onidEmul, dimension);
        if s.onid != t.onidEmul {
          q' := Enqueue(q', s.onid, s);
        }
        ghost var start := q';
        var neighbors := ForAllNeighbors(t.onidEmul, dimension);
        hide Neighborhood, Enqueue;
        for k := 0 to |neighbors|
          invariant q' == EnqueueEach(start, neighbors[..k], EmulateRequestReceived(s.onid, s.peer))
        {
          assert neighbors[..k + 1][..k] == neighbors[..k];
          q' := Enqueue(q', neighbors[k], EmulateRequestReceived(s.onid, s.peer));
        }
        assert neighbors[..|neighbors|] == neighbors;
      }
    }

    /** Step (6) for all messages. */
    method Process(q: Queue, setS: seq<OverlayMessage>) returns (q': Queue)
      requires dimension <= 64
      modifies this
      ensures t == AbsorbedAll(old(t), setS) && q' == QueuedAll(q, old(t).onidEmul, setS, dimension)
    {
      hide Absorbed, Queued;
      q' := q;
      AbsorbingKeepsLists(t, []);
      for k := 0 to |setS|
        invariant t == AbsorbedAll(old(t), setS[..k]) && t.onidEmul == old(t).onidEmul
        invariant q' == QueuedAll(q, old(t).onidEmul, setS[..k], dimension)
      {
        assert setS[..k + 1][..k] == setS[..k];
        AbsorbingKeepsLists(old(t), setS[..k + 1]);
        q' := QueueMessage(q', setS[k]);
        Absorb(setS[k]);
      }
      assert setS[..|setS|] == setS;
    }

    /** Step (9). */
    method Forward(q: Queue, sPrime: map<Peer, seq<OverlayMessage>>, ghost entries: seq<Entry<OverlayMessage>>)
      returns (sPrime': map<Peer, seq<OverlayMessage>>, ghost order: seq<U64>)
      requires dimension <= 64 && sPrime == Filled(entries)
      modifies this
      ensures StrictlyAscending(OnidLess, order) && Elements(order) == q.Keys
      ensures sPrime' == Filled(entries + ForwardEntries(order, q, old(t), dimension))
      ensures t == old(t).(gammaRoute := TouchAll(old(t).gammaRoute, HopsOf(order, old(t).onidEmul, dimension)))
    {
      hide *;
      var route;
      sPrime', route, order := ForwardAll(q, t, dimension, sPrime, entries);
      t := t.(gammaRoute := route);
    }

    /** One update. */
    method Update(round: U64, setS: seq<OverlayMessage>, randomQuorum: U64)
      returns (result: OverlayResult, ghost order: seq<U64>)
      requires dimension <= 64
      modifies this
      ensures IsUpdateOf(old(t), round, setS, randomQuorum, own, dimension, t, result, order)
      ensures result.onidEmul == t.onidEmul && result.gammaAgree == t.gammaAgree && result.gammaSend == t.gammaSend
      ensures result.gammaReceive == t.gammaReceive && result.gammaRoute == ResultRoute(t)
    {
      hide Filled, ForwardEntries, AbsorbedAll, QueuedAll, TouchAll, HopsOf, MergeTables, Rotated, AfterHandOver,
           AfterAgreement, Phase;
      var q := InitialQueue(round, own, randomQuorum, dimension);
      if Phase(round, dimension) == 1 {
        Rotate(randomQuorum);
      }
      if Phase(round, dimension) == 2 {
        t := AfterHandOver(t);
      }
      if Phase(round, dimension) == dimension + 2 + 1 {
        t := AfterAgreement(t);
      }
      q := Process(q, setS);
      ghost var ready := t;
      var sPrime := SendHandOvers(round);
      ghost var entries := HandOverEntries(ready, round, own, dimension);
      sPrime, order := Forward(q, sPrime, entries);
      var route := MergeTableInto(t.gammaRoute, t.gammaAgreePrev);
      route := MergeTableInto(route, t.gammaRoutePrev);
      result := OverlayResult(t.onidEmul, t.gammaAgree, t.gammaSend, route, t.gammaReceive, sPrime);
    }

    /** Steps (7) and (8). */
    method SendHandOvers(round: U64) returns (sPrime: map<Peer, seq<OverlayMessage>>)
      modifies this
      ensures t == Sending(old(t), round, dimension)
      ensures sPrime == Filled(HandOverEntries(old(t), round, own, dimension))
    {
      sPrime := map[];
      ghost var entries: seq<Entry<OverlayMessage>> := [];
      if Phase(round, dimension) == dimension + 2 {
        t := t.(gammaRouteSucc := Touch(t.gammaRouteSucc, t.onidEmul));
        sPrime := PushBroadcast(sPrime, HandOver(t.gammaRouteSucc, t.gammaReceive), t.gammaRouteSucc[t.onidEmul],
                                entries);
        entries := entries + ToEach(HandOver(t.gammaRouteSucc, t.gammaReceive), t.gammaRouteSucc[t.onidEmul]);
      }
      if Phase(round, dimension) == dimension + 3 {
        sPrime := PushBroadcast(sPrime, SelfIntroduction(own), t.gammaReceiveNew, entries);
        entries := entries + ToEach(SelfIntroduction(own), t.gammaReceiveNew);
      }
      assert entries == HandOverEntries(old(t), round, own, dimension);
    }
  }

  method AscendingOnids(q: Queue) returns (keys: seq<U64>)
    ensures StrictlyAscending(OnidLess, keys) && Elements(keys) == q.Keys
  {
    OnidOrder();
    keys := Ascending(q.Keys, OnidLess);
  }

  /** Step (9) on values. `order` are the onids of the queue in ascending order, `route` is the
      table after the lookups. */
  method ForwardAll(q: Queue, t: Tables, d: nat, sPrime: map<Peer, seq<OverlayMessage>>,
                    ghost entries: seq<Entry<OverlayMessage>>)
    returns (sPrime': map<Peer, seq<OverlayMessage>>, route: Table, ghost order: seq<U64>)
    requires d <= 64 && sPrime == Filled(entries)
    ensures StrictlyAscending(OnidLess, order) && Elements(order) == q.Keys
    ensures sPrime' == Filled(entries + ForwardEntries(order, q, t, d))
    ensures route == TouchAll(t.gammaRoute, HopsOf(order, t.onidEmul, d))
  {
    hide *;
    var keys := AscendingOnids(q);
    order := keys;
    sPrime', route := sPrime, t.gammaRoute;
    ForwardStart(entries, keys, q, t, d);
    for k := 0 to |keys|
      invariant sPrime' == Filled(entries + ForwardEntries(keys[..k], q, t, d))
      invariant route == TouchAll(t.gammaRoute, HopsOf(keys[..k], t.onidEmul, d))
    {
      ForwardStep(entries, keys, k, q, t, d);
      var hop := DetermineNextHop(t.onidEmul, keys[k], d);
      route := Touch(route, hop);
      sPrime' := PushItems(sPrime', QueueAt(q, keys[k]), route[hop],
                           entries + ForwardEntries(keys[..k], q, t, d));
    }
    assert keys[..|keys|] == keys;
  }

  lemma ForwardStart(entries: seq<Entry<OverlayMessage>>, keys: seq<U64>, q: Queue, t: Tables, d: nat)
    requires d <= 64
    ensures entries + ForwardEntries(keys[..0], q, t, d) == entries
    ensures TouchAll(t.gammaRoute, HopsOf(keys[..0], t.onidEmul, d)) == t.gammaRoute
  {
  }

  lemma ForwardStep(entries: seq<Entry<OverlayMessage>>, keys: seq<U64>, k: nat, q: Queue, t: Tables, d: nat)
    requires d <= 64 && k < |keys|
    ensures var hop := NextHop(t.onidEmul, keys[k], d);
            var route := TouchAll(t.gammaRoute, HopsOf(keys[..k], t.onidEmul, d));
            && hop < TWO_64
            && TouchAll(t.gammaRoute, HopsOf(keys[..k + 1], t.onidEmul, d)) == Touch(route, hop)
            && entries + ForwardEntries(keys[..k + 1], q, t, d)
                 == entries + ForwardEntries(keys[..k], q, t, d)
                    + Broadcast(QueueAt(q, keys[k]), Touch(route, hop)[hop])
  {
    hide NextHop, TouchAll, ForwardEntries, Touch, Broadcast;
    var hop := HopInRange(t.onidEmul, keys[k], d);
    var hops := HopsOf(keys[..k], t.onidEmul, d);
    assert HopsOf(keys[..k + 1], t.onidEmul, d) == hops + [hop];
    assert keys[..k + 1] == keys[..k] + [keys[k]];
    TouchAllStep(t.gammaRoute, hops, hop);
    ForwardEntriesStep(keys[..k], keys[k], q, t, d);
    TouchKeepsLists(t.gammaRoute, hops, hop);
    TouchedList(TouchAll(t.gammaRoute, hops), hop);
  }

  lemma TouchAllStep(m: Table, onids: seq<U64>, o: U64)
    ensures TouchAll(m, onids + [o]) == Touch(TouchAll(m, onids), o)
  {
    assert (onids + [o])[..|onids|] == onids;
  }

  lemma TouchedList(m: Table, o: U64)
    ensures Touch(m, o)[o] == RouteAt(m, o)
  {
  }

  lemma ForwardEntriesStep(order: seq<U64>, o: U64, q: Queue, t: Tables, d: nat)
    ensures ForwardEntries(order + [o], q, t, d)
         == ForwardEntries(order, q, t, d) + Broadcast(QueueAt(q, o), RouteAt(t.gammaRoute, NextHop(t.onidEmul, o, d)))
  {
    hide NextHop, Broadcast;
    assert (order + [o])[..|order|] == order;
  }

  lemma {:induction false} TouchKeepsLists(m: Table, onids: seq<U64>, o: U64)
    ensures RouteAt(TouchAll(m, onids), o) == RouteAt(m, o)
  {
    if onids != [] { TouchKeepsLists(m, onids[..|onids| - 1], o); }
  }

  // ---------------------------------------------------------------- no peer twice in a list

  ghost predicate DistinctTables(t: Tables) {
    DistinctTable(t.gammaRoute) && DistinctTable(t.gammaRouteNew) && Distinct(t.gammaReceiveNew)
  }

  /** `t'` are tables that one update may leave, whatever it receives and draws. */
  ghost predicate IsUpdate(t: Tables, t': Tables, d: nat)
    requires d <= 64
  {
    exists round: U64, setS: seq<OverlayMessage>, randomQuorum: U64, order: seq<U64> ::
      t' == AfterSending(Prepared(t, round, setS, randomQuorum, d), round, order, d)
  }

  lemma StagedKeepsDistinct(t: Tables, round: U64, randomQuorum: U64, d: nat)
    requires DistinctTables(t)
    ensures DistinctTables(Staged(t, round, randomQuorum, d))
  {
  }

  lemma {:induction false} AbsorbedKeepsDistinct(t: Tables, setS: seq<OverlayMessage>)
    requires DistinctTables(t)
    ensures DistinctTables(AbsorbedAll(t, setS))
  {
    hide DistinctTables, Absorbed;
    if setS != [] {
      AbsorbedKeepsDistinct(t, setS[..|setS| - 1]);
      AbsorbOneKeepsDistinct(AbsorbedAll(t, setS[..|setS| - 1]), setS[|setS| - 1]);
    }
  }

  lemma AbsorbOneKeepsDistinct(t: Tables, s: OverlayMessage)
    requires DistinctTables(t)
    ensures DistinctTables(Absorbed(t, s))
  {
    hide MergeTables, MergeList, AppendAll, DistinctTable, Distinct;
    MergeTablesDistinct(t.gammaRouteNew, s.gammaRoute);
    MergeListProperties(t.gammaReceiveNew, s.gammaReceive);
  }

  lemma {:induction false} TouchAllDistinct(m: Table, onids: seq<U64>)
    requires DistinctTable(m)
    ensures DistinctTable(TouchAll(m, onids))
  {
    if onids != [] { TouchAllDistinct(m, onids[..|onids| - 1]); }
  }

  lemma UpdateKeepsDistinct(t: Tables, t': Tables, d: nat)
    requires d <= 64 && DistinctTables(t) && IsUpdate(t, t', d)
    ensures DistinctTables(t')
  {
    hide AbsorbedAll, Staged, TouchAll, DistinctTable;
    var round: U64, setS: seq<OverlayMessage>, randomQuorum: U64, order: seq<U64> :|
      t' == AfterSending(Prepared(t, round, setS, randomQuorum, d), round, order, d);
    StagedKeepsDistinct(t, round, randomQuorum, d);
    AbsorbedKeepsDistinct(Staged(t, round, randomQuorum, d), setS);
    var ready := Prepared(t, round, setS, randomQuorum, d);
    TouchAllDistinct(ready.gammaRoute, HopsOf(order, ready.onidEmul, d));
  }

  /** The list returned for an onid continues the current list, and has the members of the
      current and of both previous lists. */
  ghost predicate ExtendsLists(t: Tables, result: Table) {
    forall o: U64 ::
      && RouteAt(t.gammaRoute, o) <= RouteAt(result, o)
      && Elements(RouteAt(result, o)) == Elements(RouteAt(t.gammaRoute, o))
           + Elements(RouteAt(t.gammaAgreePrev, o)) + Elements(RouteAt(t.gammaRoutePrev, o))
  }

  lemma MergeTablesAt(base: Table, extra: Table, o: U64)
    ensures RouteAt(MergeTables(base, extra), o) == MergeList(RouteAt(base, o), RouteAt(extra, o))
  {
  }

  lemma ResultExtends(t: Tables)
    ensures ExtendsLists(t, ResultRoute(t))
    ensures DistinctTable(t.gammaRoute) ==> DistinctTable(ResultRoute(t))
  {
    var first := MergeTables(t.gammaRoute, t.gammaAgreePrev);
    if DistinctTable(t.gammaRoute) {
      MergeTablesDistinct(t.gammaRoute, t.gammaAgreePrev);
      MergeTablesDistinct(first, t.gammaRoutePrev);
    }
    hide MergeTables;
    forall o: U64 ensures
      && RouteAt(t.gammaRoute, o) <= RouteAt(ResultRoute(t), o)
      && Elements(RouteAt(ResultRoute(t), o)) == Elements(RouteAt(t.gammaRoute, o))
           + Elements(RouteAt(t.gammaAgreePrev, o)) + Elements(RouteAt(t.gammaRoutePrev, o))
    {
      MergeTablesAt(t.gammaRoute, t.gammaAgreePrev, o);
      MergeTablesAt(first, t.gammaRoutePrev, o);
      MergeListProperties(RouteAt(t.gammaRoute, o), RouteAt(t.gammaAgreePrev, o));
      MergeListProperties(RouteAt(first, o), RouteAt(t.gammaRoutePrev, o));
    }
  }

  /** Over every sequence of updates from duplicate-free tables, the tables stay duplicate-free, and
      so does every routing table an update returns. */
  lemma {:induction false} RunsKeepDistinct(ts: seq<Tables>, d: nat, k: nat)
    requires d <= 64 && k < |ts| && DistinctTables(ts[0])
    requires forall i :: 0 <= i < |ts| - 1 ==> IsUpdate(ts[i], ts[i + 1], d)
    ensures DistinctTables(ts[k])
    ensures DistinctTable(ResultRoute(ts[k])) && ExtendsLists(ts[k], ResultRoute(ts[k]))
  {
    hide IsUpdate, DistinctTable, ResultRoute, ExtendsLists;
    if k > 0 {
      RunsKeepDistinct(ts, d, k - 1);
      assert IsUpdate(ts[k - 1], ts[k - 1 + 1], d);
      UpdateKeepsDistinct(ts[k - 1], ts[k], d);
    }
    ResultExtends(ts[k]);
  }

  // ---------------------------------------------------------------- where messages go

  /** A queued message is sent to a peer iff the peer belongs to the quorum next on the way. */
  lemma {:induction false} ForwardedTo(order: seq<U64>, q: Queue, t: Tables, d: nat, e: Entry<OverlayMessage>)
    ensures e in ForwardEntries(order, q, t, d) <==>
              exists o :: o in order && e.item in QueueAt(q, o)
                          && e.peer in RouteAt(t.gammaRoute, NextHop(t.onidEmul, o, d))
  {
    hide NextHop;
    if order != [] {
      var n := |order| - 1;
      var o := order[n];
      ForwardedTo(order[..n], q, t, d, e);
      BroadcastMembers(QueueAt(q, o), RouteAt(t.gammaRoute, NextHop(t.onidEmul, o, d)), e);
      assert order == order[..n] + [o];
      assert forall x :: x in order <==> x in order[..n] || x == o;
    }
  }

  lemma {:induction false} BroadcastMembers<T>(items: seq<T>, peers: seq<Peer>, e: Entry<T>)
    ensures e in Broadcast(items, peers) <==> e.item in items && e.peer in peers
  {
    if items != [] {
      var n := |items| - 1;
      BroadcastMembers(items[..n], peers, e);
      assert items == items[..n] + [items[n]];
      assert e in ToEach(items[n], peers) <==> e.item == items[n] && e.peer in peers by {
        if e.item == items[n] && e.peer in peers {
          var k :| 0 <= k < |peers| && peers[k] == e.peer;
          assert ToEach(items[n], peers)[k] == e;
        }
      }
    }
  }

  lemma {:induction false} EnqueueEachKeeps(q: Queue, onids: seq<nat>, m: OverlayMessage, o: U64, x: OverlayMessage)
    requires forall k :: 0 <= k < |onids| ==> onids[k] < TWO_64
    ensures x in QueueAt(EnqueueEach(q, onids, m), o) <==> x in QueueAt(q, o) || (x == m && o in onids)
  {
    if onids != [] {
      var n := |onids| - 1;
      EnqueueEachKeeps(q, onids[..n], m, o, x);
      assert onids == onids[..n] + [onids[n]];
      assert forall y :: y in onids <==> y in onids[..n] || y == onids[n];
    }
  }

  /** An emulate request is passed on, to the quorum one bit closer to its onid, at every quorum
      but the one it is for; there its forwarding ends. Each neighbour is told of it in one hop. */
  lemma RequestForwarding(q: Queue, t: Tables, s: OverlayMessage, d: nat)
    requires d <= 64 && s.t == EMULATE_REQUEST
    ensures var q' := Queued(q, t.onidEmul, s, d);
            && (s in QueueAt(q', s.onid) <==> s in QueueAt(q, s.onid) || s.onid != t.onidEmul)
            && (forall o: U64 :: o in Neighborhood(t.onidEmul, d) ==>
                  EmulateRequestReceived(s.onid, s.peer) in QueueAt(q', o) && NextHop(t.onidEmul, o, d) == o)
    ensures s.onid != t.onidEmul && s.onid < Pow2(d) && t.onidEmul < Pow2(d) ==>
              Hamming(NextHop(t.onidEmul, s.onid, d), s.onid, d) == Hamming(t.onidEmul, s.onid, d) - 1
  {
    hide NextHop, Neighborhood, EnqueueEach, Hamming, Pow2;
    NeighborhoodInRange(t.onidEmul, d);
    var told := EmulateRequestReceived(s.onid, s.peer);
    var start := if s.onid != t.onidEmul then Enqueue(q, s.onid, s) else q;
    EnqueueEachKeeps(start, Neighborhood(t.onidEmul, d), told, s.onid, s);
    forall o: U64 | o in Neighborhood(t.onidEmul, d)
      ensures told in QueueAt(Queued(q, t.onidEmul, s, d), o) && NextHop(t.onidEmul, o, d) == o
    {
      EnqueueEachKeeps(start, Neighborhood(t.onidEmul, d), told, o, told);
      NeighborInOneHop(t.onidEmul, o, d);
    }
    if s.onid != t.onidEmul && s.onid < Pow2(d) && t.onidEmul < Pow2(d) {
      NextHopCloser(t.onidEmul, s.onid, d);
      if Hamming(t.onidEmul, s.onid, d) == 0 {
        WalkReachesTarget(t.onidEmul, s.onid, d);
        assert Walk(t.onidEmul, s.onid, d, 0) == t.onidEmul;
      }
    }
  }

  /** With a table for the whole neighbourhood, as the server builds it, every hop finds an entry. */
  lemma HopHasEntry(gammaRoute: Table, onidEmul: U64, o: U64, d: nat)
    requires d <= 64 && forall x: U64 :: x in Neighborhood(onidEmul, d) ==> x in gammaRoute
    ensures HopInRange(onidEmul, o, d) in gammaRoute
    ensures Touch(gammaRoute, HopInRange(onidEmul, o, d)) == gammaRoute
  {
    NextHopCloser(onidEmul, o, d);
  }

  /** When the phases after the rotation come: that of step (7), the hand-over, only in dimensions 0
      and 1; that of steps (5) and (8) in none, since the period is (d + 7) / 2. */
  lemma HandOverPhases(d: nat)
    ensures (exists r: U64 :: Phase(r, d) == d + 2) <==> d <= 1
    ensures forall r: U64 :: Phase(r, d) != d + 3
  {
    if d <= 1 { assert Phase(d + 2, d) == d + 2; }
  }
}

/** The outgoing side of a round: the seven maps from recipient to entries, their padding with
    dummies, and the packets made of them. */
module Outbound {
  import opened Bits
  import opened Ordering
  import opened Rounds
  import opened Sequences
  import opened Structures

  /** What one update of the overlay structure scheme returns. */
  datatype OverlayResult = OverlayResult(
    onidEmul: U64, gammaAgree: seq<Peer>, gammaSend: seq<Peer>, gammaRoute: Table,
    gammaReceive: seq<Peer>, structure: map<Peer, seq<OverlayMessage>>)

  datatype OutMaps = OutMaps(
    announce: map<Peer, seq<MessageTuple>>,
    agreement: map<Peer, seq<AgreementTuple>>,
    inject: map<Peer, seq<MessageTuple>>,
    routing: map<Peer, seq<RoutingTuple>>,
    predeliver: map<Peer, seq<MessageTuple>>,
    deliver: map<Peer, seq<MessageTuple>>,
    structure: map<Peer, seq<OverlayMessage>>)

  /** `m[i]` of a std::map of vectors. */
  function At<T>(m: map<Peer, seq<T>>, i: Peer): seq<T> {
    if i in m then m[i] else []
  }

  // ---------------------------------------------------------------- filling a map

  datatype Entry<T> = Entry(peer: Peer, item: T)

  function Push<T>(m: map<Peer, seq<T>>, i: Peer, x: T): map<Peer, seq<T>> {
    m[i := At(m, i) + [x]]
  }

  /** The map into which the entries have been pushed one after another. */
  function Filled<T>(entries: seq<Entry<T>>): map<Peer, seq<T>> {
    if entries == [] then map[]
    else
      var e := entries[|entries| - 1];
      Push(Filled(entries[..|entries| - 1]), e.peer, e.item)
  }

  lemma FilledStep<T>(entries: seq<Entry<T>>, e: Entry<T>)
    ensures Filled(entries + [e]) == Push(Filled(entries), e.peer, e.item)
  {
    assert (entries + [e])[..|entries|] == entries;
  }

  function ItemsFor<T>(entries: seq<Entry<T>>, i: Peer): seq<T> {
    Map((e: Entry<T>) => e.item, Filter((e: Entry<T>) => e.peer == i, entries))
  }

  lemma {:induction false} FilledAt<T>(entries: seq<Entry<T>>, i: Peer)
    ensures At(Filled(entries), i) == ItemsFor(entries, i)
    ensures i in Filled(entries) ==> exists k :: 0 <= k < |entries| && entries[k].peer == i
  {
    if entries != [] {
      var n := |entries| - 1;
      FilledAt(entries[..n], i);
      if i in Filled(entries[..n]) {
        var k :| 0 <= k < n && entries[..n][k].peer == i;
        assert entries[k].peer == i;
      }
      if entries[n].peer == i {
        var f := Filter((e: Entry<T>) => e.peer == i, entries[..n]);
        MapConcat((e: Entry<T>) => e.item, f, [entries[n]]);
      }
    }
  }

  lemma {:induction false} FilledContains<T>(entries: seq<Entry<T>>, e: Entry<T>)
    requires e in entries
    ensures e.peer in Filled(entries) && e.item in At(Filled(entries), e.peer)
  {
    var n := |entries| - 1;
    assert entries == entries[..n] + [entries[n]];
    if e in entries[..n] { FilledContains(entries[..n], e); }
  }

  lemma {:induction false} FilledMembers<T>(entries: seq<Entry<T>>, i: Peer, x: T)
    ensures x in At(Filled(entries), i) <==> Entry(i, x) in entries
  {
    if entries != [] {
      var n := |entries| - 1;
      FilledMembers(entries[..n], i, x);
      assert entries == entries[..n] + [entries[n]];
    }
  }

  /** Sending each of `items` to each of `peers`. */
  function Broadcast<T>(items: seq<T>, peers: seq<Peer>): seq<Entry<T>> {
    FlatMap((x: T) => ToEach(x, peers), items)
  }

  function ToEach<T>(x: T, peers: seq<Peer>): seq<Entry<T>> {
    Map((p: Peer) => Entry(p, x), peers)
  }

  lemma {:induction false} ToEachFor<T>(x: T, peers: seq<Peer>, i: Peer)
    requires Distinct(peers)
    ensures ItemsFor(ToEach(x, peers), i) == if i in peers then [x] else []
  {
    if peers != [] {
      var n := |peers| - 1;
      var rest := peers[..n];
      ToEachFor(x, rest, i);
      assert peers == rest + [peers[n]];
      assert ToEach(x, peers) == ToEach(x, rest) + [Entry(peers[n], x)];
      ItemsForConcat(ToEach(x, rest), [Entry(peers[n], x)], i);
      assert [Entry(peers[n], x)][..0] == [];
      assert ItemsFor([Entry(peers[n], x)], i) == if peers[n] == i then [x] else [];
    }
  }

  lemma ItemsForConcat<T>(a: seq<Entry<T>>, b: seq<Entry<T>>, i: Peer)
    ensures ItemsFor(a + b, i) == ItemsFor(a, i) + ItemsFor(b, i)
  {
    var p := (e: Entry<T>) => e.peer == i;
    FilterConcat(p, a, b);
    MapConcat((e: Entry<T>) => e.item, Filter(p, a), Filter(p, b));
  }

  /** A broadcast to distinct peers gives each of them all items, and nothing to anyone else. */
  lemma {:induction false} BroadcastAt<T>(items: seq<T>, peers: seq<Peer>, i: Peer)
    requires Distinct(peers)
    ensures ItemsFor(Broadcast(items, peers), i) == if i in peers then items else []
  {
    if items != [] {
      hide Broadcast, ItemsFor, ToEach, Distinct;
      var n := |items| - 1;
      assert items == items[..n] + [items[n]];
      BroadcastAt(items[..n], peers, i);
      ToEachFor(items[n], peers, i);
      BroadcastStep(items[..n], items[n], peers);
      ItemsForConcat(Broadcast(items[..n], peers), ToEach(items[n], peers), i);
    }
  }

  lemma BroadcastStep<T>(items: seq<T>, x: T, peers: seq<Peer>)
    ensures Broadcast(items + [x], peers) == Broadcast(items, peers) + ToEach(x, peers)
  {
    assert (items + [x])[..|items|] == items;
  }

  lemma {:induction false} BroadcastKeys<T>(items: seq<T>, peers: seq<Peer>)
    ensures forall e :: e in Broadcast(items, peers) ==> e.peer in peers
  {
    if items != [] { BroadcastKeys(items[..|items| - 1], peers); }
  }

  /** A map filled by a broadcast has keys among the peers only. */
  lemma BroadcastMap<T>(items: seq<T>, peers: seq<Peer>)
    ensures Filled(Broadcast(items, peers)).Keys <= Elements(peers)
    ensures Distinct(peers) ==>
              forall i :: At(Filled(Broadcast(items, peers)), i) == if i in peers then items else []
  {
    forall i | i in Filled(Broadcast(items, peers)) ensures i in Elements(peers) {
      FilledAt(Broadcast(items, peers), i);
      BroadcastKeys(items, peers);
    }
    if Distinct(peers) {
      forall i ensures At(Filled(Broadcast(items, peers)), i) == if i in peers then items else [] {
        FilledAt(Broadcast(items, peers), i);
        BroadcastAt(items, peers, i);
      }
    }
  }

  method PushBroadcast<T>(m: map<Peer, seq<T>>, x: T, peers: seq<Peer>, ghost entries: seq<Entry<T>>)
    returns (m': map<Peer, seq<T>>)
    requires m == Filled(entries)
    ensures m' == Filled(entries + ToEach(x, peers))
  {
    m' := m;
    assert entries + ToEach(x, peers[..0]) == entries;
    for k := 0 to |peers|
      invariant m' == Filled(entries + ToEach(x, peers[..k]))
    {
      hide Filled, Push;
      ghost var es := entries + ToEach(x, peers[..k]);
      assert entries + ToEach(x, peers[..k + 1]) == es + [Entry(peers[k], x)];
      FilledStep(es, Entry(peers[k], x));
      m' := Push(m', peers[k], x);
    }
    assert peers[..|peers|] == peers;
  }

  lemma BroadcastGrows<T>(entries: seq<Entry<T>>, items: seq<T>, k: nat, peers: seq<Peer>)
    requires k < |items|
    ensures entries + Broadcast(items[..k], peers) + ToEach(items[k], peers)
         == entries + Broadcast(items[..k + 1], peers)
  {
    hide Broadcast, ToEach;
    assert items[..k + 1] == items[..k] + [items[k]];
    BroadcastStep(items[..k], items[k], peers);
  }

  method PushItems<T>(m: map<Peer, seq<T>>, items: seq<T>, peers: seq<Peer>, ghost entries: seq<Entry<T>>)
    returns (m': map<Peer, seq<T>>)
    requires m == Filled(entries)
    ensures m' == Filled(entries + Broadcast(items, peers))
  {
    m' := m;
    assert entries + Broadcast(items[..0], peers) == entries;
    hide Filled, Broadcast, ToEach;
    for k := 0 to |items|
      invariant m' == Filled(entries + Broadcast(items[..k], peers))
    {
      m' := PushBroadcast(m', items[k], peers, entries + Broadcast(items[..k], peers));
      BroadcastGrows(entries, items, k, peers);
    }
    assert items[..|items|] == items;
  }

  // ---------------------------------------------------------------- routing

  /** Every peer stands once, under one onid. */
  ghost predicate OneOnidPerPeer(gammaRoute: Table) {
    && (forall o :: o in gammaRoute ==> Distinct(gammaRoute[o]))
    && (forall o, o', i :: o in gammaRoute && o' in gammaRoute && i in gammaRoute[o] && i in gammaRoute[o'] ==> o == o')
  }

  ghost predicate InRoute(gammaRoute: Table, i: Peer) {
    exists o :: o in gammaRoute && i in gammaRoute[o]
  }

  function Towards(onid: U64, routed: seq<RoutingTuple>): seq<RoutingTuple> {
    Filter((r: RoutingTuple) => r.onidCurrent == onid, routed)
  }

  method InsertAbsent<V>(m: map<Peer, V>, peers: seq<Peer>, v: V) returns (ok: bool, m': map<Peer, V>)
    ensures ok <==> Distinct(peers) && forall i :: i in peers ==> i !in m
    ensures ok ==> m'.Keys == m.Keys + Elements(peers)
    ensures ok ==> forall i :: i in m' ==> m'[i] == if i in m then m[i] else v
  {
    m' := m;
    for n := 0 to |peers|
      invariant Distinct(peers[..n]) && forall i :: i in peers[..n] ==> i !in m
      invariant m'.Keys == m.Keys + Elements(peers[..n])
      invariant forall i :: i in m' ==> m'[i] == if i in m then m[i] else v
    {
      assert peers[n] in peers[..n] <==> peers[n] in Elements(peers[..n]);
      if peers[n] in m' {
        if peers[n] in peers[..n] {
          var j :| 0 <= j < n && peers[..n][j] == peers[n];
          assert peers[j] == peers[n];
        }
        return false, m';
      }
      m' := m'[peers[n] := v];
    }
    assert peers[..|peers|] == peers;
    ok := true;
  }

  /** The neighbours of the first `k` onids have their tuples, each neighbour once. */
  ghost predicate RoutedUpTo(gammaRoute: Table, keys: seq<U64>, k: nat, routed: seq<RoutingTuple>,
                             m: map<Peer, seq<RoutingTuple>>)
    requires k <= |keys| && forall j :: 0 <= j < |keys| ==> keys[j] in gammaRoute
  {
    && (forall j :: 0 <= j < k ==> Distinct(gammaRoute[keys[j]]))
    && (forall j, j', i :: 0 <= j < j' < k && i in gammaRoute[keys[j]] ==> i !in gammaRoute[keys[j']])
    && (forall i :: i in m ==> exists j :: 0 <= j < k && i in gammaRoute[keys[j]])
    && (forall j, i :: 0 <= j < k && i in gammaRoute[keys[j]] ==> i in m && m[i] == Towards(keys[j], routed))
  }

  /** Copies the routed tuples to the neighbours. `ok` is false when the assert on the uniqueness
      of peers fails. */
  method RouteToNeighbors(gammaRoute: Table, routed: seq<RoutingTuple>)
    returns (ok: bool, m: map<Peer, seq<RoutingTuple>>)
    ensures ok <==> OneOnidPerPeer(gammaRoute)
    ensures ok ==> forall i :: i in m <==> InRoute(gammaRoute, i)
    ensures ok ==> forall o, i :: o in gammaRoute && i in gammaRoute[o] ==> i in m && m[i] == Towards(o, routed)
    ensures ok ==> forall i, x :: i in m && x in m[i] <==>
              x in routed && x.onidCurrent in gammaRoute && i in gammaRoute[x.onidCurrent]
  {
    OnidOrder();
    var keys := Ascending(gammaRoute.Keys, OnidLess);
    assert forall j :: 0 <= j < |keys| ==> keys[j] in Elements(keys);
    m := map[];
    for k := 0 to |keys|
      invariant RoutedUpTo(gammaRoute, keys, k, routed, m)
    {
      ghost var before := m;
      ok, m := InsertAbsent(m, gammaRoute[keys[k]], Towards(keys[k], routed));
      if !ok {
        NotOnePerPeer(gammaRoute, keys, k, routed, before);
        return;
      }
      RoutedStep(gammaRoute, keys, k, routed, before, m);
    }
    RoutedAll(gammaRoute, keys, routed, m);
    RoutedMembers(gammaRoute, routed, m);
    ok := true;
  }

  lemma RoutedMembers(gammaRoute: Table, routed: seq<RoutingTuple>, m: map<Peer, seq<RoutingTuple>>)
    requires OneOnidPerPeer(gammaRoute) && forall i :: i in m <==> InRoute(gammaRoute, i)
    requires forall o, i :: o in gammaRoute && i in gammaRoute[o] ==> i in m && m[i] == Towards(o, routed)
    ensures forall i, x :: i in m && x in m[i] <==>
              x in routed && x.onidCurrent in gammaRoute && i in gammaRoute[x.onidCurrent]
  {
    forall i, x ensures i in m && x in m[i] <==>
      x in routed && x.onidCurrent in gammaRoute && i in gammaRoute[x.onidCurrent]
    {
      if i in m {
        var o :| o in gammaRoute && i in gammaRoute[o];
        FilterMembers((r: RoutingTuple) => r.onidCurrent == o, routed);
      }
    }
  }

  lemma NotOnePerPeer(gammaRoute: Table, keys: seq<U64>, k: nat, routed: seq<RoutingTuple>,
                      m: map<Peer, seq<RoutingTuple>>)
    requires k < |keys| && Distinct(keys) && forall j :: 0 <= j < |keys| ==> keys[j] in gammaRoute
    requires RoutedUpTo(gammaRoute, keys, k, routed, m)
    requires !Distinct(gammaRoute[keys[k]]) || exists i :: i in gammaRoute[keys[k]] && i in m
    ensures !OneOnidPerPeer(gammaRoute)
  {
    if i :| i in gammaRoute[keys[k]] && i in m {
      var j :| 0 <= j < k && i in gammaRoute[keys[j]];
      assert keys[j] != keys[k];
    }
  }

  lemma RoutedStep(gammaRoute: Table, keys: seq<U64>, k: nat, routed: seq<RoutingTuple>,
                   before: map<Peer, seq<RoutingTuple>>, m: map<Peer, seq<RoutingTuple>>)
    requires k < |keys| && forall j :: 0 <= j < |keys| ==> keys[j] in gammaRoute
    requires RoutedUpTo(gammaRoute, keys, k, routed, before)
    requires Distinct(gammaRoute[keys[k]]) && forall i :: i in gammaRoute[keys[k]] ==> i !in before
    requires m.Keys == before.Keys + Elements(gammaRoute[keys[k]])
    requires forall i :: i in m ==> m[i] == if i in before then before[i] else Towards(keys[k], routed)
    ensures RoutedUpTo(gammaRoute, keys, k + 1, routed, m)
  {
    hide Towards;
    forall i | i in m ensures exists j :: 0 <= j < k + 1 && i in gammaRoute[keys[j]] {
      if i in before {
        var j :| 0 <= j < k && i in gammaRoute[keys[j]];
      } else {
        assert i in gammaRoute[keys[k]];
      }
    }
    forall j, i | 0 <= j < k + 1 && i in gammaRoute[keys[j]] ensures i in m && m[i] == Towards(keys[j], routed) {
      if j == k { assert i in Elements(gammaRoute[keys[k]]); }
    }
  }

  lemma RoutedAll(gammaRoute: Table, keys: seq<U64>, routed: seq<RoutingTuple>,
                  m: map<Peer, seq<RoutingTuple>>)
    requires Elements(keys) == gammaRoute.Keys && forall j :: 0 <= j < |keys| ==> keys[j] in gammaRoute
    requires RoutedUpTo(gammaRoute, keys, |keys|, routed, m)
    ensures OneOnidPerPeer(gammaRoute)
    ensures forall i :: i in m <==> InRoute(gammaRoute, i)
    ensures forall o, i :: o in gammaRoute && i in gammaRoute[o] ==> i in m && m[i] == Towards(o, routed)
  {
    hide Towards;
    forall o | o in gammaRoute ensures exists j :: 0 <= j < |keys| && keys[j] == o {
      assert o in Elements(keys);
    }
    forall i | i in m ensures InRoute(gammaRoute, i) {
      var j :| 0 <= j < |keys| && i in gammaRoute[keys[j]];
    }
    forall o, o', i | o in gammaRoute && o' in gammaRoute && i in gammaRoute[o] && i in gammaRoute[o']
      ensures o == o'
    {
      var j :| 0 <= j < |keys| && keys[j] == o;
      var j' :| 0 <= j' < |keys| && keys[j'] == o';
    }
  }

  // ---------------------------------------------------------------- dummies

  function Dummies<T>(n: nat, dummy: T): seq<T> {
    seq(n, _ => dummy)
  }

  ghost predicate Fits<T>(m: map<Peer, seq<T>>, peers: seq<Peer>, n: nat) {
    forall i :: i in peers ==> |At(m, i)| <= n
  }

  function FillUp<T>(list: seq<T>, n: nat, dummy: T): seq<T> {
    if |list| < n then list + Dummies(n - |list|, dummy) else list
  }

  /** Every listed peer filled up to `n` entries, one after the other. */
  function Padded<T>(m: map<Peer, seq<T>>, peers: seq<Peer>, n: nat, dummy: T): map<Peer, seq<T>> {
    if peers == [] then m
    else
      var rest := Padded(m, peers[..|peers| - 1], n, dummy);
      var i := peers[|peers| - 1];
      rest[i := FillUp(At(rest, i), n, dummy)]
  }

  lemma {:induction false} PaddedAt<T>(m: map<Peer, seq<T>>, peers: seq<Peer>, n: nat, dummy: T, i: Peer)
    ensures At(Padded(m, peers, n, dummy), i) == if i in peers then FillUp(At(m, i), n, dummy) else At(m, i)
    ensures i in Padded(m, peers, n, dummy) <==> i in m || i in peers
  {
    if peers != [] {
      var k := |peers| - 1;
      PaddedAt(m, peers[..k], n, dummy, i);
      assert i in peers <==> i in peers[..k] || i == peers[k];
    }
  }

  lemma PaddedStep<T>(m: map<Peer, seq<T>>, peers: seq<Peer>, k: nat, n: nat, dummy: T)
    requires k < |peers|
    ensures Padded(m, peers[..k + 1], n, dummy)
         == Padded(m, peers[..k], n, dummy)[peers[k] := FillUp(At(Padded(m, peers[..k], n, dummy), peers[k]), n, dummy)]
    ensures Fits(m, peers[..k], n) ==>
              (|At(Padded(m, peers[..k], n, dummy), peers[k])| > n <==> |At(m, peers[k])| > n)
  {
    PaddedLength(m, peers[..k], n, dummy, peers[k]);
    hide FillUp, Fits;
    assert peers[..k + 1][..k] == peers[..k];
  }

  lemma PaddedLength<T>(m: map<Peer, seq<T>>, peers: seq<Peer>, n: nat, dummy: T, i: Peer)
    ensures Fits(m, peers, n) ==> (|At(Padded(m, peers, n, dummy), i)| > n <==> |At(m, i)| > n)
  {
    PaddedAt(m, peers, n, dummy, i);
    hide Padded;
  }

  method PadList<T>(list: seq<T>, n: nat, dummy: T) returns (padded: seq<T>)
    ensures padded == FillUp(list, n, dummy)
  {
    padded := list;
    while |padded| < n
      invariant |list| <= |padded| && (|padded| <= n || padded == list)
      invariant padded == list + Dummies(|padded| - |list|, dummy)
      decreases n - |padded|
    {
      padded := padded + [dummy];
    }
  }

  /** Fills up the listed peers. `ok` is false when one of them has more than `n` entries. */
  method Pad<T>(m: map<Peer, seq<T>>, peers: seq<Peer>, n: nat, dummy: T)
    returns (ok: bool, m': map<Peer, seq<T>>)
    ensures ok <==> Fits(m, peers, n)
    ensures ok ==> m' == Padded(m, peers, n, dummy)
  {
    m' := m;
    assert Padded(m, peers[..0], n, dummy) == m;
    hide Padded, FillUp;
    for k := 0 to |peers|
      invariant Fits(m, peers[..k], n)
      invariant m' == Padded(m, peers[..k], n, dummy)
    {
      PaddedStep(m, peers, k, n, dummy);
      if |At(m', peers[k])| > n {
        assert peers[k] in peers;
        return false, m';
      }
      var list := PadList(At(m', peers[k]), n, dummy);
      m' := m'[peers[k] := list];
    }
    assert peers[..|peers|] == peers;
    ok := true;
  }

  // ---------------------------------------------------------------- the shape of the traffic

  /** The numbers of entries to which the four kinds of section are filled up. */
  datatype Limits = Limits(announce: nat, routing: nat, predeliver: nat, deliver: nat)

  function LimitsOf(c: Config, maxRouting: nat, ov: OverlayResult): Limits {
    Limits(c.kSend * c.kAMax, maxRouting, c.kRecv * c.kAMax * |ov.gammaReceive|, c.kRecv * c.kAMax)
  }

  ghost predicate IsPadded(l: Limits, ov: OverlayResult, maps: OutMaps, maps': OutMaps) {
    && Fits(maps.announce, ov.gammaSend, l.announce)
    && Fits(maps.predeliver, RouteAt(ov.gammaRoute, ov.onidEmul), l.predeliver)
    && Fits(maps.deliver, ov.gammaReceive, l.deliver)
    && maps'.announce == Padded(maps.announce, ov.gammaSend, l.announce, DUMMY)
    && maps'.predeliver == Padded(maps.predeliver, RouteAt(ov.gammaRoute, ov.onidEmul), l.predeliver, DUMMY)
    && maps'.deliver == Padded(maps.deliver, ov.gammaReceive, l.deliver, DUMMY)
    && RoutingPadded(l.routing, ov.gammaRoute, maps.routing, maps'.routing)
    && maps'.agreement == maps.agreement && maps'.inject == maps.inject && maps'.structure == maps.structure
  }

  ghost predicate IsNeighborList(gammaRoute: Table, list: seq<Peer>) {
    forall i :: i in list <==> InRoute(gammaRoute, i)
  }

  ghost predicate PaddedAlong(list: seq<Peer>, n: nat, gammaRoute: Table,
                              m: map<Peer, seq<RoutingTuple>>, m': map<Peer, seq<RoutingTuple>>)
  {
    IsNeighborList(gammaRoute, list) && Fits(m, list, n) && m' == Padded(m, list, n, DUMMY_ROUTING)
  }

  ghost predicate RoutingPadded(n: nat, gammaRoute: Table, m: map<Peer, seq<RoutingTuple>>,
                                m': map<Peer, seq<RoutingTuple>>)
  {
    exists list: seq<Peer> :: PaddedAlong(list, n, gammaRoute, m, m')
  }

  /** The neighbours in the order of the nested loops over gamma_route. */
  method AllNeighbors(gammaRoute: Table) returns (list: seq<Peer>)
    ensures IsNeighborList(gammaRoute, list)
  {
    OnidOrder();
    var keys := Ascending(gammaRoute.Keys, OnidLess);
    assert forall j :: 0 <= j < |keys| ==> keys[j] in Elements(keys);
    list := [];
    for k := 0 to |keys|
      invariant forall i :: i in list <==> exists j :: 0 <= j < k && i in gammaRoute[keys[j]]
    {
      list := list + gammaRoute[keys[k]];
    }
    forall i ensures i in list <==> InRoute(gammaRoute, i) {
      if i in list {
        var j :| 0 <= j < |keys| && i in gammaRoute[keys[j]];
      }
      if InRoute(gammaRoute, i) {
        var o :| o in gammaRoute && i in gammaRoute[o];
        assert o in Elements(keys);
      }
    }
  }

  /** Adds the dummy messages. `ok` is false when an assert on the size of a section fails. */
  method AddDummies(l: Limits, ov: OverlayResult, maps: OutMaps) returns (ok: bool, maps': OutMaps)
    ensures ok ==> IsPadded(l, ov, maps, maps')
    ensures !ok ==> !(Fits(maps.announce, ov.gammaSend, l.announce)
                      && (forall i :: InRoute(ov.gammaRoute, i) ==> |At(maps.routing, i)| <= l.routing)
                      && Fits(maps.predeliver, RouteAt(ov.gammaRoute, ov.onidEmul), l.predeliver)
                      && Fits(maps.deliver, ov.gammaReceive, l.deliver))
  {
    hide Padded, RouteAt, InRoute;
    maps' := maps;
    var announce, routing, predeliver, deliver;
    ok, announce := Pad(maps.announce, ov.gammaSend, l.announce, DUMMY);
    if !ok { return; }
    var list := AllNeighbors(ov.gammaRoute);
    ok, routing := Pad(maps.routing, list, l.routing, DUMMY_ROUTING);
    if !ok { return; }
    ok, predeliver := Pad(maps.predeliver, RouteAt(ov.gammaRoute, ov.onidEmul), l.predeliver, DUMMY);
    if !ok { return; }
    ok, deliver := Pad(maps.deliver, ov.gammaReceive, l.deliver, DUMMY);
    if !ok { return; }
    assert PaddedAlong(list, l.routing, ov.gammaRoute, maps.routing, routing);
    maps' := maps.(announce := announce, routing := routing, predeliver := predeliver, deliver := deliver);
  }

  /** Before padding, each map has keys among the peers that its section is padded for. */
  ghost predicate Confined(ov: OverlayResult, maps: OutMaps) {
    && (forall i :: i in maps.announce ==> i in ov.gammaSend)
    && (forall i :: i in maps.routing ==> InRoute(ov.gammaRoute, i))
    && (forall i :: i in maps.predeliver ==> i in RouteAt(ov.gammaRoute, ov.onidEmul))
  }

  lemma FilledUp<T>(m: map<Peer, seq<T>>, peers: seq<Peer>, n: nat, dummy: T, i: Peer)
    requires Fits(m, peers, n)
    ensures i in peers ==> |At(Padded(m, peers, n, dummy), i)| == n
    ensures i !in peers ==> At(Padded(m, peers, n, dummy), i) == At(m, i)
  {
    PaddedAt(m, peers, n, dummy, i);
  }

  /** How many entries recipient `i` gets in the announce, routing and predeliver sections, and in
      the deliver section if it is in gamma_receive, is a function of the overlay result alone. */
  lemma TrafficShape(l: Limits, ov: OverlayResult, maps: OutMaps, maps': OutMaps, i: Peer)
    requires Confined(ov, maps) && IsPadded(l, ov, maps, maps')
    ensures |At(maps'.announce, i)| == if i in ov.gammaSend then l.announce else 0
    ensures |At(maps'.routing, i)| == if InRoute(ov.gammaRoute, i) then l.routing else 0
    ensures |At(maps'.predeliver, i)| == if i in RouteAt(ov.gammaRoute, ov.onidEmul) then l.predeliver else 0
    ensures i in ov.gammaReceive ==> |At(maps'.deliver, i)| == l.deliver
  {
    hide Padded, RouteAt, InRoute;
    FilledUp(maps.announce, ov.gammaSend, l.announce, DUMMY, i);
    FilledUp(maps.predeliver, RouteAt(ov.gammaRoute, ov.onidEmul), l.predeliver, DUMMY, i);
    FilledUp(maps.deliver, ov.gammaReceive, l.deliver, DUMMY, i);
    var list: seq<Peer> :| PaddedAlong(list, l.routing, ov.gammaRoute, maps.routing, maps'.routing);
    FilledUp(maps.routing, list, l.routing, DUMMY_ROUTING, i);
  }

  // ---------------------------------------------------------------- recipients

  /** Appends the keys of a map that are not in the list yet, in the order of the map. */
  method AddIfNotPresent<T>(result: seq<Peer>, m: map<Peer, T>) returns (result': seq<Peer>)
    requires Distinct(result)
    ensures Distinct(result') && result <= result'
    ensures Elements(result') == Elements(result) + m.Keys
  {
    PeerOrder();
    var keys := Ascending(m.Keys, PeerLess);
    result' := result;
    for k := 0 to |keys|
      invariant Distinct(result') && result <= result'
      invariant Elements(result') == Elements(result) + Elements(keys[..k])
    {
      assert Elements(keys[..k + 1]) == Elements(keys[..k]) + {keys[k]};
      if keys[k] !in result' {
        assert Elements(result' + [keys[k]]) == Elements(result') + {keys[k]};
        result' := result' + [keys[k]];
      }
    }
    assert keys[..|keys|] == keys;
  }

  function AllKeys(maps: OutMaps): set<Peer> {
    {} + maps.announce.Keys + maps.agreement.Keys + maps.inject.Keys + maps.routing.Keys
    + maps.predeliver.Keys + maps.deliver.Keys + maps.structure.Keys
  }

  method Recipients(maps: OutMaps) returns (all: seq<Peer>)
    ensures Distinct(all) && Elements(all) == AllKeys(maps)
  {
    assert Elements<Peer>([]) == {} && Distinct<Peer>([]);
    hide Elements, Distinct;
    all := AddIfNotPresent([], maps.announce);
    all := AddIfNotPresent(all, maps.agreement);
    all := AddIfNotPresent(all, maps.inject);
    all := AddIfNotPresent(all, maps.routing);
    all := AddIfNotPresent(all, maps.predeliver);
    all := AddIfNotPresent(all, maps.deliver);
    all := AddIfNotPresent(all, maps.structure);
  }

  // ---------------------------------------------------------------- packets

  /** The packet for one recipient, tagged with the round after the one carried out. */
  function PacketFor(own: Peer, i: Peer, tag: U64, maps: OutMaps): Packet {
    Packet(own, i, tag, At(maps.structure, i), At(maps.announce, i), At(maps.agreement, i), At(maps.inject, i),
           At(maps.routing, i), At(maps.predeliver, i), At(maps.deliver, i))
  }

  method BuildPackets(own: Peer, tag: U64, maps: OutMaps) returns (packets: seq<Packet>)
    ensures IsOutput(own, tag, maps, packets)
    ensures Distinct(Map((p: Packet) => p.receiver, packets))
    ensures Elements(Map((p: Packet) => p.receiver, packets)) == AllKeys(maps)
    ensures forall p :: p in packets ==> p == PacketFor(own, p.receiver, tag, maps)
    ensures forall p :: p in packets ==> p.sender == own && p.round == tag
  {
    hide AllKeys;
    var all := Recipients(maps);
    packets := [];
    for k := 0 to |all|
      invariant packets == Map((i: Peer) => PacketFor(own, i, tag, maps), all[..k])
    {
      packets := packets + [PacketFor(own, all[k], tag, maps)];
    }
    assert all[..|all|] == all;
    OnePacketPerRecipient(own, tag, maps, packets);
  }

  /** The packets of a round: one for each key of the seven maps, with the entries of that key. */
  ghost predicate IsOutput(own: Peer, tag: U64, maps: OutMaps, packets: seq<Packet>) {
    exists all: seq<Peer> :: Distinct(all) && Elements(all) == AllKeys(maps)
      && packets == Map((i: Peer) => PacketFor(own, i, tag, maps), all)
  }

  // ---------------------------------------------------------------- conservation

  /** All entries the packets carry in the section selected by `f`, with their recipients. */
  function Carried<T>(f: Packet -> seq<T>, packets: seq<Packet>): seq<Entry<T>> {
    FlatMap((p: Packet) => Map((x: T) => Entry(p.receiver, x), f(p)), packets)
  }

  lemma {:induction false} CountForRecipient<T>(i: Peer, items: seq<T>, e: Entry<T>)
    ensures multiset(Map((x: T) => Entry(i, x), items))[e] == if e.peer == i then multiset(items)[e.item] else 0
  {
    if items != [] {
      var n := |items| - 1;
      CountForRecipient(i, items[..n], e);
      assert items == items[..n] + [items[n]];
      assert Map((x: T) => Entry(i, x), items) == Map((x: T) => Entry(i, x), items[..n]) + [Entry(i, items[n])];
    }
  }

  lemma {:induction false} CarriedCount<T>(f: Packet -> seq<T>, m: map<Peer, seq<T>>, own: Peer, tag: U64,
                                           maps: OutMaps, all: seq<Peer>, e: Entry<T>)
    requires Distinct(all)
    requires forall i :: f(PacketFor(own, i, tag, maps)) == At(m, i)
    ensures multiset(Carried(f, Map((i: Peer) => PacketFor(own, i, tag, maps), all)))[e]
         == if e.peer in all then multiset(At(m, e.peer))[e.item] else 0
  {
    if all != [] {
      var n := |all| - 1;
      var g := (i: Peer) => PacketFor(own, i, tag, maps);
      CarriedCount(f, m, own, tag, maps, all[..n], e);
      assert all == all[..n] + [all[n]];
      assert Map(g, all) == Map(g, all[..n]) + [g(all[n])];
      CountForRecipient(all[n], At(m, all[n]), e);
      assert e.peer in all <==> e.peer in all[..n] || e.peer == all[n];
    }
  }

  /** The packets carry, in the section selected by `f`, exactly the entries put into the map `m`. */
  ghost predicate Conserves<T(!new)>(f: Packet -> seq<T>, m: map<Peer, seq<T>>, packets: seq<Packet>) {
    forall e :: multiset(Carried(f, packets))[e] == multiset(At(m, e.peer))[e.item]
  }

  lemma ConservesSection<T(!new)>(f: Packet -> seq<T>, m: map<Peer, seq<T>>, own: Peer, tag: U64, maps: OutMaps,
                                  packets: seq<Packet>)
    requires IsOutput(own, tag, maps, packets) && m.Keys <= AllKeys(maps)
    requires forall i :: f(PacketFor(own, i, tag, maps)) == At(m, i)
    ensures Conserves(f, m, packets)
  {
    var all: seq<Peer> :| Distinct(all) && Elements(all) == AllKeys(maps)
      && packets == Map((i: Peer) => PacketFor(own, i, tag, maps), all);
    forall e ensures multiset(Carried(f, packets))[e] == multiset(At(m, e.peer))[e.item] {
      CarriedCount(f, m, own, tag, maps, all, e);
      assert e.peer in all <==> e.peer in Elements(all);
    }
  }

  /** Each round yields exactly one packet per recipient, and its recipients are the keys of the
      seven maps. */
  lemma OnePacketPerRecipient(own: Peer, tag: U64, maps: OutMaps, packets: seq<Packet>)
    requires IsOutput(own, tag, maps, packets)
    ensures Distinct(Map((p: Packet) => p.receiver, packets))
    ensures Elements(Map((p: Packet) => p.receiver, packets)) == AllKeys(maps)
    ensures forall p :: p in packets ==> p == PacketFor(own, p.receiver, tag, maps)
  {
    hide AllKeys;
    var all: seq<Peer> :| Distinct(all) && Elements(all) == AllKeys(maps)
      && packets == Map((i: Peer) => PacketFor(own, i, tag, maps), all);
    assert Map((p: Packet) => p.receiver, packets) == all;
  }

  /** Collecting the packets gives back exactly what was put into each of the seven maps. */
  lemma OutboundConservation(own: Peer, tag: U64, maps: OutMaps, packets: seq<Packet>)
    requires IsOutput(own, tag, maps, packets)
    ensures Conserves((p: Packet) => p.announce, maps.announce, packets)
    ensures Conserves((p: Packet) => p.agreement, maps.agreement, packets)
    ensures Conserves((p: Packet) => p.inject, maps.inject, packets)
    ensures Conserves((p: Packet) => p.routing, maps.routing, packets)
    ensures Conserves((p: Packet) => p.predeliver, maps.predeliver, packets)
    ensures Conserves((p: Packet) => p.deliver, maps.deliver, packets)
    ensures Conserves((p: Packet) => p.structure, maps.structure, packets)
  {
    hide Conserves, IsOutput, At;
    ConservesSection((p: Packet) => p.announce, maps.announce, own, tag, maps, packets);
    ConservesSection((p: Packet) => p.agreement, maps.agreement, own, tag, maps, packets);
    ConservesSection((p: Packet) => p.inject, maps.inject, own, tag, maps, packets);
    ConservesSection((p: Packet) => p.routing, maps.routing, own, tag, maps, packets);
    ConservesSection((p: Packet) => p.predeliver, maps.predeliver, own, tag, maps, packets);
    ConservesSection((p: Packet) => p.deliver, maps.deliver, own, tag, maps, packets);
    ConservesSection((p: Packet) => p.structure, maps.structure, own, tag, maps, packets);
  }
}

/** The login server: it waits for enough clients, cuts them into quorums and gives every client
    its first neighbour tables. */
module ServerEnclave {
  import opened Bits
  import opened Hypercube
  import opened Ordering
  import opened Outbound
  import opened Structures

  /** The sizes fixed in the server's header: the overlay has 2^dimension quorums, with
      `perQuorum` associated clients each but the last, which takes the remaining ones. */
  datatype Sizes = Sizes(dimension: nat, perQuorum: nat, required: nat) {
    ghost predicate Valid() {
      dimension < 31 && required < 0x8000_0000
    }

    function Quorums(): nat { Pow2(dimension) }

    /** There are enough clients for all quorums; otherwise `clients_.at` throws. */
    predicate Enough() { Product(Quorums(), perQuorum) <= required }
  }

  /** What the server tells a client. */
  datatype InitData = InitData(receiver: Peer, onidAssoc: U64, onidEmul: U64, gammaSend: seq<Peer>,
                               gammaReceive: seq<Peer>, gammaRoute: Table)

  // ---------------------------------------------------------------- the assignment

  function Registered(clients: seq<Peer>): (r: seq<Peer>)
    requires |clients| < 0x8000_0000
    ensures |r| == |clients|
  {
    seq(|clients|, i requires 0 <= i < |clients| => clients[i].(id := i))
  }

  /** Where quorum `i` ends in the list of clients. */
  function End(z: Sizes, i: nat): nat
  {
    if i == z.Quorums() - 1 then z.required else Product(i + 1, z.perQuorum)
  }

  function Associated(z: Sizes, clients: seq<Peer>, i: nat): seq<Peer>
    requires Product(i, z.perQuorum) <= End(z, i) <= |clients|
  {
    clients[Product(i, z.perQuorum)..End(z, i)]
  }

  lemma QuorumRange(z: Sizes, i: nat)
    requires z.Enough() && i < z.Quorums()
    ensures Product(i, z.perQuorum) <= End(z, i) <= z.required
    ensures i + 1 < z.Quorums() ==> End(z, i) == Product(i + 1, z.perQuorum)
  {
    ProductPlus(i, 1, z.perQuorum);
    ProductPlus(i + 1, z.Quorums() - i - 1, z.perQuorum);
  }

  /** The quorum whose range client `j` lies in, looked for from quorum `i` on. */
  function QuorumFrom(z: Sizes, j: nat, i: nat): nat
    requires i < z.Quorums()
    ensures QuorumFrom(z, j, i) < z.Quorums()
    decreases z.Quorums() - i
  {
    if i == z.Quorums() - 1 || j < End(z, i) then i else QuorumFrom(z, j, i + 1)
  }

  function QuorumOf(z: Sizes, j: nat): nat { QuorumFrom(z, j, 0) }

  lemma {:induction false} QuorumFromRange(z: Sizes, j: nat, i: nat, q: nat)
    requires z.Enough() && j < z.required && i <= q < z.Quorums() && Product(i, z.perQuorum) <= j
    ensures QuorumFrom(z, j, i) == q <==> Product(q, z.perQuorum) <= j < End(z, q)
    decreases z.Quorums() - i
  {
    QuorumRange(z, i);
    QuorumRange(z, q);
    if i == z.Quorums() - 1 {
    } else if j < End(z, i) {
      if q > i { ProductPlus(i + 1, q - i - 1, z.perQuorum); }
    } else if q > i {
      QuorumFromRange(z, j, i + 1, q);
    } else {
      QuorumFromAtLeast(z, j, i + 1);
    }
  }

  lemma {:induction false} QuorumFromAtLeast(z: Sizes, j: nat, i: nat)
    requires i < z.Quorums()
    ensures QuorumFrom(z, j, i) >= i
    decreases z.Quorums() - i
  {
    if i < z.Quorums() - 1 { QuorumFromAtLeast(z, j, i + 1); }
  }

  /** The clients among the first `k` that have drawn quorum `q`. */
  function Emulating(clients: seq<Peer>, draws: seq<nat>, q: nat, k: nat): seq<Peer>
    requires k <= |clients| == |draws|
  {
    if k == 0 then []
    else Emulating(clients, draws, q, k - 1) + (if draws[k - 1] == q then [clients[k - 1]] else [])
  }

  lemma {:induction false} EmulatingMembers(clients: seq<Peer>, draws: seq<nat>, q: nat, k: nat, p: Peer)
    requires k <= |clients| == |draws|
    ensures p in Emulating(clients, draws, q, k) <==> exists j :: 0 <= j < k && clients[j] == p && draws[j] == q
  {
    if k > 0 { EmulatingMembers(clients, draws, q, k - 1, p); }
  }

  lemma {:induction false} EmulatingDistinct(clients: seq<Peer>, draws: seq<nat>, q: nat, k: nat)
    requires k <= |clients| == |draws| && Distinct(clients)
    ensures Distinct(Emulating(clients, draws, q, k))
  {
    if k > 0 {
      EmulatingDistinct(clients, draws, q, k - 1);
      EmulatingMembers(clients, draws, q, k - 1, clients[k - 1]);
    }
  }

  lemma RegisteredDistinct(clients: seq<Peer>)
    requires |clients| < 0x8000_0000
    ensures Distinct(Registered(clients))
  {
    var r := Registered(clients);
    forall i, j | 0 <= i < j < |r| ensures r[i] != r[j] {
      assert r[i].id == i && r[j].id == j;
    }
  }

  /** Everything the initialization assigns. */
  datatype Assignment = Assignment(z: Sizes, clients: seq<Peer>, draws: seq<nat>) {
    /** Clients are registered, draws are quorums, and every quorum has been drawn. */
    ghost predicate Valid() {
      && z.Valid() && z.Enough() && |clients| == |draws| == z.required && Distinct(clients)
      && (forall j :: 0 <= j < |draws| ==> draws[j] < z.Quorums())
      && (forall q :: 0 <= q < z.Quorums() ==> Emulated(q) != [])
    }

    function Emulated(q: nat): seq<Peer>
      requires |clients| == |draws|
    {
      Emulating(clients, draws, q, |clients|)
    }

    function AssociatedWith(i: nat): seq<Peer>
      requires z.Enough() && |clients| == z.required && i < z.Quorums()
    {
      QuorumRange(z, i);
      Associated(z, clients, i)
    }

    function Route(q: nat): Table
      requires z.Valid() && |clients| == |draws| && q < z.Quorums()
    {
      NeighborsFit(q, z.dimension);
      map o: U64 | o in Neighborhood(q, z.dimension) :: Emulated(o)
    }

    function InitFor(i: nat): InitData
      requires z.Valid() && z.Enough() && |clients| == |draws| == z.required && i < z.required
      requires draws[i] < z.Quorums()
    {
      QuorumsFit(z);
      InitData(clients[i], QuorumOf(z, i), draws[i],
               Emulated(QuorumOf(z, i)), AssociatedWith(draws[i]), Route(draws[i]))
    }
  }

  lemma QuorumsFit(z: Sizes)
    requires z.Valid()
    ensures 0 < z.Quorums() <= TWO_64
  {
    Pow2Of64();
    Pow2Monotone(z.dimension, 64);
  }

  lemma NeighborsFit(q: nat, d: nat)
    requires d < 31 && q < Pow2(d)
    ensures forall o :: o in Neighborhood(q, d) ==> o < Pow2(d) <= TWO_64
  {
    Pow2Of64();
    Pow2Monotone(d, 64);
    forall o | o in Neighborhood(q, d) ensures o < Pow2(d) { NeighborsBound(q, o, d); }
  }

  // ---------------------------------------------------------------- theorems

  /** Client `j` is listed in associated quorum `i` iff that is the quorum recorded for it. */
  lemma AssociatedIff(a: Assignment, i: nat, j: nat)
    requires a.Valid() && i < a.z.Quorums() && j < a.z.required
    ensures a.clients[j] in a.AssociatedWith(i) <==> QuorumOf(a.z, j) == i
  {
    QuorumRange(a.z, i);
    QuorumFromRange(a.z, j, 0, i);
    var lo, hi := Product(i, a.z.perQuorum), End(a.z, i);
    if a.clients[j] in a.AssociatedWith(i) {
      var k :| 0 <= k < hi - lo && a.clients[lo..hi][k] == a.clients[j];
      assert a.clients[lo + k] == a.clients[j];
    }
    if lo <= j < hi { assert a.clients[lo..hi][j - lo] == a.clients[j]; }
  }

  lemma EmulatedIff(a: Assignment, q: nat, j: nat)
    requires a.Valid() && j < a.z.required
    ensures a.clients[j] in a.Emulated(q) <==> a.draws[j] == q
  {
    EmulatingMembers(a.clients, a.draws, q, |a.clients|, a.clients[j]);
  }

  /** The associated quorums, listed one after another. */
  function Concatenated(a: Assignment, n: nat): seq<Peer>
    requires a.z.Enough() && |a.clients| == a.z.required && n <= a.z.Quorums()
  {
    if n == 0 then [] else Concatenated(a, n - 1) + a.AssociatedWith(n - 1)
  }

  lemma {:induction false} ConcatenatedPrefix(a: Assignment, n: nat)
    requires a.z.Enough() && |a.clients| == a.z.required && n < a.z.Quorums()
    ensures Product(n, a.z.perQuorum) <= |a.clients|
    ensures Concatenated(a, n) == a.clients[..Product(n, a.z.perQuorum)]
  {
    QuorumRange(a.z, n);
    if n > 0 {
      ConcatenatedPrefix(a, n - 1);
      QuorumRange(a.z, n - 1);
    }
  }

  /** The associated quorums partition the clients: in order they are the list of clients. All but
      the last have the same size. */
  lemma AssociatedPartition(a: Assignment)
    requires a.Valid()
    ensures Concatenated(a, a.z.Quorums()) == a.clients
    ensures forall i :: 0 <= i < a.z.Quorums() - 1 ==> |a.AssociatedWith(i)| == a.z.perQuorum
  {
    var n := a.z.Quorums();
    ConcatenatedPrefix(a, n - 1);
    QuorumRange(a.z, n - 1);
    forall i | 0 <= i < n - 1 ensures |a.AssociatedWith(i)| == a.z.perQuorum {
      QuorumRange(a.z, i);
      ProductPlus(i, 1, a.z.perQuorum);
    }
  }

  /** Whoever a client announces its messages to expects them: j is in gamma_send of i iff i is in
      gamma_receive of j. */
  lemma SendReceiveDual(a: Assignment, i: nat, j: nat)
    requires a.Valid() && i < a.z.required && j < a.z.required
    ensures a.clients[j] in a.InitFor(i).gammaSend <==> a.clients[i] in a.InitFor(j).gammaReceive
  {
    EmulatedIff(a, QuorumOf(a.z, i), j);
    AssociatedIff(a, a.draws[j], i);
  }

  /** An associated quorum is cut from the list of clients: `perQuorum` of them for every quorum before
      it, then its own, of which the last quorum has all that remain. */
  lemma AssociatedRange(a: Assignment, q: nat, j: nat)
    requires a.Valid() && q < a.z.Quorums() && j < a.z.required
    ensures a.clients[j] in a.AssociatedWith(q) <==>
              q * a.z.perQuorum <= j && (j < (q + 1) * a.z.perQuorum || q + 1 == Pow2(a.z.dimension))
    ensures forall p :: p in a.AssociatedWith(q) ==> p in a.clients
  {
    AssociatedIff(a, q, j);
    QuorumRange(a.z, q);
    QuorumFromRange(a.z, j, 0, q);
    ProductIsMultiplication(q, a.z.perQuorum);
    ProductIsMultiplication(q + 1, a.z.perQuorum);
  }

  /** What the server tells client i, in terms of the clients alone: the quorum it has drawn and the one
      it is associated with; it sends to whoever emulates the latter, receives from the clients
      associated with the former, and routes to whoever emulates the former or a quorum that differs
      from it in one bit. */
  lemma InitialLists(a: Assignment, i: nat, j: nat)
    requires a.Valid() && i < a.z.required && j < a.z.required
    ensures var t := a.InitFor(i);
            && t.receiver == a.clients[i] && t.onidEmul == a.draws[i] && t.onidAssoc < a.z.Quorums()
            && a.clients[i] in a.AssociatedWith(t.onidAssoc)
            && (a.clients[j] in t.gammaSend <==> a.clients[i] in a.AssociatedWith(a.draws[j]))
            && t.gammaReceive == a.AssociatedWith(a.draws[i])
            && forall o: U64 :: o in t.gammaRoute && a.clients[j] in t.gammaRoute[o] <==>
                 a.draws[j] == o && o in Neighborhood(a.draws[i], a.z.dimension)
    ensures var t := a.InitFor(i);
            && (forall p :: p in t.gammaSend ==> p in a.clients)
            && forall o, p :: o in t.gammaRoute && p in t.gammaRoute[o] ==> p in a.clients
  {
    hide Neighborhood, Emulating;
    QuorumsFit(a.z);
    AssociatedIff(a, QuorumOf(a.z, i), i);
    AssociatedIff(a, a.draws[j], i);
    EmulatedIff(a, QuorumOf(a.z, i), j);
    ListedAreClients(a, QuorumOf(a.z, i));
    forall o: U64 | o in a.Route(a.draws[i])
      ensures a.clients[j] in a.Route(a.draws[i])[o] <==> a.draws[j] == o
      ensures forall p :: p in a.Route(a.draws[i])[o] ==> p in a.clients
    {
      EmulatedIff(a, o, j);
      ListedAreClients(a, o);
    }
  }

  lemma ListedAreClients(a: Assignment, q: nat)
    requires |a.clients| == |a.draws|
    ensures forall p :: p in a.Emulated(q) ==> p in a.clients
  {
    forall p | p in a.Emulated(q) ensures p in a.clients {
      EmulatingMembers(a.clients, a.draws, q, |a.clients|, p);
    }
  }

  lemma RouteIff(a: Assignment, i: nat, j: nat)
    requires a.Valid() && i < a.z.required && j < a.z.required
    ensures InRoute(a.InitFor(i).gammaRoute, a.clients[j])
            <==> a.draws[j] in Neighborhood(a.draws[i], a.z.dimension)
  {
    hide Neighborhood;
    var route := a.InitFor(i).gammaRoute;
    QuorumsFit(a.z);
    if InRoute(route, a.clients[j]) {
      var o :| o in route && a.clients[j] in route[o];
      EmulatedIff(a, o, j);
    }
    if a.draws[j] in Neighborhood(a.draws[i], a.z.dimension) {
      EmulatedIff(a, a.draws[j], j);
      assert a.draws[j] in route && a.clients[j] in route[a.draws[j]];
    }
  }

  /** Routing neighbours know each other. */
  lemma RouteSymmetric(a: Assignment, i: nat, j: nat)
    requires a.Valid() && i < a.z.required && j < a.z.required
    ensures InRoute(a.InitFor(i).gammaRoute, a.clients[j]) <==> InRoute(a.InitFor(j).gammaRoute, a.clients[i])
  {
    hide Neighborhood, InRoute;
    RouteIff(a, i, j);
    RouteIff(a, j, i);
    if a.draws[j] in Neighborhood(a.draws[i], a.z.dimension) {
      NeighborsSymmetric(a.draws[i], a.draws[j], a.z.dimension);
    }
    if a.draws[i] in Neighborhood(a.draws[j], a.z.dimension) {
      NeighborsSymmetric(a.draws[j], a.draws[i], a.z.dimension);
    }
  }

  lemma RouteLists(a: Assignment, q: nat)
    requires a.Valid() && q < a.z.Quorums()
    ensures forall o :: o in a.Route(q) ==> Distinct(a.Route(q)[o]) && a.Route(q)[o] != []
    ensures OneOnidPerPeer(a.Route(q))
  {
    hide Neighborhood, Distinct;
    var route := a.Route(q);
    NeighborsFit(q, a.z.dimension);
    forall o | o in route ensures Distinct(route[o]) && route[o] != [] {
      EmulatingDistinct(a.clients, a.draws, o, |a.clients|);
    }
    forall o, o', p | o in route && o' in route && p in route[o] && p in route[o'] ensures o == o' {
      OneDraw(a, o, o', p);
    }
  }

  lemma OneDraw(a: Assignment, q: nat, q': nat, p: Peer)
    requires a.Valid() && p in a.Emulated(q) && p in a.Emulated(q')
    ensures q == q'
  {
    EmulatingMembers(a.clients, a.draws, q, |a.clients|, p);
    EmulatingMembers(a.clients, a.draws, q', |a.clients|, p);
  }

  /** What the client relies on: no peer stands twice or under two onids, the table has an entry for
      exactly the closed neighbourhood of the emulated quorum, and no list is empty. */
  lemma InitialTables(a: Assignment, i: nat)
    requires a.Valid() && i < a.z.required
    ensures var t := a.InitFor(i);
            && OneOnidPerPeer(t.gammaRoute)
            && (forall o: U64 :: o in t.gammaRoute <==> o in Neighborhood(t.onidEmul, a.z.dimension))
            && t.onidEmul in t.gammaRoute
            && (forall o :: o in t.gammaRoute ==> t.gammaRoute[o] != [])
            && Distinct(t.gammaSend) && Distinct(t.gammaReceive)
  {
    var t := a.InitFor(i);
    QuorumsFit(a.z);
    NeighborsFit(a.draws[i], a.z.dimension);
    assert Neighborhood(t.onidEmul, a.z.dimension)[0] == t.onidEmul;
    hide Neighborhood, OneOnidPerPeer, Emulating;
    RouteLists(a, a.draws[i]);
    EmulatingDistinct(a.clients, a.draws, t.onidAssoc, |a.clients|);
    QuorumRange(a.z, a.draws[i]);
  }

  // ---------------------------------------------------------------- the loops

  /** Cuts the clients into associated quorums. `ok` is false where `at` throws. */
  method AssociateAll(z: Sizes, clients: seq<Peer>) returns (ok: bool, quorums: seq<seq<Peer>>, quorumOf: seq<nat>)
    requires z.Valid() && |clients| == z.required
    ensures ok <==> z.Enough()
    ensures ok ==> |quorums| == z.Quorums() && |quorumOf| == z.required
    ensures ok ==> forall i :: 0 <= i < z.Quorums() ==> IsCut(z, clients, i, quorums[i])
    ensures ok ==> forall j :: 0 <= j < z.required ==> quorumOf[j] == QuorumOf(z, j)
  {
    quorums, quorumOf := [], seq(z.required, _ => 0);
    var n := z.Quorums();
    for i := 0 to n
      invariant |quorums| == i && |quorumOf| == z.required
      invariant i < n ==> Product(i, z.perQuorum) <= z.required
      invariant i == n ==> z.Enough()
      invariant forall q :: 0 <= q < i ==> IsCut(z, clients, q, quorums[q])
      invariant z.Enough() ==> Filed(z, quorumOf, i)
    {
      hide Product, QuorumFrom, End, Pow2, Filed;
      ghost var before := quorumOf;
      var list;
      ok, list, quorumOf := AssociateOne(z, clients, i, quorumOf);
      if !ok {
        NotEnough(z, i);
        return;
      }
      EnoughSoFar(z, i);
      if z.Enough() { QuorumsStep(z, i, before, quorumOf); }
      quorums := quorums + [list];
    }
    ok := true;
  }

  /** The clients before quorum `i` are recorded with their quorums. */
  ghost predicate Filed(z: Sizes, quorumOf: seq<nat>, i: nat) {
    && |quorumOf| == z.required
    && forall j :: 0 <= j < z.required && j < Start(z, i) ==> quorumOf[j] == QuorumOf(z, j)
  }

  ghost predicate IsCut(z: Sizes, clients: seq<Peer>, i: nat, list: seq<Peer>) {
    Product(i, z.perQuorum) <= End(z, i) <= |clients| && list == Associated(z, clients, i)
  }

  /** Where quorum `i` begins; behind the last one the list of clients ends. */
  function Start(z: Sizes, i: nat): nat {
    if i == z.Quorums() then z.required else Product(i, z.perQuorum)
  }

  lemma NotEnough(z: Sizes, i: nat)
    requires i < z.Quorums() && Product(i + 1, z.perQuorum) > z.required
    ensures !z.Enough()
  {
    ProductPlus(i + 1, z.Quorums() - i - 1, z.perQuorum);
  }

  lemma EnoughSoFar(z: Sizes, i: nat)
    requires i < z.Quorums() && Product(i + 1, z.perQuorum) <= z.required
    ensures i + 1 == z.Quorums() ==> z.Enough()
  {
  }

  lemma QuorumsStep(z: Sizes, i: nat, before: seq<nat>, after: seq<nat>)
    requires z.Enough() && i < z.Quorums() && Filed(z, before, i) && |after| == z.required
    requires forall j :: 0 <= j < z.required ==>
               after[j] == if Product(i, z.perQuorum) <= j < End(z, i) then i else before[j]
    ensures Filed(z, after, i + 1)
  {
    QuorumRange(z, i);
    assert Start(z, i + 1) == End(z, i) && Start(z, i) == Product(i, z.perQuorum);
    hide QuorumFrom, Start, End, Product;
    forall j | 0 <= j < z.required && j < Start(z, i + 1) ensures after[j] == QuorumOf(z, j) {
      if j >= Product(i, z.perQuorum) { QuorumFromAt(z, j, i); }
    }
  }

  lemma QuorumFromAt(z: Sizes, j: nat, i: nat)
    requires z.Enough() && i < z.Quorums() && Product(i, z.perQuorum) <= j < End(z, i)
    ensures QuorumOf(z, j) == i
  {
    hide QuorumFrom;
    QuorumRange(z, i);
    QuorumFromRange(z, j, 0, i);
  }

  /** One quorum; from the last one on the loop takes all remaining clients. */
  method AssociateOne(z: Sizes, clients: seq<Peer>, i: nat, before: seq<nat>)
    returns (ok: bool, list: seq<Peer>, quorumOf: seq<nat>)
    requires |clients| == z.required == |before| && i < z.Quorums() && Product(i, z.perQuorum) <= z.required
    ensures |quorumOf| == z.required
    ensures ok <==> Product(i + 1, z.perQuorum) <= z.required
    ensures ok ==> IsCut(z, clients, i, list)
    ensures ok ==> forall j :: 0 <= j < z.required ==>
              quorumOf[j] == if Product(i, z.perQuorum) <= j < End(z, i) then i else before[j]
  {
    hide Pow2;
    ProductPlus(i, 1, z.perQuorum);
    list, quorumOf := [], before;
    var j := Product(i, z.perQuorum);
    while j < Product(i + 1, z.perQuorum) || (i == z.Quorums() - 1 && j < z.required)
      invariant Product(i, z.perQuorum) <= j <= z.required
      invariant j <= Product(i + 1, z.perQuorum) || i == z.Quorums() - 1
      invariant list == clients[Product(i, z.perQuorum)..j]
      invariant |quorumOf| == z.required
      invariant forall k :: 0 <= k < z.required ==>
        quorumOf[k] == if Product(i, z.perQuorum) <= k < j then i else before[k]
      decreases z.required - j
    {
      if j >= |clients| {
        return false, list, quorumOf;
      }
      list, quorumOf := list + [clients[j]], quorumOf[j := i];
      j := j + 1;
    }
    ok := true;
  }

  /** Every client emulates the quorum it has drawn. */
  method EmulateAll(z: Sizes, clients: seq<Peer>, draws: seq<nat>) returns (quorums: seq<seq<Peer>>)
    requires |clients| == |draws| && forall j :: 0 <= j < |draws| ==> draws[j] < z.Quorums()
    ensures |quorums| == z.Quorums()
    ensures forall q :: 0 <= q < z.Quorums() ==> quorums[q] == Emulating(clients, draws, q, |clients|)
  {
    quorums := seq(z.Quorums(), _ => []);
    for k := 0 to |clients|
      invariant |quorums| == z.Quorums()
      invariant forall q :: 0 <= q < z.Quorums() ==> quorums[q] == Emulating(clients, draws, q, k)
    {
      quorums := quorums[draws[k] := quorums[draws[k]] + [clients[k]]];
    }
  }

  method TableFor(a: Assignment, emulated: seq<seq<Peer>>, q: nat) returns (route: Table)
    requires a.z.Valid() && |a.clients| == |a.draws| && q < a.z.Quorums() == |emulated|
    requires forall o :: 0 <= o < |emulated| ==> emulated[o] == a.Emulated(o)
    ensures route == a.Route(q)
  {
    NeighborsFit(q, a.z.dimension);
    QuorumsFit(a.z);
    var neighbors := ForAllNeighbors(q, a.z.dimension);
    hide Neighborhood, Pow2, Emulating;
    route := map[];
    for k := 0 to |neighbors|
      invariant forall o: U64 :: o in route <==> o in neighbors[..k]
      invariant forall o :: o in route ==> o < |emulated| && route[o] == emulated[o]
    {
      assert neighbors[k] in neighbors;
      assert forall x :: x in neighbors[..k + 1] <==> x in neighbors[..k] || x == neighbors[k];
      route := route[neighbors[k] := emulated[neighbors[k]]];
    }
    assert neighbors[..|neighbors|] == neighbors;
    RouteIs(a, q, route);
  }

  lemma RouteIs(a: Assignment, q: nat, route: Table)
    requires a.z.Valid() && |a.clients| == |a.draws| && q < a.z.Quorums()
    requires forall o: U64 :: o in route <==> o in Neighborhood(q, a.z.dimension)
    requires forall o :: o in route ==> route[o] == a.Emulated(o)
    ensures route == a.Route(q)
  {
    hide Neighborhood, Emulating;
    var r := a.Route(q);
    assert route.Keys == r.Keys;
  }

  function Draws(z: Sizes, random: seq<U64>): (draws: seq<nat>)
    ensures |draws| == |random| && forall j :: 0 <= j < |draws| ==> draws[j] < z.Quorums()
  {
    seq(|random|, i requires 0 <= i < |random| => Draw(z, random[i]))
  }

  function Draw(z: Sizes, random: U64): nat { random % z.Quorums() }

  /** When the initialization succeeds: the clients suffice for all quorums and every quorum is drawn, a
      client drawing its random number modulo the number of quorums. Clients are numbered in the order in
      which they joined. */
  lemma InitializedIff(z: Sizes, joined: seq<Peer>, random: seq<U64>)
    requires z.Valid() && |joined| == |random| == z.required
    ensures var a := Assignment(z, Registered(joined), Draws(z, random));
            && (a.Valid() <==>
                  && Pow2(z.dimension) * z.perQuorum <= z.required
                  && forall q :: 0 <= q < Pow2(z.dimension) ==> Drawn(a, q))
            && (forall j :: 0 <= j < z.required ==>
                  a.draws[j] == random[j] % Pow2(z.dimension)
                  && a.clients[j].id == j && a.clients[j].uri == joined[j].uri)
  {
    RegisteredDistinct(joined);
    ProductIsMultiplication(z.Quorums(), z.perQuorum);
    var a := Assignment(z, Registered(joined), Draws(z, random));
    hide Pow2, Product, Distinct, Emulating;
    forall q | 0 <= q < z.Quorums() ensures a.Emulated(q) != [] <==> Drawn(a, q) {
      EmulatedNotEmpty(a, q);
    }
  }

  /** Some client has drawn quorum `q`. */
  ghost predicate Drawn(a: Assignment, q: nat) { exists j :: 0 <= j < |a.draws| && a.draws[j] == q }

  lemma EmulatedNotEmpty(a: Assignment, q: nat)
    requires |a.clients| == |a.draws|
    ensures a.Emulated(q) != [] <==> Drawn(a, q)
  {
    if a.Emulated(q) != [] {
      EmulatingMembers(a.clients, a.draws, q, |a.clients|, a.Emulated(q)[0]);
    }
    if j :| 0 <= j < |a.draws| && a.draws[j] == q {
      EmulatingMembers(a.clients, a.draws, q, |a.clients|, a.clients[j]);
    }
  }

  class ServerEnclave {
    const z: Sizes
    var clients: seq<Peer>
    var initialized: bool

    constructor (z: Sizes)
      ensures this.z == z && clients == [] && !initialized
    {
      this.z, clients, initialized := z, [], false;
    }

    /** A join message. The client completing the required number starts the initialization, with
        one 64-bit random number for each client; `inits` are the messages then sent. */
    method ReceivedJoin(sender: Peer, random: seq<U64>)
      returns (ok: bool, inits: seq<InitData>, ghost a: Assignment)
      requires z.Valid() && |random| == z.required
      modifies this
      ensures |old(clients)| >= z.required ==>
                ok && inits == [] && clients == old(clients) && initialized == old(initialized)
      ensures |old(clients)| + 1 < z.required ==>
                ok && inits == [] && clients == old(clients) + [sender] && initialized == old(initialized)
      ensures |old(clients)| + 1 == z.required ==>
                && a == Assignment(z, Registered(old(clients) + [sender]), Draws(z, random))
                && (ok <==> a.Valid())
                && (ok ==> clients == a.clients && initialized && |inits| == z.required
                           && forall i :: 0 <= i < z.required ==> inits[i] == a.InitFor(i))
    {
      ok, inits, a := true, [], Assignment(z, [], []);
      if |clients| < z.required {
        clients := clients + [sender];
        if |clients| >= z.required {
          ok, inits, a := InitializeSystem(random);
        }
      }
    }

    method InitializeSystem(random: seq<U64>) returns (ok: bool, inits: seq<InitData>, ghost a: Assignment)
      requires z.Valid() && |clients| == z.required == |random|
      modifies this
      ensures a == Assignment(z, Registered(old(clients)), Draws(z, random))
      ensures ok <==> a.Valid()
      ensures ok ==> clients == a.clients && initialized
      ensures ok ==> |inits| == z.required && forall i :: 0 <= i < z.required ==> inits[i] == a.InitFor(i)
    {
      hide Registered, Distinct, Draws, Assignment.Valid, Assignment.InitFor;
      RegisteredDistinct(clients);
      Register();
      ok, inits, a := Assign(z, clients, random);
      initialized := initialized || ok;
    }

    method Register()
      requires |clients| < 0x8000_0000
      modifies this`clients
      ensures clients == Registered(old(clients))
    {
      for i := 0 to |clients|
        invariant |clients| == |old(clients)|
        invariant forall j :: 0 <= j < |clients| ==>
                    clients[j] == if j < i then old(clients)[j].(id := j) else old(clients)[j]
      {
        clients := clients[i := clients[i].(id := i)];
      }
    }
  }

  /** The part of the initialization that does not change the server. */
  method Assign(z: Sizes, clients: seq<Peer>, random: seq<U64>)
    returns (ok: bool, inits: seq<InitData>, ghost a: Assignment)
    requires z.Valid() && |clients| == z.required == |random| && Distinct(clients)
    ensures a == Assignment(z, clients, Draws(z, random))
    ensures ok <==> a.Valid()
    ensures ok ==> |inits| == z.required && forall i :: 0 <= i < z.required ==> inits[i] == a.InitFor(i)
  {
    hide Distinct, Pow2, Product, Emulating, Sizes.Enough;
    var draws := Draws(z, random);
    a := Assignment(z, clients, draws);
    inits := [];
    var associated, quorumOf;
    ok, associated, quorumOf := AssociateAll(z, clients);
    if !ok {
      return;
    }
    var emulated := EmulateAll(z, clients, draws);
    for i := 0 to z.Quorums()
      invariant forall q :: 0 <= q < i ==> emulated[q] != []
    {
      if |emulated[i]| == 0 {
        assert a.Emulated(i) == [];
        return false, inits, a;
      }
    }
    inits := SendInits(Assignment(z, clients, draws), associated, quorumOf, emulated);
  }

  method SendInits(a: Assignment, associated: seq<seq<Peer>>, quorumOf: seq<nat>, emulated: seq<seq<Peer>>)
    returns (inits: seq<InitData>)
    requires a.z.Valid() && a.z.Enough() && |a.clients| == |a.draws| == a.z.required
    requires forall j :: 0 <= j < |a.draws| ==> a.draws[j] < a.z.Quorums()
    requires |associated| == |emulated| == a.z.Quorums() && |quorumOf| == a.z.required
    requires forall q :: 0 <= q < a.z.Quorums() ==> emulated[q] == a.Emulated(q) && associated[q] == a.AssociatedWith(q)
    requires forall j :: 0 <= j < a.z.required ==> quorumOf[j] == QuorumOf(a.z, j)
    ensures |inits| == a.z.required && forall i :: 0 <= i < a.z.required ==> inits[i] == a.InitFor(i)
  {
    hide Pow2, Product, Emulating, Sizes.Enough, QuorumFrom;
    QuorumsFit(a.z);
    inits := [];
    for i := 0 to a.z.required
      invariant |inits| == i && forall k :: 0 <= k < i ==> inits[k] == a.InitFor(k)
    {
      var route := TableFor(a, emulated, a.draws[i]);
      inits := inits + [InitData(a.clients[i], quorumOf[i], a.draws[i],
                                 emulated[quorumOf[i]], associated[a.draws[i]], route)];
    }
  }
}

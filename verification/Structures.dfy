/** The values the enclaves exchange, and their comparison operators. */
module Structures {
  import opened Bits
  import opened Ordering

  type Pseudonym = s: seq<Byte> | |s| == 64 witness seq(64, _ => 0)
  type Message = s: seq<Byte> | |s| == 128 witness seq(128, _ => 0)

  datatype Uri = Uri(ip1: Byte, ip2: Byte, ip3: Byte, ip4: Byte, port: U64)

  datatype Peer = Peer(id: U64, uri: Uri)

  /** Lists of peers by onid. */
  type Table = map<U64, seq<Peer>>

  /** `t[onid]` of a std::map of vectors. */
  function RouteAt(t: Table, onid: int): seq<Peer> {
    if onid in t then t[onid] else []
  }

  datatype DecryptedPseudonym = DecryptedPseudonym(onidRepr: U64, peer: Peer, localNum: Byte)

  datatype MessageTuple = MessageTuple(nSrc: Pseudonym, m: Message, nDst: Pseudonym, tDst: U64) {
    predicate IsDummy() { tDst == 0 }

    predicate IsCancel() { tDst == 1 }
  }

  datatype AgreementTuple = AgreementTuple(m: MessageTuple, s: Peer, l: U64)

  /** What routed messages are bucketed by. */
  datatype BucketKey = BucketKey(onidDst: U64, bucketDst: Pseudonym, lDst: U64, onidCurrent: U64)

  datatype RoutingTuple = RoutingTuple(m: MessageTuple, onidDst: U64, bucketDst: Pseudonym, lDst: U64,
                                       onidCurrent: U64) {
    function Key(): BucketKey { BucketKey(onidDst, bucketDst, lDst, onidCurrent) }
  }

  /** A message of the overlay maintenance protocol; `t` is the numeric value of its type. */
  datatype OverlayMessage = OverlayMessage(t: Byte, onid: U64, peer: Peer, gammaRoute: Table,
                                           gammaReceive: seq<Peer>)

  const EMULATE_REQUEST: Byte := 0
  const EMULATE_REQUEST_RECEIVED: Byte := 1
  const HAND_OVER: Byte := 2
  const SELF_INTRODUCE: Byte := 3

  /** What one enclave sends another in a round: additional data, then six sections. */
  datatype Packet = Packet(
    sender: Peer, receiver: Peer, round: U64, structure: seq<OverlayMessage>,
    announce: seq<MessageTuple>, agreement: seq<AgreementTuple>, inject: seq<MessageTuple>,
    routing: seq<RoutingTuple>, predeliver: seq<MessageTuple>, deliver: seq<MessageTuple>)

  function Zeros(n: nat): (s: seq<Byte>)
    ensures |s| == n
  {
    if n == 0 then [] else Zeros(n - 1) + [0]
  }

  const ZERO_PSEUDONYM: Pseudonym := Zeros(64)
  const ZERO_MESSAGE: Message := Zeros(128)
  const DUMMY: MessageTuple := MessageTuple(ZERO_PSEUDONYM, ZERO_MESSAGE, ZERO_PSEUDONYM, 0)
  const DUMMY_ROUTING: RoutingTuple := RoutingTuple(DUMMY, 0, ZERO_PSEUDONYM, 0, 0)

  // ---------------------------------------------------------------- operator<

  predicate IntLess(a: int, b: int) { a < b }

  predicate OnidLess(a: U64, b: U64) { a < b }

  lemma OnidOrder()
    ensures StrictTotalOrder(OnidLess)
  {
  }

  /** Messages are ordered by their delivery time alone. */
  predicate MessageLess(a: MessageTuple, b: MessageTuple) { a.tDst < b.tDst }

  /** Comparing tuples of numbers member by member is comparing the listed numbers
      lexicographically, every list of one kind having the same length. */
  function PeerDigits(p: Peer): seq<int> {
    [p.id, p.uri.ip1, p.uri.ip2, p.uri.ip3, p.uri.ip4, p.uri.port]
  }

  function KeyDigits(k: BucketKey): seq<int> {
    [k.onidDst] + k.bucketDst + [k.lDst, k.onidCurrent]
  }

  function RoutingDigits(r: RoutingTuple): seq<int> {
    KeyDigits(r.Key()) + [r.m.tDst]
  }

  predicate PeerLess(a: Peer, b: Peer) { Lex(IntLess, PeerDigits(a), PeerDigits(b)) }

  predicate RoutingLess(a: RoutingTuple, b: RoutingTuple) { Lex(IntLess, RoutingDigits(a), RoutingDigits(b)) }

  predicate RoutingVecLess(a: seq<RoutingTuple>, b: seq<RoutingTuple>) { Lex(RoutingLess, a, b) }

  lemma IntOrder()
    ensures StrictTotalOrder(IntLess)
  {
  }

  lemma LexIntEquiv(a: seq<int>, b: seq<int>)
    requires |a| == |b|
    ensures Lex(IntLess, a, b) || Lex(IntLess, b, a) || a == b
    ensures a == b ==> !Lex(IntLess, a, b)
  {
    LexEquiv(IntLess, a, b);
    if !Lex(IntLess, a, b) && !Lex(IntLess, b, a) {
      assert forall i :: 0 <= i < |a| ==> Equiv(IntLess, a[i], b[i]);
    }
  }

  lemma MessageOrder()
    ensures StrictWeakOrder(MessageLess)
    ensures forall a, b :: Equiv(MessageLess, a, b) <==> a.tDst == b.tDst
    ensures forall a, b :: MessageLess(a, b) <==> a.tDst < b.tDst
  {
  }

  lemma PeerOrder()
    ensures StrictTotalOrder(PeerLess)
  {
    IntOrder();
    LexIsStrictWeakOrder(IntLess);
    var lex := (a: seq<int>, b: seq<int>) => Lex(IntLess, a, b);
    PulledBack(lex, PeerDigits, PeerLess);
    forall a, b | Equiv(PeerLess, a, b) ensures a == b {
      LexIntEquiv(PeerDigits(a), PeerDigits(b));
      assert PeerDigits(a)[0] == PeerDigits(b)[0] && PeerDigits(a)[1] == PeerDigits(b)[1]
          && PeerDigits(a)[2] == PeerDigits(b)[2] && PeerDigits(a)[3] == PeerDigits(b)[3]
          && PeerDigits(a)[4] == PeerDigits(b)[4] && PeerDigits(a)[5] == PeerDigits(b)[5];
    }
  }

  /** An order on the images of a function is an order on its arguments. */
  lemma PulledBack<A(!new), B(!new)>(less: (B, B) -> bool, f: A -> B, lessA: (A, A) -> bool)
    requires StrictWeakOrder(less)
    requires forall a, b :: lessA(a, b) == less(f(a), f(b))
    ensures StrictWeakOrder(lessA)
  {
    forall a, b, c | Equiv(lessA, a, b) && Equiv(lessA, b, c) ensures Equiv(lessA, a, c) {
      assert Equiv(less, f(a), f(b)) && Equiv(less, f(b), f(c));
    }
  }

  lemma SameKeyDigits(a: BucketKey, b: BucketKey)
    ensures KeyDigits(a) == KeyDigits(b) <==> a == b
  {
    if KeyDigits(a) == KeyDigits(b) {
      assert KeyDigits(a)[0] == a.onidDst && KeyDigits(b)[0] == b.onidDst;
      assert KeyDigits(a)[1..65] == a.bucketDst && KeyDigits(b)[1..65] == b.bucketDst;
      assert KeyDigits(a)[65] == a.lDst && KeyDigits(b)[65] == b.lDst;
      assert KeyDigits(a)[66] == a.onidCurrent && KeyDigits(b)[66] == b.onidCurrent;
    }
  }

  /** Routing tuples a map cannot tell apart have equal keys and equal delivery times. */
  lemma RoutingOrder()
    ensures StrictWeakOrder(RoutingLess)
    ensures forall a, b :: Equiv(RoutingLess, a, b) <==> a.Key() == b.Key() && a.m.tDst == b.m.tDst
  {
    IntOrder();
    LexIsStrictWeakOrder(IntLess);
    var lex := (a: seq<int>, b: seq<int>) => Lex(IntLess, a, b);
    PulledBack(lex, RoutingDigits, RoutingLess);
    forall a, b ensures Equiv(RoutingLess, a, b) <==> a.Key() == b.Key() && a.m.tDst == b.m.tDst {
      LexIntEquiv(RoutingDigits(a), RoutingDigits(b));
      SameKeyDigits(a.Key(), b.Key());
      if RoutingDigits(a) == RoutingDigits(b) {
        assert RoutingDigits(a)[..67] == KeyDigits(a.Key()) && RoutingDigits(b)[..67] == KeyDigits(b.Key());
        assert RoutingDigits(a)[67] == a.m.tDst && RoutingDigits(b)[67] == b.m.tDst;
      }
    }
  }

  /** Lists that begin with lists of one length compare by these first. */
  lemma {:induction false} LexConcat(a: seq<int>, x: seq<int>, b: seq<int>, y: seq<int>)
    requires |a| == |b|
    ensures Lex(IntLess, a + x, b + y) <==> Lex(IntLess, a, b) || (a == b && Lex(IntLess, x, y))
  {
    if a == [] {
      assert a + x == x && b + y == y;
    } else {
      assert (a + x)[1..] == a[1..] + x && (b + y)[1..] == b[1..] + y;
      LexConcat(a[1..], x, b[1..], y);
      assert a == [a[0]] + a[1..] && b == [b[0]] + b[1..];
    }
  }

  lemma LexNumber(a: int, x: seq<int>, b: int, y: seq<int>)
    ensures Lex(IntLess, [a] + x, [b] + y) <==> a < b || (a == b && Lex(IntLess, x, y))
  {
    assert ([a] + x)[1..] == x && ([b] + y)[1..] == y;
  }

  /** Routing tuples are ordered by destination, bucket, address round, current position and delivery
      time, in this order. */
  lemma RoutingLessIff(a: RoutingTuple, b: RoutingTuple)
    ensures RoutingLess(a, b) <==>
              || a.onidDst < b.onidDst
              || (a.onidDst == b.onidDst && Lex<int>(IntLess, a.bucketDst, b.bucketDst))
              || (a.onidDst == b.onidDst && a.bucketDst == b.bucketDst && a.lDst < b.lDst)
              || (a.onidDst == b.onidDst && a.bucketDst == b.bucketDst && a.lDst == b.lDst
                  && a.onidCurrent < b.onidCurrent)
              || (a.Key() == b.Key() && a.m.tDst < b.m.tDst)
  {
    hide Lex;
    var x: seq<int>, y: seq<int> := [a.m.tDst], [b.m.tDst];
    assert RoutingDigits(a) == [a.onidDst] + (a.bucketDst + ([a.lDst] + ([a.onidCurrent] + x)));
    assert RoutingDigits(b) == [b.onidDst] + (b.bucketDst + ([b.lDst] + ([b.onidCurrent] + y)));
    LexNumber(a.onidDst, a.bucketDst + ([a.lDst] + ([a.onidCurrent] + x)),
              b.onidDst, b.bucketDst + ([b.lDst] + ([b.onidCurrent] + y)));
    LexConcat(a.bucketDst, [a.lDst] + ([a.onidCurrent] + x), b.bucketDst, [b.lDst] + ([b.onidCurrent] + y));
    LexNumber(a.lDst, [a.onidCurrent] + x, b.lDst, [b.onidCurrent] + y);
    LexNumber(a.onidCurrent, x, b.onidCurrent, y);
    LexSingle(a.m.tDst, b.m.tDst);
  }

  lemma LexSingle(a: int, b: int)
    ensures Lex(IntLess, [a], [b]) <==> a < b
  {
  }

  /** Peers are ordered by number, then by the bytes of the address, then by port. */
  lemma PeerLessIff(a: Peer, b: Peer)
    ensures PeerLess(a, b) <==>
              || a.id < b.id
              || (a.id == b.id && Lex<int>(IntLess, [a.uri.ip1, a.uri.ip2, a.uri.ip3, a.uri.ip4],
                                      [b.uri.ip1, b.uri.ip2, b.uri.ip3, b.uri.ip4]))
              || (a.id == b.id && a.uri.ip1 == b.uri.ip1 && a.uri.ip2 == b.uri.ip2 && a.uri.ip3 == b.uri.ip3
                  && a.uri.ip4 == b.uri.ip4 && a.uri.port < b.uri.port)
  {
    hide Lex;
    var x: seq<int> := [a.uri.ip1, a.uri.ip2, a.uri.ip3, a.uri.ip4];
    var y: seq<int> := [b.uri.ip1, b.uri.ip2, b.uri.ip3, b.uri.ip4];
    assert PeerDigits(a) == [a.id] + (x + [a.uri.port]) && PeerDigits(b) == [b.id] + (y + [b.uri.port]);
    LexNumber(a.id, x + [a.uri.port], b.id, y + [b.uri.port]);
    LexConcat(x, [a.uri.port], y, [b.uri.port]);
    LexSingle(a.uri.port, b.uri.port);
    assert x == y <==> x[0] == y[0] && x[1] == y[1] && x[2] == y[2] && x[3] == y[3];
  }

  /** Vectors a map cannot tell apart are equally long, with equivalent tuples. */
  lemma RoutingVecEquiv(a: seq<RoutingTuple>, b: seq<RoutingTuple>)
    ensures Equiv(RoutingVecLess, a, b) <==>
              |a| == |b| && forall k :: 0 <= k < |a| ==> a[k].Key() == b[k].Key() && a[k].m.tDst == b[k].m.tDst
  {
    RoutingOrder();
    hide RoutingLess;
    LexEquiv(RoutingLess, a, b);
  }

  lemma RoutingVecOrder()
    ensures StrictWeakOrder(RoutingVecLess)
  {
    RoutingOrder();
    LexIsStrictWeakOrder(RoutingLess);
    var lex := (a: seq<RoutingTuple>, b: seq<RoutingTuple>) => Lex(RoutingLess, a, b);
    PulledBack(lex, (s: seq<RoutingTuple>) => s, RoutingVecLess);
  }
}

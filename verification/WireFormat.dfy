/** The records enclaves exchange as bytes: how each is written, how it is read, and what is read
    where it was written.

    Every number of 64 bits may change on the way (`Reread`); `image` functions say what becomes
    of a record, and a record survives iff all its numbers do. The source's readers of pseudonyms
    and messages do not advance the cursor; `moves` = false is the source, `moves` = true the
    reader with this put right. */
module WireFormat {
  import opened Bits
  import opened Options
  import opened Ordering
  import opened Sequences
  import opened Serialization
  import opened Structures

  // ---------------------------------------------------------------- addresses

  function EncUri(u: Uri): Bytes {
    EncNumber(u.ip1, 1) + EncNumber(u.ip2, 1) + EncNumber(u.ip3, 1) + EncNumber(u.ip4, 1) + EncNumber(u.port, 8)
  }

  function DecUri(b: Bytes, cur: nat): Option<Read<Uri>> {
    match DecByte(b, cur) case None => None case Some(ip1) =>
    match DecByte(b, ip1.cur) case None => None case Some(ip2) =>
    match DecByte(b, ip2.cur) case None => None case Some(ip3) =>
    match DecByte(b, ip3.cur) case None => None case Some(ip4) =>
    match DecU64(b, ip4.cur) case None => None case Some(port) =>
    Some(Read(Uri(ip1.value, ip2.value, ip3.value, ip4.value, port.value), port.cur))
  }

  function EncPeer(p: Peer): Bytes {
    EncNumber(p.id, 8) + EncUri(p.uri)
  }

  function DecPeer(b: Bytes, cur: nat): Option<Read<Peer>> {
    match DecU64(b, cur) case None => None case Some(id) =>
    match DecUri(b, id.cur) case None => None case Some(uri) =>
    Some(Read(Peer(id.value, uri.value), uri.cur))
  }

  function PeerImage(p: Peer): Peer {
    Peer(Reread(p.id), p.uri.(port := Reread(p.uri.port)))
  }

  predicate FaithfulPeer(p: Peer) { Faithful(p.id) && Faithful(p.uri.port) }

  lemma UriRead(b: Bytes, cur: nat, u: Uri)
    requires HoldsAt(b, cur, EncUri(u))
    ensures DecUri(b, cur) == Some(Read(u.(port := Reread(u.port)), cur + 12)) && |EncUri(u)| == 12
  {
    var e1, e2, e3, e4, e5 :=
      EncNumber(u.ip1, 1), EncNumber(u.ip2, 1), EncNumber(u.ip3, 1), EncNumber(u.ip4, 1), EncNumber(u.port, 8);
    hide EncNumber, Reread, DecByte, DecU64, HoldsAt;
    HoldsInParts(b, cur, e1 + e2 + e3 + e4, e5);
    HoldsInParts(b, cur, e1 + e2 + e3, e4);
    HoldsInParts(b, cur, e1 + e2, e3);
    HoldsInParts(b, cur, e1, e2);
    ByteRead(b, cur, u.ip1);
    ByteRead(b, cur + 1, u.ip2);
    ByteRead(b, cur + 2, u.ip3);
    ByteRead(b, cur + 3, u.ip4);
    U64Read(b, cur + 4, u.port);
  }

  lemma PeerLength(p: Peer)
    ensures |EncPeer(p)| == 20
  {
  }

  lemma PeerReads(b: Bytes, p: Peer)
    ensures Reads(EncPeer, DecPeer, b, p, PeerImage(p))
  {
    hide EncNumber, EncUri, DecUri, Reread, DecU64, HoldsAt;
    forall cur: nat | HoldsAt(b, cur, EncPeer(p))
      ensures DecPeer(b, cur) == Some(Read(PeerImage(p), cur + |EncPeer(p)|))
    {
      HoldsInParts(b, cur, EncNumber(p.id, 8), EncUri(p.uri));
      U64Read(b, cur, p.id);
      UriRead(b, cur + 8, p.uri);
    }
  }

  /** The number a `Reread` returns is the number written iff that is faithful. */
  lemma RereadIff(v: U64)
    ensures Reread(v) == v <==> Faithful(v)
  {
    hide Reread, EncNumber;
    var own := EncNumber(v, 8);
    assert own[0..0 + |own|] == own;
    U64Read(own, 0, v);
  }

  lemma PeerImageIff(p: Peer)
    ensures PeerImage(p) == p <==> FaithfulPeer(p)
  {
    RereadIff(p.id);
    RereadIff(p.uri.port);
  }

  // ---------------------------------------------------------------- pseudonyms and messages

  /** Copying `n` bytes from the cursor. */
  function DecArray(n: nat, moves: bool, b: Bytes, cur: nat): (r: Option<Read<Bytes>>)
    ensures r.Some? ==> |r.value.value| == n
  {
    if cur + n > |b| then None else Some(Read(b[cur..cur + n], if moves then cur + n else cur))
  }

  function EncMessage(m: MessageTuple): Bytes {
    m.nSrc + m.m + m.nDst + EncNumber(m.tDst, 8)
  }

  function DecMessage(moves: bool, b: Bytes, cur: nat): Option<Read<MessageTuple>> {
    match DecArray(64, moves, b, cur) case None => None case Some(nSrc) =>
    match DecArray(128, moves, b, nSrc.cur) case None => None case Some(m) =>
    match DecArray(64, moves, b, m.cur) case None => None case Some(nDst) =>
    match DecU64(b, nDst.cur) case None => None case Some(tDst) =>
    Some(Read(MessageTuple(nSrc.value, m.value, nDst.value, tDst.value), tDst.cur))
  }

  function MessageReader(moves: bool): Decoder<MessageTuple> {
    (b: Bytes, cur: nat) => DecMessage(moves, b, cur)
  }

  function MessageImage(m: MessageTuple): MessageTuple { m.(tDst := Reread(m.tDst)) }

  predicate FaithfulMessage(m: MessageTuple) { Faithful(m.tDst) }

  function EncAgreement(a: AgreementTuple): Bytes {
    EncMessage(a.m) + EncPeer(a.s) + EncNumber(a.l, 8)
  }

  function DecAgreement(moves: bool, b: Bytes, cur: nat): Option<Read<AgreementTuple>> {
    match DecMessage(moves, b, cur) case None => None case Some(m) =>
    match DecPeer(b, m.cur) case None => None case Some(s) =>
    match DecU64(b, s.cur) case None => None case Some(l) =>
    Some(Read(AgreementTuple(m.value, s.value, l.value), l.cur))
  }

  function AgreementReader(moves: bool): Decoder<AgreementTuple> {
    (b: Bytes, cur: nat) => DecAgreement(moves, b, cur)
  }

  function AgreementImage(a: AgreementTuple): AgreementTuple {
    AgreementTuple(MessageImage(a.m), PeerImage(a.s), Reread(a.l))
  }

  predicate FaithfulAgreement(a: AgreementTuple) { FaithfulMessage(a.m) && FaithfulPeer(a.s) && Faithful(a.l) }

  function EncRouting(r: RoutingTuple): Bytes {
    EncMessage(r.m) + EncNumber(r.onidDst, 8) + r.bucketDst + EncNumber(r.lDst, 8) + EncNumber(r.onidCurrent, 8)
  }

  function DecRouting(moves: bool, b: Bytes, cur: nat): Option<Read<RoutingTuple>> {
    match DecMessage(moves, b, cur) case None => None case Some(m) =>
    match DecU64(b, m.cur) case None => None case Some(onidDst) =>
    match DecArray(64, moves, b, onidDst.cur) case None => None case Some(bucketDst) =>
    match DecU64(b, bucketDst.cur) case None => None case Some(lDst) =>
    match DecU64(b, lDst.cur) case None => None case Some(onidCurrent) =>
    Some(Read(RoutingTuple(m.value, onidDst.value, bucketDst.value, lDst.value, onidCurrent.value), onidCurrent.cur))
  }

  function RoutingReader(moves: bool): Decoder<RoutingTuple> {
    (b: Bytes, cur: nat) => DecRouting(moves, b, cur)
  }

  function RoutingImage(r: RoutingTuple): RoutingTuple {
    RoutingTuple(MessageImage(r.m), Reread(r.onidDst), r.bucketDst, Reread(r.lDst), Reread(r.onidCurrent))
  }

  predicate FaithfulRouting(r: RoutingTuple) {
    FaithfulMessage(r.m) && Faithful(r.onidDst) && Faithful(r.lDst) && Faithful(r.onidCurrent)
  }

  /** The lengths of the records do not depend on their contents. */
  lemma RecordLengths(m: MessageTuple, a: AgreementTuple, r: RoutingTuple)
    ensures |EncMessage(m)| == 264 && |EncAgreement(a)| == 292 && |EncRouting(r)| == 352
  {
  }

  lemma ArrayRead(n: nat, b: Bytes, cur: nat, chunk: Bytes)
    requires HoldsAt(b, cur, chunk) && |chunk| == n
    ensures DecArray(n, true, b, cur) == Some(Read(chunk, cur + n))
  {
  }

  lemma MessageReads(b: Bytes, m: MessageTuple)
    ensures Reads(EncMessage, MessageReader(true), b, m, MessageImage(m))
  {
    hide EncNumber, Reread, DecU64, HoldsAt, DecArray;
    forall cur: nat | HoldsAt(b, cur, EncMessage(m))
      ensures MessageReader(true)(b, cur) == Some(Read(MessageImage(m), cur + |EncMessage(m)|))
    {
      HoldsInParts(b, cur, m.nSrc + m.m + m.nDst, EncNumber(m.tDst, 8));
      HoldsInParts(b, cur, m.nSrc + m.m, m.nDst);
      HoldsInParts(b, cur, m.nSrc, m.m);
      ArrayRead(64, b, cur, m.nSrc);
      ArrayRead(128, b, cur + 64, m.m);
      ArrayRead(64, b, cur + 192, m.nDst);
      U64Read(b, cur + 256, m.tDst);
    }
  }

  lemma AgreementReads(b: Bytes, a: AgreementTuple)
    ensures Reads(EncAgreement, AgreementReader(true), b, a, AgreementImage(a))
  {
    MessageReads(b, a.m);
    PeerReads(b, a.s);
    hide EncNumber, Reread, DecU64, HoldsAt, EncMessage, DecMessage, EncPeer, DecPeer, MessageImage, PeerImage;
    forall cur: nat | HoldsAt(b, cur, EncAgreement(a))
      ensures AgreementReader(true)(b, cur) == Some(Read(AgreementImage(a), cur + |EncAgreement(a)|))
    {
      HoldsInParts(b, cur, EncMessage(a.m) + EncPeer(a.s), EncNumber(a.l, 8));
      HoldsInParts(b, cur, EncMessage(a.m), EncPeer(a.s));
      var m := cur + |EncMessage(a.m)|;
      assert MessageReader(true)(b, cur) == DecMessage(true, b, cur);
      U64Read(b, m + |EncPeer(a.s)|, a.l);
    }
  }

  lemma RoutingReads(b: Bytes, r: RoutingTuple)
    ensures Reads(EncRouting, RoutingReader(true), b, r, RoutingImage(r))
  {
    MessageReads(b, r.m);
    hide EncNumber, Reread, DecU64, HoldsAt, EncMessage, DecMessage, DecArray, MessageImage;
    forall cur: nat | HoldsAt(b, cur, EncRouting(r))
      ensures RoutingReader(true)(b, cur) == Some(Read(RoutingImage(r), cur + |EncRouting(r)|))
    {
      var e1, e2, e3, e4 := EncMessage(r.m), EncNumber(r.onidDst, 8), EncNumber(r.lDst, 8), EncNumber(r.onidCurrent, 8);
      HoldsInParts(b, cur, e1 + e2 + r.bucketDst + e3, e4);
      HoldsInParts(b, cur, e1 + e2 + r.bucketDst, e3);
      HoldsInParts(b, cur, e1 + e2, r.bucketDst);
      HoldsInParts(b, cur, e1, e2);
      var m := cur + |e1|;
      assert MessageReader(true)(b, cur) == DecMessage(true, b, cur);
      U64Read(b, m, r.onidDst);
      ArrayRead(64, b, m + 8, r.bucketDst);
      U64Read(b, m + 72, r.lDst);
      U64Read(b, m + 80, r.onidCurrent);
    }
  }

  lemma RecordImagesIff(m: MessageTuple, a: AgreementTuple, r: RoutingTuple)
    ensures MessageImage(m) == m <==> FaithfulMessage(m)
    ensures AgreementImage(a) == a <==> FaithfulAgreement(a)
    ensures RoutingImage(r) == r <==> FaithfulRouting(r)
  {
    hide Reread, Faithful;
    RereadIff(m.tDst);
    RereadIff(a.m.tDst);
    PeerImageIff(a.s);
    RereadIff(a.l);
    RereadIff(r.m.tDst);
    RereadIff(r.onidDst);
    RereadIff(r.lDst);
    RereadIff(r.onidCurrent);
  }

  // ---------------------------------------------------------------- tables

  /** The keys of a table, ascending. */
  function SortedKeys(keys: set<U64>): (s: seq<U64>)
    ensures |s| == |keys|
    decreases keys
  {
    if keys == {} then []
    else [Least(keys)] + SortedKeys(keys - {Least(keys)})
  }

  function Least(keys: set<U64>): (k: U64)
    requires keys != {}
    ensures k in keys && forall x :: x in keys ==> k <= x
  {
    LeastKeyExists(keys);
    var k :| k in keys && forall x :: x in keys ==> k <= x;
    k
  }

  lemma SortedKeysStep(keys: set<U64>)
    requires keys != {}
    ensures var k := SortedKeys(keys)[0];
            && k in keys && (forall x :: x in keys ==> k <= x)
            && SortedKeys(keys) == [k] + SortedKeys(keys - {k})
  {
  }

  lemma {:induction false} SortedKeysMembers(keys: set<U64>)
    ensures Elements(SortedKeys(keys)) == keys && StrictlyAscending(OnidLess, SortedKeys(keys))
    decreases keys
  {
    assert keys == {} ==> SortedKeys(keys) == [];
    hide SortedKeys;
    if keys != {} {
      SortedKeysStep(keys);
      var k := SortedKeys(keys)[0];
      SortedKeysMembers(keys - {k});
      PrependLeast(k, SortedKeys(keys - {k}), keys - {k});
    }
  }

  lemma PrependLeast(k: U64, s: seq<U64>, keys: set<U64>)
    requires StrictlyAscending(OnidLess, s) && Elements(s) == keys && k !in keys
    requires forall x :: x in keys ==> k <= x
    ensures StrictlyAscending(OnidLess, [k] + s) && Elements([k] + s) == {k} + keys
  {
    assert forall i :: 0 <= i < |s| ==> s[i] in Elements(s);
  }

  lemma {:induction false} LeastKeyExists(keys: set<U64>)
    requires keys != {}
    ensures exists k :: k in keys && forall x :: x in keys ==> k <= x
  {
    OnidOrder();
    var k := Minimum(keys, OnidLess);
    assert forall x :: x in keys ==> k <= x;
  }

  /** One entry of a table. */
  datatype Row = Row(onid: U64, peers: seq<Peer>)

  function Rows(m: Table): (rows: seq<Row>)
    ensures |rows| == |m|
  {
    var keys := SortedKeys(m.Keys);
    seq(|keys|, i requires 0 <= i < |keys| => Row(keys[i], RouteAt(m, keys[i])))
  }

  /** The table into which rows have been assigned one after another. */
  function FromRows(rows: seq<Row>): Table {
    if rows == [] then map[]
    else FromRows(rows[..|rows| - 1])[rows[|rows| - 1].onid := rows[|rows| - 1].peers]
  }

  lemma {:induction false} FromRowsKeys(rows: seq<Row>, o: U64)
    ensures o in FromRows(rows) <==> exists i :: 0 <= i < |rows| && rows[i].onid == o
    ensures o in FromRows(rows) ==> exists i :: 0 <= i < |rows| && rows[i] == Row(o, FromRows(rows)[o])
  {
    if rows != [] {
      var n := |rows| - 1;
      FromRowsKeys(rows[..n], o);
      if o in FromRows(rows[..n]) {
        var i :| 0 <= i < n && rows[..n][i] == Row(o, FromRows(rows[..n])[o]);
        assert rows[i].onid == o;
        if rows[n].onid != o { assert rows[i] == Row(o, FromRows(rows)[o]); }
      }
      if rows[n].onid == o { assert rows[n] == Row(o, FromRows(rows)[o]); }
      if i :| 0 <= i < |rows| && rows[i].onid == o {
        if i < n { assert rows[..n][i].onid == o; }
      }
    }
  }

  lemma RowOf(m: Table, o: U64)
    ensures o in m <==> Row(o, RouteAt(m, o)) in Rows(m)
    ensures forall i :: 0 <= i < |m| ==> Rows(m)[i].onid in m && Rows(m)[i].peers == m[Rows(m)[i].onid]
  {
    var keys := SortedKeys(m.Keys);
    SortedKeysMembers(m.Keys);
    forall i | 0 <= i < |m| ensures Rows(m)[i].onid in m { assert keys[i] in Elements(keys); }
    if o in m {
      assert o in Elements(keys);
      var i :| 0 <= i < |keys| && keys[i] == o;
      assert Rows(m)[i] == Row(o, RouteAt(m, o));
    }
  }

  /** Writing a table row by row and assigning the rows gives the table back. */
  lemma FromRowsOfRows(m: Table)
    ensures FromRows(Rows(m)) == m
  {
    hide Rows, FromRows;
    var r := FromRows(Rows(m));
    forall o: U64 ensures (o in r <==> o in m) && (o in m ==> r[o] == m[o]) {
      FromRowsKeys(Rows(m), o);
      RowOf(m, o);
    }
    assert r.Keys == m.Keys;
  }

  function EncRow(r: Row): Bytes {
    EncNumber(r.onid, 8) + EncVec(EncPeer, r.peers)
  }

  function DecRow(b: Bytes, cur: nat): Option<Read<Row>> {
    match DecU64(b, cur) case None => None case Some(onid) =>
    match DecVec(DecPeer, b, onid.cur) case None => None case Some(peers) =>
    Some(Read(Row(onid.value, peers.value), peers.cur))
  }

  function RowImage(r: Row): Row { Row(Reread(r.onid), Map(PeerImage, r.peers)) }

  function EncTable(m: Table): Bytes { EncVec(EncRow, Rows(m)) }

  function DecTable(b: Bytes, cur: nat): Option<Read<Table>> {
    match DecVec(DecRow, b, cur) case None => None case Some(rows) => Some(Read(FromRows(rows.value), rows.cur))
  }

  function TableImage(m: Table): Table { FromRows(Map(RowImage, Rows(m))) }

  predicate Short<T>(s: seq<T>) { |s| < 0x8000_0000 }

  predicate ShortTable(m: Table) { |m| < 0x8000_0000 && forall o :: o in m ==> Short(m[o]) }

  predicate FaithfulPeers(s: seq<Peer>) { forall i :: 0 <= i < |s| ==> FaithfulPeer(s[i]) }

  predicate FaithfulTable(m: Table) { forall o :: o in m ==> Faithful(o) && FaithfulPeers(m[o]) }

  lemma PeersRead(b: Bytes, cur: nat, s: seq<Peer>)
    requires Short(s) && HoldsAt(b, cur, EncVec(EncPeer, s))
    ensures DecVec(DecPeer, b, cur) == Some(Read(Map(PeerImage, s), cur + |EncVec(EncPeer, s)|))
  {
    hide EncVec, DecVec, Reads, HoldsAt;
    forall p | p in s ensures Reads(EncPeer, DecPeer, b, p, PeerImage(p)) { PeerReads(b, p); }
    VecRead(EncPeer, DecPeer, PeerImage, s, b, cur);
  }

  lemma RowReads(b: Bytes, r: Row)
    requires Short(r.peers)
    ensures Reads(EncRow, DecRow, b, r, RowImage(r))
  {
    hide EncVec, DecVec, HoldsAt, DecU64, EncNumber, Reread;
    forall cur: nat | HoldsAt(b, cur, EncRow(r))
      ensures DecRow(b, cur) == Some(Read(RowImage(r), cur + |EncRow(r)|))
    {
      HoldsInParts(b, cur, EncNumber(r.onid, 8), EncVec(EncPeer, r.peers));
      U64Read(b, cur, r.onid);
      PeersRead(b, cur + 8, r.peers);
    }
  }

  lemma TableRead(b: Bytes, cur: nat, m: Table)
    requires ShortTable(m) && HoldsAt(b, cur, EncTable(m))
    ensures DecTable(b, cur) == Some(Read(TableImage(m), cur + |EncTable(m)|))
  {
    hide EncVec, DecVec, Reads, HoldsAt, FromRows, Rows;
    forall r | r in Rows(m) ensures Reads(EncRow, DecRow, b, r, RowImage(r)) {
      var i :| 0 <= i < |m| && Rows(m)[i] == r;
      RowOf(m, r.onid);
      RowReads(b, r);
    }
    VecRead(EncRow, DecRow, RowImage, Rows(m), b, cur);
  }

  lemma PeersImageIff(s: seq<Peer>)
    ensures Map(PeerImage, s) == s <==> FaithfulPeers(s)
  {
    hide PeerImage, FaithfulPeer;
    forall i | 0 <= i < |s| ensures PeerImage(s[i]) == s[i] <==> FaithfulPeer(s[i]) { PeerImageIff(s[i]); }
  }

  /** In a table that comes back unchanged every onid is the rereading of an onid. */
  lemma KeyIsReread(m: Table, o: U64) returns (o': U64)
    requires TableImage(m) == m && o in m
    ensures o' in m && o == Reread(o')
  {
    hide FromRows, Rows, Reread;
    FromRowsKeys(Map(RowImage, Rows(m)), o);
    var i :| 0 <= i < |m| && Map(RowImage, Rows(m))[i].onid == o;
    RowOf(m, o);
    o' := Rows(m)[i].onid;
  }

  lemma KeysFaithful(m: Table, o: U64)
    requires TableImage(m) == m && o in m
    ensures Faithful(o)
  {
    hide TableImage, Reread;
    var o1 := KeyIsReread(m, o);
    var o2 := KeyIsReread(m, o1);
    RereadTwice(o2);
  }

  /** With faithful onids each list is read under its own onid. */
  lemma ImageAt(m: Table, o: U64)
    requires forall x :: x in m ==> Faithful(x)
    ensures TableImage(m).Keys == m.Keys
    ensures o in m ==> TableImage(m)[o] == Map(PeerImage, m[o])
  {
    hide FromRows, Rows, Reread, Faithful, PeerImage;
    var rows := Map(RowImage, Rows(m));
    forall i | 0 <= i < |m|
      ensures rows[i].onid in m && rows[i] == Row(Rows(m)[i].onid, Map(PeerImage, m[rows[i].onid]))
    {
      RowOf(m, o);
      RereadIff(Rows(m)[i].onid);
    }
    forall x: U64 ensures x in TableImage(m) <==> x in m {
      FromRowsKeys(rows, x);
      RowOf(m, x);
      if x in m {
        var i :| 0 <= i < |m| && Rows(m)[i] == Row(x, m[x]);
        assert rows[i].onid == x;
      }
    }
    FromRowsKeys(rows, o);
  }

  lemma TableImageIff(m: Table)
    ensures TableImage(m) == m <==> FaithfulTable(m)
  {
    hide TableImage, Faithful, PeerImage, FaithfulPeers;
    if TableImage(m) == m {
      forall o | o in m ensures Faithful(o) { KeysFaithful(m, o); }
      forall o | o in m ensures FaithfulPeers(m[o]) {
        ImageAt(m, o);
        PeersImageIff(m[o]);
      }
    }
    if FaithfulTable(m) {
      forall o | o in m ensures o in TableImage(m) && TableImage(m)[o] == m[o] {
        ImageAt(m, o);
        PeersImageIff(m[o]);
      }
      ImageAt(m, 0);
    }
  }

  // ---------------------------------------------------------------- overlay messages and additional data

  function EncOverlay(m: OverlayMessage): Bytes {
    EncNumber(m.t, 1) + EncNumber(m.onid, 8) + EncPeer(m.peer) + EncTable(m.gammaRoute)
    + EncVec(EncPeer, m.gammaReceive)
  }

  function DecOverlay(b: Bytes, cur: nat): Option<Read<OverlayMessage>> {
    match DecByte(b, cur) case None => None case Some(t) =>
    match DecU64(b, t.cur) case None => None case Some(onid) =>
    match DecPeer(b, onid.cur) case None => None case Some(peer) =>
    match DecTable(b, peer.cur) case None => None case Some(route) =>
    match DecVec(DecPeer, b, route.cur) case None => None case Some(receive) =>
    Some(Read(OverlayMessage(t.value, onid.value, peer.value, route.value, receive.value), receive.cur))
  }

  function OverlayImage(m: OverlayMessage): OverlayMessage {
    OverlayMessage(m.t, Reread(m.onid), PeerImage(m.peer), TableImage(m.gammaRoute), Map(PeerImage, m.gammaReceive))
  }

  predicate ShortOverlay(m: OverlayMessage) { ShortTable(m.gammaRoute) && Short(m.gammaReceive) }

  predicate FaithfulOverlay(m: OverlayMessage) {
    Faithful(m.onid) && FaithfulPeer(m.peer) && FaithfulTable(m.gammaRoute) && FaithfulPeers(m.gammaReceive)
  }

  lemma OverlayReads(b: Bytes, m: OverlayMessage)
    requires ShortOverlay(m)
    ensures Reads(EncOverlay, DecOverlay, b, m, OverlayImage(m))
  {
    PeerReads(b, m.peer);
    hide EncNumber, EncPeer, EncTable, EncVec, HoldsAt, Reread, PeerImage, TableImage, DecByte, DecU64, DecPeer,
         DecTable, DecVec, ShortTable, Short;
    forall cur: nat | HoldsAt(b, cur, EncOverlay(m))
      ensures DecOverlay(b, cur) == Some(Read(OverlayImage(m), cur + |EncOverlay(m)|))
    {
      var e1, e2, e3, e4, e5 :=
        EncNumber(m.t, 1), EncNumber(m.onid, 8), EncPeer(m.peer), EncTable(m.gammaRoute),
        EncVec(EncPeer, m.gammaReceive);
      HoldsInParts(b, cur, e1 + e2 + e3 + e4, e5);
      HoldsInParts(b, cur, e1 + e2 + e3, e4);
      HoldsInParts(b, cur, e1 + e2, e3);
      HoldsInParts(b, cur, e1, e2);
      ByteRead(b, cur, m.t);
      U64Read(b, cur + 1, m.onid);
      TableRead(b, cur + 9 + |e3|, m.gammaRoute);
      PeersRead(b, cur + 9 + |e3| + |e4|, m.gammaReceive);
    }
  }

  lemma OverlayImageIff(m: OverlayMessage)
    ensures OverlayImage(m) == m <==> FaithfulOverlay(m)
  {
    hide Reread, Faithful, PeerImage, TableImage, FaithfulPeer, FaithfulPeers, FaithfulTable;
    RereadIff(m.onid);
    PeerImageIff(m.peer);
    TableImageIff(m.gammaRoute);
    PeersImageIff(m.gammaReceive);
  }

  datatype Aad = Aad(sender: Peer, receiver: Peer, round: U64, structure: seq<OverlayMessage>)

  function EncAad(a: Aad): Bytes {
    EncPeer(a.sender) + EncPeer(a.receiver) + EncNumber(a.round, 8) + EncVec(EncOverlay, a.structure)
  }

  function DecAad(b: Bytes, cur: nat): Option<Read<Aad>> {
    match DecPeer(b, cur) case None => None case Some(sender) =>
    match DecPeer(b, sender.cur) case None => None case Some(receiver) =>
    match DecU64(b, receiver.cur) case None => None case Some(round) =>
    match DecVec(DecOverlay, b, round.cur) case None => None case Some(structure) =>
    Some(Read(Aad(sender.value, receiver.value, round.value, structure.value), structure.cur))
  }

  function AadImage(a: Aad): Aad {
    Aad(PeerImage(a.sender), PeerImage(a.receiver), Reread(a.round), Map(OverlayImage, a.structure))
  }

  predicate ShortAad(a: Aad) {
    Short(a.structure) && forall i :: 0 <= i < |a.structure| ==> ShortOverlay(a.structure[i])
  }

  predicate FaithfulAad(a: Aad) {
    && FaithfulPeer(a.sender) && FaithfulPeer(a.receiver) && Faithful(a.round)
    && forall i :: 0 <= i < |a.structure| ==> FaithfulOverlay(a.structure[i])
  }

  /** Additional data is read to its end, at any offset and before any suffix. */
  lemma AadRead(b: Bytes, cur: nat, a: Aad)
    requires ShortAad(a) && HoldsAt(b, cur, EncAad(a))
    ensures DecAad(b, cur) == Some(Read(AadImage(a), cur + |EncAad(a)|))
  {
    PeerReads(b, a.sender);
    PeerReads(b, a.receiver);
    hide EncNumber, EncPeer, EncOverlay, EncVec, HoldsAt, Reread, PeerImage, OverlayImage, DecU64, DecPeer, DecOverlay,
         DecVec, ShortOverlay;
    var e1, e2, e3, e4 :=
      EncPeer(a.sender), EncPeer(a.receiver), EncNumber(a.round, 8), EncVec(EncOverlay, a.structure);
    HoldsInParts(b, cur, e1 + e2 + e3, e4);
    HoldsInParts(b, cur, e1 + e2, e3);
    HoldsInParts(b, cur, e1, e2);
    U64Read(b, cur + |e1| + |e2|, a.round);
    StructureRead(b, cur + |e1| + |e2| + 8, a.structure);
  }

  lemma StructureRead(b: Bytes, cur: nat, s: seq<OverlayMessage>)
    requires Short(s) && HoldsAt(b, cur, EncVec(EncOverlay, s))
    requires forall i :: 0 <= i < |s| ==> ShortOverlay(s[i])
    ensures DecVec(DecOverlay, b, cur) == Some(Read(Map(OverlayImage, s), cur + |EncVec(EncOverlay, s)|))
  {
    hide EncVec, DecVec, Reads, HoldsAt, ShortOverlay;
    forall m | m in s ensures Reads(EncOverlay, DecOverlay, b, m, OverlayImage(m)) { OverlayReads(b, m); }
    VecRead(EncOverlay, DecOverlay, OverlayImage, s, b, cur);
  }

  lemma AadImageIff(a: Aad)
    ensures AadImage(a) == a <==> FaithfulAad(a)
  {
    hide Reread, Faithful, PeerImage, OverlayImage, FaithfulPeer, FaithfulOverlay;
    RereadIff(a.round);
    PeerImageIff(a.sender);
    PeerImageIff(a.receiver);
    forall i | 0 <= i < |a.structure|
      ensures OverlayImage(a.structure[i]) == a.structure[i] <==> FaithfulOverlay(a.structure[i])
    {
      OverlayImageIff(a.structure[i]);
    }
    assert Map(OverlayImage, a.structure) == a.structure
      <==> forall i :: 0 <= i < |a.structure| ==> OverlayImage(a.structure[i]) == a.structure[i];
  }

  // ---------------------------------------------------------------- the six sections

  datatype Sections = Sections(
    announce: seq<MessageTuple>, agreement: seq<AgreementTuple>, inject: seq<MessageTuple>,
    routing: seq<RoutingTuple>, predeliver: seq<MessageTuple>, deliver: seq<MessageTuple>)

  function EncSections(s: Sections): Bytes {
    EncVec(EncMessage, s.announce) + EncVec(EncAgreement, s.agreement) + EncVec(EncMessage, s.inject)
    + EncVec(EncRouting, s.routing) + EncVec(EncMessage, s.predeliver) + EncVec(EncMessage, s.deliver)
  }

  function DecSections(moves: bool, b: Bytes, cur: nat): Option<Read<Sections>> {
    match DecVec(MessageReader(moves), b, cur) case None => None case Some(announce) =>
    match DecVec(AgreementReader(moves), b, announce.cur) case None => None case Some(agreement) =>
    match DecVec(MessageReader(moves), b, agreement.cur) case None => None case Some(inject) =>
    match DecVec(RoutingReader(moves), b, inject.cur) case None => None case Some(routing) =>
    match DecVec(MessageReader(moves), b, routing.cur) case None => None case Some(predeliver) =>
    match DecVec(MessageReader(moves), b, predeliver.cur) case None => None case Some(deliver) =>
    Some(Read(Sections(announce.value, agreement.value, inject.value, routing.value, predeliver.value, deliver.value),
              deliver.cur))
  }

  function SectionsImage(s: Sections): Sections {
    Sections(Map(MessageImage, s.announce), Map(AgreementImage, s.agreement), Map(MessageImage, s.inject),
             Map(RoutingImage, s.routing), Map(MessageImage, s.predeliver), Map(MessageImage, s.deliver))
  }

  predicate ShortSections(s: Sections) {
    && Short(s.announce) && Short(s.agreement) && Short(s.inject)
    && Short(s.routing) && Short(s.predeliver) && Short(s.deliver)
  }

  predicate FaithfulMessages(ms: seq<MessageTuple>) { forall i :: 0 <= i < |ms| ==> FaithfulMessage(ms[i]) }

  predicate FaithfulSections(s: Sections) {
    && FaithfulMessages(s.announce) && FaithfulMessages(s.inject)
    && FaithfulMessages(s.predeliver) && FaithfulMessages(s.deliver)
    && (forall i :: 0 <= i < |s.agreement| ==> FaithfulAgreement(s.agreement[i]))
    && (forall i :: 0 <= i < |s.routing| ==> FaithfulRouting(s.routing[i]))
  }

  const NO_SECTIONS := Sections([], [], [], [], [], [])

  /** How many bytes the sections take depends only on how many entries they have. */
  lemma SectionsLength(s: Sections)
    ensures |EncSections(s)| == 48 + 264 * (|s.announce| + |s.inject| + |s.predeliver| + |s.deliver|)
                              + 292 * |s.agreement| + 352 * |s.routing|
  {
    hide EncMessage, EncAgreement, EncRouting, EncItems, EncNumber, Product;
    MessagesLength(s.announce);
    MessagesLength(s.inject);
    MessagesLength(s.predeliver);
    MessagesLength(s.deliver);
    forall a | a in s.agreement ensures |EncAgreement(a)| == 292 { RecordLengths(a.m, a, DUMMY_ROUTING); }
    ItemsLength(EncAgreement, s.agreement, 292);
    ProductIsMultiplication(|s.agreement|, 292);
    RoutingsLength(s.routing);
  }

  lemma RoutingsLength(rs: seq<RoutingTuple>)
    ensures |EncVec(EncRouting, rs)| == 8 + 352 * |rs|
  {
    hide EncRouting, EncItems, EncNumber, Product;
    forall r | r in rs ensures |EncRouting(r)| == 352 {
      RecordLengths(r.m, AgreementTuple(r.m, Peer(0, Uri(0, 0, 0, 0, 0)), 0), r);
    }
    ItemsLength(EncRouting, rs, 352);
    ProductIsMultiplication(|rs|, 352);
  }

  lemma MessagesLength(ms: seq<MessageTuple>)
    ensures |EncVec(EncMessage, ms)| == 8 + 264 * |ms|
  {
    hide EncMessage, EncItems, EncNumber, Product;
    forall m | m in ms ensures |EncMessage(m)| == 264 {
      RecordLengths(m, AgreementTuple(m, Peer(0, Uri(0, 0, 0, 0, 0)), 0), DUMMY_ROUTING);
    }
    ItemsLength(EncMessage, ms, 264);
    ProductIsMultiplication(|ms|, 264);
  }

  lemma MessagesRead(b: Bytes, cur: nat, ms: seq<MessageTuple>)
    requires Short(ms) && HoldsAt(b, cur, EncVec(EncMessage, ms))
    ensures DecVec(MessageReader(true), b, cur) == Some(Read(Map(MessageImage, ms), cur + |EncVec(EncMessage, ms)|))
  {
    hide EncVec, DecVec, Reads, HoldsAt, MessageReader;
    forall m | m in ms ensures Reads(EncMessage, MessageReader(true), b, m, MessageImage(m)) { MessageReads(b, m); }
    VecRead(EncMessage, MessageReader(true), MessageImage, ms, b, cur);
  }

  lemma AgreementsRead(b: Bytes, cur: nat, s: seq<AgreementTuple>)
    requires Short(s) && HoldsAt(b, cur, EncVec(EncAgreement, s))
    ensures DecVec(AgreementReader(true), b, cur) == Some(Read(Map(AgreementImage, s), cur + |EncVec(EncAgreement, s)|))
  {
    hide EncVec, DecVec, Reads, HoldsAt, AgreementReader;
    forall a | a in s ensures Reads(EncAgreement, AgreementReader(true), b, a, AgreementImage(a)) {
      AgreementReads(b, a);
    }
    VecRead(EncAgreement, AgreementReader(true), AgreementImage, s, b, cur);
  }

  lemma RoutingsRead(b: Bytes, cur: nat, s: seq<RoutingTuple>)
    requires Short(s) && HoldsAt(b, cur, EncVec(EncRouting, s))
    ensures DecVec(RoutingReader(true), b, cur) == Some(Read(Map(RoutingImage, s), cur + |EncVec(EncRouting, s)|))
  {
    hide EncVec, DecVec, Reads, HoldsAt, RoutingReader;
    forall r | r in s ensures Reads(EncRouting, RoutingReader(true), b, r, RoutingImage(r)) { RoutingReads(b, r); }
    VecRead(EncRouting, RoutingReader(true), RoutingImage, s, b, cur);
  }

  /** With advancing readers the six sections are read to their end, at any offset and before any
      suffix. */
  lemma SectionsRead(b: Bytes, cur: nat, s: Sections)
    requires ShortSections(s) && HoldsAt(b, cur, EncSections(s))
    ensures DecSections(true, b, cur) == Some(Read(SectionsImage(s), cur + |EncSections(s)|))
  {
    hide EncVec, DecVec, HoldsAt, MessageReader, AgreementReader, RoutingReader, Short;
    var e1, e2, e3, e4, e5, e6 := EncVec(EncMessage, s.announce), EncVec(EncAgreement, s.agreement),
      EncVec(EncMessage, s.inject), EncVec(EncRouting, s.routing), EncVec(EncMessage, s.predeliver),
      EncVec(EncMessage, s.deliver);
    HoldsInParts(b, cur, e1 + e2 + e3 + e4 + e5, e6);
    HoldsInParts(b, cur, e1 + e2 + e3 + e4, e5);
    HoldsInParts(b, cur, e1 + e2 + e3, e4);
    HoldsInParts(b, cur, e1 + e2, e3);
    HoldsInParts(b, cur, e1, e2);
    MessagesRead(b, cur, s.announce);
    AgreementsRead(b, cur + |e1|, s.agreement);
    MessagesRead(b, cur + |e1 + e2|, s.inject);
    RoutingsRead(b, cur + |e1 + e2 + e3|, s.routing);
    MessagesRead(b, cur + |e1 + e2 + e3 + e4|, s.predeliver);
    MessagesRead(b, cur + |e1 + e2 + e3 + e4 + e5|, s.deliver);
  }

  lemma MessagesImageIff(ms: seq<MessageTuple>)
    ensures Map(MessageImage, ms) == ms <==> FaithfulMessages(ms)
  {
    hide MessageImage, FaithfulMessage;
    forall i | 0 <= i < |ms| ensures MessageImage(ms[i]) == ms[i] <==> FaithfulMessage(ms[i]) {
      RecordImagesIff(ms[i], AgreementTuple(ms[i], Peer(0, Uri(0, 0, 0, 0, 0)), 0), DUMMY_ROUTING);
    }
  }

  lemma SectionsImageIff(s: Sections)
    ensures SectionsImage(s) == s <==> FaithfulSections(s)
  {
    hide MessageImage, AgreementImage, RoutingImage, FaithfulMessages, FaithfulAgreement, FaithfulRouting;
    MessagesImageIff(s.announce);
    MessagesImageIff(s.inject);
    MessagesImageIff(s.predeliver);
    MessagesImageIff(s.deliver);
    forall i | 0 <= i < |s.agreement|
      ensures AgreementImage(s.agreement[i]) == s.agreement[i] <==> FaithfulAgreement(s.agreement[i])
    {
      RecordImagesIff(s.agreement[i].m, s.agreement[i], DUMMY_ROUTING);
    }
    forall i | 0 <= i < |s.routing|
      ensures RoutingImage(s.routing[i]) == s.routing[i] <==> FaithfulRouting(s.routing[i])
    {
      RecordImagesIff(s.routing[i].m, AgreementTuple(s.routing[i].m, Peer(0, Uri(0, 0, 0, 0, 0)), 0), s.routing[i]);
    }
    assert Map(AgreementImage, s.agreement) == s.agreement
      <==> forall i :: 0 <= i < |s.agreement| ==> AgreementImage(s.agreement[i]) == s.agreement[i];
    assert Map(RoutingImage, s.routing) == s.routing
      <==> forall i :: 0 <= i < |s.routing| ==> RoutingImage(s.routing[i]) == s.routing[i];
  }

  // ---------------------------------------------------------------- the readers as coded

  lemma {:induction false} AccumulatedSame(b: Bytes, cur: nat, c: Bytes, at: nat, size: nat, i: nat)
    requires i <= size && cur + size <= |b| && at + size <= |c|
    requires b[cur..cur + size] == c[at..at + size]
    ensures Accumulated(b, cur, size, i) == Accumulated(c, at, size, i)
  {
    if i > 0 {
      AccumulatedSame(b, cur, c, at, size, i - 1);
      assert b[cur + i - 1] == b[cur..cur + size][i - 1] == c[at..at + size][i - 1] == c[at + i - 1];
    }
  }

  /** As coded, everything in a message is read from where its source pseudonym stands: what is read
      is the message iff it happens to repeat itself in this way. */
  lemma MessageAsCodedIff(b: Bytes, cur: nat, m: MessageTuple)
    requires HoldsAt(b, cur, EncMessage(m))
    ensures DecMessage(false, b, cur).Some? && DecMessage(false, b, cur).value.cur == cur + 8
    ensures DecMessage(false, b, cur).value.value == m <==>
              m.nDst == m.nSrc && m.m == m.nSrc + m.m[..64] && m.tDst == DecU64(m.nSrc, 0).value.value
  {
    hide EncNumber, Accumulated;
    var e := EncMessage(m);
    assert b[cur..cur + |e|] == e;
    assert b[cur..cur + 64] == b[cur..cur + |e|][..64] == e[..64] == m.nSrc;
    assert b[cur..cur + 128] == b[cur..cur + |e|][..128] == e[..128] == m.nSrc + m.m[..64];
    assert b[cur..cur + 8] == b[cur..cur + 64][..8] == m.nSrc[..8] == m.nSrc[0..8];
    AccumulatedSame(b, cur, m.nSrc, 0, 8, 8);
  }

  lemma AsCodedAdvance(b: Bytes)
    ensures forall c: nat :: MessageReader(false)(b, c).Some? ==> MessageReader(false)(b, c).value.cur == c + 8
    ensures forall c: nat :: AgreementReader(false)(b, c).Some? ==> AgreementReader(false)(b, c).value.cur == c + 36
    ensures forall c: nat :: RoutingReader(false)(b, c).Some? ==> RoutingReader(false)(b, c).value.cur == c + 32
  {
    hide Accumulated;
  }

  lemma VecAdvance<T(!new)>(dec: Decoder<T>, b: Bytes, cur: nat, n: nat)
    requires forall c: nat :: dec(b, c).Some? ==> dec(b, c).value.cur == c + n
    requires DecVec(dec, b, cur).Some?
    ensures DecVec(dec, b, cur).value.cur == cur + 8 + n * |DecVec(dec, b, cur).value.value|
  {
    hide DecItems, Accumulated;
    var size := DecNumber(b, cur, 8).value.value;
    ItemsAdvance(dec, size, b, cur + 8, n);
    ProductIsMultiplication(size, n);
  }

  lemma SectionsAdvance(b: Bytes, cur: nat)
    requires DecSections(false, b, cur).Some?
    ensures var r := DecSections(false, b, cur).value;
            var s := r.value;
            r.cur == cur + 48 + 8 * (|s.announce| + |s.inject| + |s.predeliver| + |s.deliver|)
                     + 36 * |s.agreement| + 32 * |s.routing|
  {
    AsCodedAdvance(b);
    hide DecVec, MessageReader, AgreementReader, RoutingReader;
    VecAdvance(MessageReader(false), b, cur, 8);
    var announce := DecVec(MessageReader(false), b, cur).value;
    VecAdvance(AgreementReader(false), b, announce.cur, 36);
    var agreement := DecVec(AgreementReader(false), b, announce.cur).value;
    VecAdvance(MessageReader(false), b, agreement.cur, 8);
    var inject := DecVec(MessageReader(false), b, agreement.cur).value;
    VecAdvance(RoutingReader(false), b, inject.cur, 32);
    var routing := DecVec(RoutingReader(false), b, inject.cur).value;
    VecAdvance(MessageReader(false), b, routing.cur, 8);
    var predeliver := DecVec(MessageReader(false), b, routing.cur).value;
    VecAdvance(MessageReader(false), b, predeliver.cur, 8);
  }

  lemma NoSectionsRead(b: Bytes, cur: nat)
    requires HoldsAt(b, cur, EncSections(NO_SECTIONS))
    ensures DecSections(false, b, cur) == Some(Read(NO_SECTIONS, cur + |EncSections(NO_SECTIONS)|))
  {
    var zero := EncNumber(0, 8);
    NothingEncoded();
    hide EncSections, EncNumber, HoldsAt, DecVec, MessageReader, AgreementReader, RoutingReader;
    HoldsInParts(b, cur, zero + zero + zero + zero + zero, zero);
    HoldsInParts(b, cur, zero + zero + zero + zero, zero);
    HoldsInParts(b, cur, zero + zero + zero, zero);
    HoldsInParts(b, cur, zero + zero, zero);
    HoldsInParts(b, cur, zero, zero);
    EmptyVecRead(MessageReader(false), b, cur);
    EmptyVecRead(AgreementReader(false), b, cur + 8);
    EmptyVecRead(MessageReader(false), b, cur + 16);
    EmptyVecRead(RoutingReader(false), b, cur + 24);
    EmptyVecRead(MessageReader(false), b, cur + 32);
    EmptyVecRead(MessageReader(false), b, cur + 40);
  }

  lemma NothingEncoded()
    ensures var zero := EncNumber(0, 8);
            EncSections(NO_SECTIONS) == zero + zero + zero + zero + zero + zero
  {
    hide EncNumber, EncMessage, EncAgreement, EncRouting;
  }

  lemma EmptyVecRead<T(!new)>(dec: Decoder<T>, b: Bytes, cur: nat)
    requires HoldsAt(b, cur, EncNumber(0, 8))
    ensures DecVec(dec, b, cur) == Some(Read([], cur + 8))
  {
    hide DecNumber, EncNumber, HoldsAt;
    NumberRoundTripIff(b, cur, 0);
  }

  /** As coded, the sections of a packet are read back, with the cursor exactly behind them, iff
      all six are empty. */
  lemma SectionsAsCodedIff(b: Bytes, cur: nat, s: Sections)
    requires HoldsAt(b, cur, EncSections(s))
    ensures DecSections(false, b, cur) == Some(Read(s, cur + |EncSections(s)|)) <==> s == NO_SECTIONS
  {
    hide EncSections, DecSections, HoldsAt;
    if DecSections(false, b, cur) == Some(Read(s, cur + |EncSections(s)|)) {
      SectionsAdvance(b, cur);
      SectionsLength(s);
    }
    if s == NO_SECTIONS {
      NoSectionsRead(b, cur);
    }
  }

  /** As coded, a message whose source pseudonym begins with eight zero bytes is read as a dummy. */
  lemma ReadAsDummy(b: Bytes, cur: nat, m: MessageTuple)
    requires HoldsAt(b, cur, EncMessage(m)) && m.nSrc[..8] == EncNumber(0, 8)
    ensures DecMessage(false, b, cur).Some? && DecMessage(false, b, cur).value.value.IsDummy()
  {
    hide EncNumber, DecU64, HoldsAt, DecMessage;
    MessageAsCodedIff(b, cur, m);
    var zeros := EncNumber(0, 8);
    var rest := m.nSrc[8..] + m.m + m.nDst + EncNumber(m.tDst, 8);
    assert EncMessage(m) == zeros + rest;
    HoldsInParts(b, cur, zeros, rest);
    U64Read(b, cur, 0);
    TimeAtCursor(b, cur);
  }

  lemma TimeAtCursor(b: Bytes, cur: nat)
    requires DecMessage(false, b, cur).Some?
    ensures DecU64(b, cur).Some? && DecMessage(false, b, cur).value.value.tDst == DecU64(b, cur).value.value
  {
    hide DecU64;
  }

  /** A concrete message that is lost in this way. */
  lemma MessageLost(b: Bytes, cur: nat)
    requires HoldsAt(b, cur, EncMessage(MessageTuple(ZERO_PSEUDONYM, ZERO_MESSAGE, ZERO_PSEUDONYM, 5)))
    ensures DecMessage(false, b, cur).Some? && DecMessage(false, b, cur).value.value.IsDummy()
  {
    hide *;
    ZeroPseudonymPrefix();
    ReadAsDummy(b, cur, MessageTuple(ZERO_PSEUDONYM, ZERO_MESSAGE, ZERO_PSEUDONYM, 5));
  }

  lemma ZeroPseudonymPrefix()
    ensures ZERO_PSEUDONYM[..8] == EncNumber(0, 8)
  {
    EightZeros();
    ZerosPlus(8, 56);
  }

  lemma EightZeros()
    ensures EncNumber(0, 8) == Zeros(8)
  {
    assert EncNumber(0, 4) == Zeros(4);
  }

  lemma {:induction false} ZerosPlus(a: nat, b: nat)
    ensures Zeros(a + b) == Zeros(a) + Zeros(b)
  {
    if b > 0 { ZerosPlus(a, b - 1); }
  }

  // ---------------------------------------------------------------- the loops

  /** Writes an overlay message; the table goes in the order of its keys. */
  method SerializeOverlay(w: WorkingVec, m: OverlayMessage)
    modifies w
    ensures w.bytes == old(w.bytes) + EncOverlay(m)
  {
    hide EncNumber, EncPeer, EncVec, EncRow, Rows, EncItems;
    w.PushNumber(m.t, 1);
    w.PushNumber(m.onid, 8);
    w.bytes := w.bytes + EncPeer(m.peer);
    SerializeTable(w, m.gammaRoute);
    w.PushVec(EncPeer, m.gammaReceive);
  }

  method SerializeTable(w: WorkingVec, m: Table)
    modifies w
    ensures w.bytes == old(w.bytes) + EncTable(m)
  {
    hide EncNumber, EncPeer, EncVec, Rows, EncItems, EncTable;
    w.PushNumber(|m|, 8);
    ghost var start := w.bytes;
    ghost var rows := Rows(m);
    var keys := KeysInOrder(m);
    RowsStart(rows);
    for k := 0 to |keys|
      invariant w.bytes == start + EncItems(EncRow, rows[..k])
    {
      w.PushNumber(keys[k], 8);
      w.PushVec(EncPeer, m[keys[k]]);
      RowsStep(rows, k);
    }
    assert rows[..|keys|] == rows;
    VecParts(m);
  }

  method KeysInOrder(m: Table) returns (keys: seq<U64>)
    ensures |keys| == |m|
    ensures forall k :: 0 <= k < |keys| ==> keys[k] in m && Rows(m)[k] == Row(keys[k], m[keys[k]])
  {
    SortedKeysMembers(m.Keys);
    OnidOrder();
    keys := Ascending(m.Keys, OnidLess);
    assert forall x :: x in keys <==> x in Elements(keys);
    assert forall x :: x in SortedKeys(m.Keys) <==> x in Elements(SortedKeys(m.Keys));
    AscendingUnique(OnidLess, keys, SortedKeys(m.Keys));
    assert keys == SortedKeys(m.Keys);
    hide SortedKeys;
    assert forall k :: 0 <= k < |keys| ==> keys[k] in Elements(keys);
  }

  lemma VecParts(m: Table)
    ensures EncTable(m) == EncNumber(|m|, 8) + EncItems(EncRow, Rows(m))
  {
  }

  lemma RowsStart(rows: seq<Row>)
    ensures EncItems(EncRow, rows[..0]) == []
  {
  }

  lemma RowsStep(rows: seq<Row>, k: nat)
    requires k < |rows|
    ensures EncItems(EncRow, rows[..k + 1])
         == EncItems(EncRow, rows[..k]) + EncNumber(rows[k].onid, 8) + EncVec(EncPeer, rows[k].peers)
  {
    hide EncNumber, EncVec;
    assert rows[..k + 1][..k] == rows[..k];
  }

  /** Reads a table and assigns its rows one after another. */
  method DeserializeTable(c: Cursor) returns (ok: bool, m: Table)
    modifies c
    ensures ok <==> DecTable(c.data, old(c.cur)).Some?
    ensures ok ==> DecTable(c.data, old(c.cur)) == Some(Read(m, c.cur))
  {
    hide DecNumber, DecRow, DecPeer;
    m := map[];
    var size;
    ok, size := c.ReadNumber(8);
    if !ok {
      return;
    }
    ghost var start := c.cur;
    ghost var rows: seq<Row> := [];
    for i := 0 to size
      invariant DecItems(DecRow, i, c.data, start) == Some(Read(rows, c.cur))
      invariant m == FromRows(rows)
    {
      match DecRow(c.data, c.cur)
      case None =>
        ItemsFail(DecRow, i + 1, size, c.data, start);
        return false, m;
      case Some(row) =>
        assert (rows + [row.value])[..|rows|] == rows;
        rows := rows + [row.value];
        m := m[row.value.onid := row.value.peers];
        c.cur := row.cur;
    }
  }

  method SerializeAad(w: WorkingVec, a: Aad)
    modifies w
    ensures w.bytes == old(w.bytes) + EncAad(a)
  {
    hide EncNumber, EncPeer, EncOverlay, EncItems;
    w.bytes := w.bytes + EncPeer(a.sender);
    w.bytes := w.bytes + EncPeer(a.receiver);
    w.PushNumber(a.round, 8);
    w.PushNumber(|a.structure|, 8);
    SerializeStructure(w, a.structure);
  }

  method SerializeStructure(w: WorkingVec, structure: seq<OverlayMessage>)
    modifies w
    ensures w.bytes == old(w.bytes) + EncItems(EncOverlay, structure)
  {
    hide EncOverlay;
    assert EncItems(EncOverlay, structure[..0]) == [];
    for k := 0 to |structure|
      invariant w.bytes == old(w.bytes) + EncItems(EncOverlay, structure[..k])
    {
      assert structure[..k + 1][..k] == structure[..k];
      SerializeOverlay(w, structure[k]);
    }
    assert structure[..|structure|] == structure;
  }

  method SerializeSections(w: WorkingVec, s: Sections)
    modifies w
    ensures w.bytes == old(w.bytes) + EncSections(s)
  {
    hide EncVec;
    w.PushVec(EncMessage, s.announce);
    w.PushVec(EncAgreement, s.agreement);
    w.PushVec(EncMessage, s.inject);
    w.PushVec(EncRouting, s.routing);
    w.PushVec(EncMessage, s.predeliver);
    w.PushVec(EncMessage, s.deliver);
  }

  /** Reads the six sections one after another with the readers as coded (`moves` = false) or put
      right. */
  method DeserializeSections(c: Cursor, moves: bool) returns (ok: bool, s: Sections)
    modifies c
    ensures ok <==> DecSections(moves, c.data, old(c.cur)).Some?
    ensures ok ==> DecSections(moves, c.data, old(c.cur)) == Some(Read(s, c.cur))
  {
    hide DecVec, MessageReader, AgreementReader, RoutingReader;
    s := NO_SECTIONS;
    var announce, agreement, inject, routing, predeliver, deliver;
    ok, announce := c.ReadVec(MessageReader(moves));
    if !ok { return; }
    ok, agreement := c.ReadVec(AgreementReader(moves));
    if !ok { return; }
    ok, inject := c.ReadVec(MessageReader(moves));
    if !ok { return; }
    ok, routing := c.ReadVec(RoutingReader(moves));
    if !ok { return; }
    ok, predeliver := c.ReadVec(MessageReader(moves));
    if !ok { return; }
    ok, deliver := c.ReadVec(MessageReader(moves));
    if !ok { return; }
    s := Sections(announce, agreement, inject, routing, predeliver, deliver);
  }

  // ---------------------------------------------------------------- other records

  function EncDecrypted(p: DecryptedPseudonym): Bytes {
    EncNumber(p.onidRepr, 8) + EncPeer(p.peer) + EncNumber(p.localNum, 1)
  }

  function DecDecrypted(b: Bytes, cur: nat): Option<Read<DecryptedPseudonym>> {
    match DecU64(b, cur) case None => None case Some(onidRepr) =>
    match DecPeer(b, onidRepr.cur) case None => None case Some(peer) =>
    match DecByte(b, peer.cur) case None => None case Some(localNum) =>
    Some(Read(DecryptedPseudonym(onidRepr.value, peer.value, localNum.value), localNum.cur))
  }

  /** A decrypted pseudonym takes 29 bytes and is read back iff its numbers are faithful. */
  lemma DecryptedRoundTrip(b: Bytes, cur: nat, p: DecryptedPseudonym)
    requires HoldsAt(b, cur, EncDecrypted(p))
    ensures |EncDecrypted(p)| == 29 && DecDecrypted(b, cur).Some? && DecDecrypted(b, cur).value.cur == cur + 29
    ensures DecDecrypted(b, cur).value.value == p <==> Faithful(p.onidRepr) && FaithfulPeer(p.peer)
  {
    PeerReads(b, p.peer);
    PeerLength(p.peer);
    hide EncNumber, EncPeer, DecPeer, HoldsAt, Reread, DecU64, DecByte, PeerImage, Faithful, FaithfulPeer;
    HoldsInParts(b, cur, EncNumber(p.onidRepr, 8) + EncPeer(p.peer), EncNumber(p.localNum, 1));
    HoldsInParts(b, cur, EncNumber(p.onidRepr, 8), EncPeer(p.peer));
    U64Read(b, cur, p.onidRepr);
    ByteRead(b, cur + 28, p.localNum);
    PeerImageIff(p.peer);
  }

  /** A recipient and the frame for it. */
  datatype Parcel = Parcel(receiver: Peer, payload: Bytes)

  function EncByte(v: Byte): Bytes { EncNumber(v, 1) }

  function EncParcel(p: Parcel): Bytes {
    EncPeer(p.receiver) + (EncNumber(|p.payload|, 8) + p.payload)
  }

  function DecParcel(b: Bytes, cur: nat): Option<Read<Parcel>> {
    match DecPeer(b, cur) case None => None case Some(receiver) =>
    match DecVec(DecByte, b, receiver.cur) case None => None case Some(payload) =>
    Some(Read(Parcel(receiver.value, payload.value), payload.cur))
  }

  function ParcelImage(p: Parcel): Parcel { p.(receiver := PeerImage(p.receiver)) }

  lemma {:induction false} BytesOneByOne(bytes: Bytes)
    ensures EncItems(EncByte, bytes) == bytes
  {
    if bytes != [] {
      var n := |bytes| - 1;
      BytesOneByOne(bytes[..n]);
      assert bytes == bytes[..n] + [bytes[n]];
      assert EncByte(bytes[n]) == [bytes[n]];
    }
  }

  lemma BytesRead(b: Bytes, cur: nat, bytes: Bytes)
    requires Short(bytes) && HoldsAt(b, cur, EncVec(EncByte, bytes))
    ensures DecVec(DecByte, b, cur) == Some(Read(bytes, cur + |EncVec(EncByte, bytes)|))
  {
    hide EncVec, DecVec, HoldsAt, DecByte, EncNumber;
    forall v | v in bytes ensures Reads(EncByte, DecByte, b, v, Same(v)) {
      forall at: nat | HoldsAt(b, at, EncByte(v)) ensures DecByte(b, at) == Some(Read(v, at + |EncByte(v)|)) {
        ByteRead(b, at, v);
      }
    }
    VecRead(EncByte, DecByte, Same, bytes, b, cur);
    assert Map(Same, bytes) == bytes;
  }

  function Same(v: Byte): Byte { v }

  lemma ParcelRead(b: Bytes, cur: nat, p: Parcel)
    requires Short(p.payload) && HoldsAt(b, cur, EncParcel(p))
    ensures DecParcel(b, cur) == Some(Read(ParcelImage(p), cur + |EncParcel(p)|))
  {
    PayloadAsVec(p.payload);
    PeerReads(b, p.receiver);
    hide EncPeer, DecPeer, EncVec, DecVec, HoldsAt, PeerImage, EncNumber, Short;
    HoldsInParts(b, cur, EncPeer(p.receiver), EncVec(EncByte, p.payload));
    BytesRead(b, cur + |EncPeer(p.receiver)|, p.payload);
  }

  lemma PayloadAsVec(payload: Bytes)
    ensures EncVec(EncByte, payload) == EncNumber(|payload|, 8) + payload
  {
    BytesOneByOne(payload);
    hide EncNumber;
  }

  lemma ParcelReads(b: Bytes, p: Parcel)
    requires Short(p.payload)
    ensures Reads(EncParcel, DecParcel, b, p, ParcelImage(p))
  {
    hide EncParcel, DecParcel, HoldsAt, ParcelImage;
    forall cur: nat | HoldsAt(b, cur, EncParcel(p))
      ensures DecParcel(b, cur) == Some(Read(ParcelImage(p), cur + |EncParcel(p)|))
    {
      ParcelRead(b, cur, p);
    }
  }

  /** The output of a round - recipients and frames - is read back, each frame unchanged. */
  lemma ParcelsRead(b: Bytes, cur: nat, parcels: seq<Parcel>)
    requires Short(parcels) && HoldsAt(b, cur, EncVec(EncParcel, parcels))
    requires forall i :: 0 <= i < |parcels| ==> Short(parcels[i].payload)
    ensures DecVec(DecParcel, b, cur) == Some(Read(Map(ParcelImage, parcels), cur + |EncVec(EncParcel, parcels)|))
  {
    hide EncVec, DecVec, Reads, HoldsAt;
    forall p | p in parcels ensures Reads(EncParcel, DecParcel, b, p, ParcelImage(p)) { ParcelReads(b, p); }
    VecRead(EncParcel, DecParcel, ParcelImage, parcels, b, cur);
  }
}

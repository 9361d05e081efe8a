/** Where every field of what is sent stands: the bytes of each record, vector, packet, frame and message by
    their offsets. */
module ByteLayout {
  import opened Bits
  import opened Ordering
  import opened Serialization
  import opened Structures
  import opened WireFormat
  import F = CryptFrame
  import M = InitMessage

  /** Number, four address bytes, port. */
  lemma PeerLayout(p: Peer)
    ensures var b := EncPeer(p);
            && |b| == 20 && b[..8] == EncNumber(p.id, 8)
            && b[8..12] == [p.uri.ip1, p.uri.ip2, p.uri.ip3, p.uri.ip4]
            && b[12..] == EncNumber(p.uri.port, 8)
  {
    OneByte(p.uri.ip1);
    OneByte(p.uri.ip2);
    OneByte(p.uri.ip3);
    OneByte(p.uri.ip4);
    hide EncNumber;
  }

  lemma OneByte(v: Byte)
    ensures EncNumber(v, 1) == [v]
  {
    assert EncNumber(v / 0x100, 0) == [];
  }

  /** Source, message, destination, delivery time. */
  lemma MessageLayout(m: MessageTuple)
    ensures var b := EncMessage(m);
            && |b| == 264 && b[..64] == m.nSrc && b[64..192] == m.m && b[192..256] == m.nDst
            && b[256..] == EncNumber(m.tDst, 8)
  {
    hide EncNumber;
  }

  /** Message, node, counter. */
  lemma AgreementLayout(a: AgreementTuple)
    ensures var b := EncAgreement(a);
            |b| == 292 && b[..264] == EncMessage(a.m) && b[264..284] == EncPeer(a.s) && b[284..] == EncNumber(a.l, 8)
  {
    MessageLayout(a.m);
    PeerLayout(a.s);
    hide EncNumber, EncMessage, EncPeer;
  }

  /** Message, destination onid, bucket, address round, current onid. */
  lemma RoutingLayout(r: RoutingTuple)
    ensures var b := EncRouting(r);
            && |b| == 352 && b[..264] == EncMessage(r.m) && b[264..272] == EncNumber(r.onidDst, 8)
            && b[272..336] == r.bucketDst && b[336..344] == EncNumber(r.lDst, 8)
            && b[344..] == EncNumber(r.onidCurrent, 8)
  {
    MessageLayout(r.m);
    hide EncNumber, EncMessage;
  }

  /** Onid, peer, number of the pseudonym. */
  lemma PseudonymLayout(p: DecryptedPseudonym)
    ensures var b := EncDecrypted(p);
            |b| == 29 && b[..8] == EncNumber(p.onidRepr, 8) && b[8..28] == EncPeer(p.peer) && b[28] == p.localNum
  {
    PeerLayout(p.peer);
    OneByte(p.localNum);
    hide EncNumber, EncPeer;
  }

  /** The number of items, then the items: with items of one length, the k-th stands at 8 + k * size. */
  lemma VecLayout<T(!new)>(enc: T -> Bytes, items: seq<T>, size: nat, k: nat)
    requires (forall x :: |enc(x)| == size) && k < |items|
    ensures EncVec(enc, items)[..8] == EncNumber(|items|, 8)
    ensures HoldsAt(EncVec(enc, items), 8 + k * size, enc(items[k]))
  {
    hide *;
    ItemAt(enc, items, size, k);
    ProductIsMultiplication(k, size);
    BehindCount(enc, items, k * size, enc(items[k]));
  }

  lemma BehindCount<T>(enc: T -> Bytes, items: seq<T>, cur: nat, chunk: Bytes)
    requires HoldsAt(EncItems(enc, items), cur, chunk)
    ensures EncVec(enc, items)[..8] == EncNumber(|items|, 8)
    ensures HoldsAt(EncVec(enc, items), 8 + cur, chunk)
  {
    hide EncNumber, EncItems;
    HoldsBehind(EncNumber(|items|, 8), EncItems(enc, items), cur, chunk);
  }

  lemma HoldsBehind(front: Bytes, b: Bytes, cur: nat, chunk: Bytes)
    requires HoldsAt(b, cur, chunk)
    ensures HoldsAt(front + b, |front| + cur, chunk)
  {
    assert (front + b)[|front| + cur..|front| + cur + |chunk|] == b[cur..cur + |chunk|];
  }

  lemma {:induction false} ItemAt<T(!new)>(enc: T -> Bytes, items: seq<T>, size: nat, k: nat)
    requires (forall x :: |enc(x)| == size) && k < |items|
    ensures HoldsAt(EncItems(enc, items), Product(k, size), enc(items[k]))
  {
    hide Product;
    var n := |items| - 1;
    var front, last := EncItems(enc, items[..n]), enc(items[n]);
    if k < n {
      ItemAt(enc, items[..n], size, k);
      HoldsBefore(front, last, Product(k, size), enc(items[k]));
    } else {
      ItemsLength(enc, items[..n], size);
      assert (front + last)[|front|..|front| + |last|] == last;
    }
  }

  /** Type, onid, peer, then the table - its rows by ascending onid - and the list. */
  lemma OverlayLayout(m: OverlayMessage)
    ensures var b := EncOverlay(m);
            && |b| >= 29 && b[0] == m.t && b[1..9] == EncNumber(m.onid, 8) && b[9..29] == EncPeer(m.peer)
            && b[29..] == EncVec(EncRow, Rows(m.gammaRoute)) + EncVec(EncPeer, m.gammaReceive)
  {
    OneByte(m.t);
    PeerLayout(m.peer);
    hide EncNumber, EncPeer, EncVec;
  }

  lemma RowLayout(r: Row)
    ensures EncRow(r)[..8] == EncNumber(r.onid, 8) && EncRow(r)[8..] == EncVec(EncPeer, r.peers)
  {
    hide EncNumber, EncVec;
  }

  /** The rows of a table: one for each onid, in ascending order, with its list. */
  lemma RowsOf(m: Table)
    ensures |Rows(m)| == |m|
    ensures forall i :: 0 <= i < |Rows(m)| ==> Rows(m)[i].onid in m && Rows(m)[i].peers == m[Rows(m)[i].onid]
    ensures forall i, j :: 0 <= i < j < |Rows(m)| ==> Rows(m)[i].onid < Rows(m)[j].onid
    ensures forall o :: o in m ==> exists i :: 0 <= i < |Rows(m)| && Rows(m)[i].onid == o
  {
    SortedKeysMembers(m.Keys);
    hide SortedKeys;
    var keys := SortedKeys(m.Keys);
    forall i | 0 <= i < |keys| ensures keys[i] in m { assert keys[i] in Elements(keys); }
    forall o | o in m ensures exists i :: 0 <= i < |Rows(m)| && Rows(m)[i].onid == o {
      assert o in Elements(keys);
      var i :| 0 <= i < |keys| && keys[i] == o;
      assert Rows(m)[i].onid == o;
    }
  }

  /** The receiver, the length of the frame, the frame. */
  lemma ParcelLayout(p: Parcel)
    ensures var b := EncParcel(p);
            && |b| >= 28 && b[..20] == EncPeer(p.receiver)
            && b[20..28] == EncNumber(|p.payload|, 8) && b[28..] == p.payload
  {
    PeerLayout(p.receiver);
    hide EncNumber, EncPeer;
  }

  // ---------------------------------------------------------------- numbers

  /** Byte i of a number of `size` bytes: the most significant comes first. */
  lemma {:induction false} NumberBytes(v: nat, size: nat, i: nat)
    requires i < size
    ensures EncNumber(v, size)[i] == v / Pow2(8 * (size - 1 - i)) % 0x100
  {
    if i == size - 1 {
      assert Pow2(0) == 1;
    } else {
      NumberBytes(v / 0x100, size - 1, i);
      ShiftOneMore(v, size - 2 - i);
      assert EncNumber(v, size)[i] == EncNumber(v / 0x100, size - 1)[i];
    }
  }

  lemma ShiftOneMore(v: nat, k: nat)
    ensures v / 0x100 / Pow2(8 * k) == v / Pow2(8 * (k + 1))
  {
    Pow2Of32();
    Pow2Plus(8, 8 * k);
    DivDiv(v, 0x100, Pow2(8 * k));
  }

  /** Byte i of a word in memory: the least significant comes first. */
  lemma {:induction false} WordBytes(v: nat, size: nat, i: nat)
    requires i < size
    ensures M.PutWord(v, size)[i] == v / Pow2(8 * i) % 0x100
  {
    if i == 0 {
      assert Pow2(0) == 1;
    } else {
      WordBytes(v / 0x100, size - 1, i - 1);
      ShiftOneMore(v, i - 1);
      assert M.PutWord(v, size)[i] == M.PutWord(v / 0x100, size - 1)[i - 1];
    }
  }

  // ---------------------------------------------------------------- packets

  /** Sender, receiver, round, overlay messages. */
  lemma AdditionalDataLayout(p: Packet)
    ensures var b := EncAad(F.AadOf(p));
            && |b| >= 48 && b[..20] == EncPeer(p.sender) && b[20..40] == EncPeer(p.receiver)
            && b[40..48] == EncNumber(p.round, 8) && b[48..] == EncVec(EncOverlay, p.structure)
  {
    PeerLayout(p.sender);
    PeerLayout(p.receiver);
    hide EncNumber, EncPeer, EncVec;
  }

  /** The six sections in their order, each where the one before ends. */
  lemma SectionsLayout(p: Packet)
    ensures var b := EncSections(F.SectionsOf(p));
            var agreement := 8 + |p.announce| * 264;
            var inject := agreement + 8 + |p.agreement| * 292;
            var routing := inject + 8 + |p.inject| * 264;
            var predeliver := routing + 8 + |p.routing| * 352;
            var deliver := predeliver + 8 + |p.predeliver| * 264;
            && |b| == deliver + 8 + |p.deliver| * 264
            && b[..agreement] == EncVec(EncMessage, p.announce)
            && b[agreement..inject] == EncVec(EncAgreement, p.agreement)
            && b[inject..routing] == EncVec(EncMessage, p.inject)
            && b[routing..predeliver] == EncVec(EncRouting, p.routing)
            && b[predeliver..deliver] == EncVec(EncMessage, p.predeliver)
            && b[deliver..] == EncVec(EncMessage, p.deliver)
  {
    MessagesLength(p.announce);
    MessagesLength(p.inject);
    MessagesLength(p.predeliver);
    MessagesLength(p.deliver);
    AgreementsLength(p.agreement);
    RoutingsLength(p.routing);
    hide EncVec;
  }

  lemma AgreementsLength(ags: seq<AgreementTuple>)
    ensures |EncVec(EncAgreement, ags)| == 8 + |ags| * 292
  {
    forall a ensures |EncAgreement(a)| == 292 { AgreementLayout(a); }
    ItemsLength(EncAgreement, ags, 292);
    ProductIsMultiplication(|ags|, 292);
    hide EncNumber, EncItems, EncAgreement, Product;
  }

  /** The frame of a packet: the two lengths, the initialisation vector, the additional data in the
      clear, then the mac and the ciphertext of the sections under all that comes before. */
  lemma FrameLayout(c: F.Cipher, iv: Bytes, p: Packet)
    requires |iv| == 12
    requires |EncSections(F.SectionsOf(p))| < TWO_32 && |EncAad(F.AadOf(p))| < TWO_32
    ensures var f, plain, aad := F.EncPacket(c, iv, p), EncSections(F.SectionsOf(p)), EncAad(F.AadOf(p));
            && |f| >= 20 + |aad| && f[..4] == EncNumber(|plain|, 4) && f[4..8] == EncNumber(|aad|, 4)
            && f[8..20] == iv && f[20..20 + |aad|] == aad
            && var s := c.seal(iv, f[..20 + |aad|], plain); f[20 + |aad|..] == s.mac + s.ct
  {
    hide *;
    var plain, aad := EncSections(F.SectionsOf(p)), EncAad(F.AadOf(p));
    PacketIsFrame(c, iv, p);
    HeaderIs(iv, plain, aad);
    FrameIs(c, iv, plain, aad, F.Header(iv, plain, aad));
    var s := c.seal(iv, F.Header(iv, plain, aad), plain);
    HeaderParts(EncNumber(|plain|, 4), EncNumber(|aad|, 4), iv, aad, s.mac + s.ct);
  }

  lemma PacketIsFrame(c: F.Cipher, iv: Bytes, p: Packet)
    requires |iv| == 12
    ensures F.EncPacket(c, iv, p) == F.Frame(c, iv, EncSections(F.SectionsOf(p)), EncAad(F.AadOf(p)))
  {
    hide F.Frame, EncSections, EncAad, F.SectionsOf, F.AadOf;
  }

  lemma HeaderIs(iv: Bytes, plain: Bytes, aad: Bytes)
    requires |iv| == 12 && |plain| < TWO_32 && |aad| < TWO_32
    ensures F.Header(iv, plain, aad) == EncNumber(|plain|, 4) + EncNumber(|aad|, 4) + iv + aad
    ensures |F.Header(iv, plain, aad)| == 20 + |aad|
  {
    hide EncNumber;
  }

  lemma FrameIs(c: F.Cipher, iv: Bytes, plain: Bytes, aad: Bytes, header: Bytes)
    requires |iv| == 12 && |plain| < TWO_32 && |aad| < TWO_32
    requires header == F.Header(iv, plain, aad) && |header| == 20 + |aad|
    ensures F.Frame(c, iv, plain, aad) == header + (c.seal(iv, header, plain).mac + c.seal(iv, header, plain).ct)
  {
    hide F.Header;
    Whole(plain, |plain| % TWO_32);
    Whole(header, 20 + |aad| % TWO_32);
    Associate(header, c.seal(iv, header, plain).mac, c.seal(iv, header, plain).ct);
  }

  lemma Associate(a: Bytes, b: Bytes, c: Bytes)
    ensures a + b + c == a + (b + c)
  {
  }

  lemma Whole(b: Bytes, n: nat)
    requires n == |b|
    ensures b[..n] == b
  {
  }

  lemma HeaderParts(lct: Bytes, laad: Bytes, iv: Bytes, aad: Bytes, rest: Bytes)
    requires |lct| == |laad| == 4 && |iv| == 12
    ensures var header := lct + laad + iv + aad;
            var f := header + rest;
            && f[..4] == lct && f[4..8] == laad && f[8..20] == iv && f[20..20 + |aad|] == aad
            && f[..20 + |aad|] == header && f[20 + |aad|..] == rest
  {
  }

  /** The bytes of a pseudonym: the two lengths, 29 and 0, the initialisation vector, the mac, and all of
      the encrypted record but its last byte. */
  lemma PseudonymBytes(c: F.Cipher, iv: Bytes, p: DecryptedPseudonym)
    requires c.Lawful() && |iv| == 12
    ensures var b := F.CutFrame(c, iv, p);
            && |b| == 64 && b[..4] == EncNumber(29, 4) && b[4..8] == EncNumber(0, 4) && b[8..20] == iv
            && var s := c.seal(iv, b[..20], EncDecrypted(p));
               |s.ct| == 29 && b[20..36] == s.mac && b[36..] == s.ct[..28]
  {
    F.PseudonymIsCut(c, iv, p);
    PseudonymLayout(p);
    hide EncDecrypted, EncNumber, F.Frame, F.Unframe;
    HeaderIs(iv, EncDecrypted(p), []);
    var header := F.Header(iv, EncDecrypted(p), []);
    FrameIs(c, iv, EncDecrypted(p), [], header);
    var s := c.seal(iv, header, EncDecrypted(p));
    HeaderParts(EncNumber(29, 4), EncNumber(0, 4), iv, [], s.mac + s.ct);
    assert EncNumber(29, 4) + EncNumber(0, 4) + iv + [] == header;
    CutParts(header, s.mac, s.ct);
  }

  lemma CutParts(header: Bytes, mac: Bytes, ct: Bytes)
    requires |header| == 20 && |mac| == 16 && |ct| == 29
    ensures var b := (header + (mac + ct))[..64];
            b[..20] == header && b[20..36] == mac && b[36..] == ct[..28]
            && b[..4] == header[..4] && b[4..8] == header[4..8] && b[8..20] == header[8..]
  {
    var b := (header + (mac + ct))[..64];
    assert b == header + mac + ct[..28];
    assert b[..20] == header;
    assert b[..4] == b[..20][..4] && b[4..8] == b[..20][4..8] && b[8..20] == b[..20][8..];
  }

  // ---------------------------------------------------------------- the server's message

  /** Nine words, three keys, two vectors, the rows of the table. */
  lemma InitLayout(l: M.Layout, m: M.InitMessage)
    requires l.Lawful()
    ensures var b, receive := M.Image(l, m), 120 + |m.gammaSend| * l.size;
            var route := receive + |m.gammaReceive| * l.size;
            && |b| >= route && HasWords(b, m)
            && b[72..88] == m.skPseud && b[88..104] == m.skEnc && b[104..120] == m.skRouting
            && b[120..receive] == M.PutPeers(l, m.gammaSend)
            && b[receive..route] == M.PutPeers(l, m.gammaReceive)
            && b[route..] == EncItems(M.PutRow(l), Rows(m.gammaRoute))
  {
    PeersSize(l, m.gammaSend);
    PeersSize(l, m.gammaReceive);
    HeaderLayout(l, m);
    hide M.Header, M.PutPeers, EncItems, Rows, HasWords;
    var rows := EncItems(M.PutRow(l), Rows(m.gammaRoute));
    Parts(M.Header(m), m.skPseud, m.skEnc, m.skRouting, M.PutPeers(l, m.gammaSend), M.PutPeers(l, m.gammaReceive),
          rows);
    assert M.Image(l, m) == M.Header(m) + (m.skPseud + m.skEnc + m.skRouting) + M.PutPeers(l, m.gammaSend)
                            + M.PutPeers(l, m.gammaReceive) + rows;
  }

  lemma Parts(h: Bytes, k1: Bytes, k2: Bytes, k3: Bytes, send: Bytes, receive: Bytes, rows: Bytes)
    requires |h| == 72 && |k1| == |k2| == |k3| == 16
    ensures var b, r := h + (k1 + k2 + k3) + send + receive + rows, 120 + |send|;
            && |b| >= r + |receive| && b[72..88] == k1 && b[88..104] == k2 && b[104..120] == k3
            && b[120..r] == send && b[r..r + |receive|] == receive && b[r + |receive|..] == rows
  {
  }

  /** The nine words of the header: the type, the receiver, the number of nodes, the dimension, the two
      quorums and the three counts. */
  ghost predicate HasWords(b: Bytes, m: M.InitMessage) {
    var words := [1, m.receiverId, m.numTotalNodes, m.overlayDimension, m.onidAssoc, m.onidEmul,
                  |m.gammaSend|, |m.gammaReceive|, |m.gammaRoute|];
    forall k :: 0 <= k < 9 ==> HoldsAt(b, 8 * k, M.PutWord(words[k], 8))
  }

  lemma PeersSize(l: M.Layout, peers: seq<Peer>)
    requires l.Lawful()
    ensures |M.PutPeers(l, peers)| == |peers| * l.size
  {
    M.PeersSize(l, peers);
    ProductIsMultiplication(|peers|, l.size);
  }

  lemma HeaderLayout(l: M.Layout, m: M.InitMessage)
    ensures HasWords(M.Image(l, m), m)
  {
    hide M.PutWord, M.PutPeers, EncItems, Rows, M.PutWords;
    var words := M.Words(m);
    var rest := M.Keys(m) + M.PutPeers(l, m.gammaSend) + M.PutPeers(l, m.gammaReceive)
                + EncItems(M.PutRow(l), Rows(m.gammaRoute));
    assert M.Image(l, m) == M.Header(m) + rest;
    forall k | 0 <= k < 9 ensures HoldsAt(M.Image(l, m), 8 * k, M.PutWord(words[k], 8)) {
      WordAtPlace(words, k);
      HoldsBefore(M.PutWords(words), rest, 8 * k, M.PutWord(words[k], 8));
    }
  }

  lemma HoldsBefore(b: Bytes, back: Bytes, cur: nat, chunk: Bytes)
    requires HoldsAt(b, cur, chunk)
    ensures HoldsAt(b + back, cur, chunk)
  {
    assert (b + back)[cur..cur + |chunk|] == b[cur..cur + |chunk|];
  }

  lemma {:induction false} WordAtPlace(words: seq<nat>, k: nat)
    requires k < |words|
    ensures HoldsAt(M.PutWords(words), 8 * k, M.PutWord(words[k], 8))
  {
    hide M.PutWord;
    var n := |words| - 1;
    if k < n {
      WordAtPlace(words[..n], k);
      assert M.PutWords(words)[8 * k..8 * k + 8] == M.PutWords(words[..n])[8 * k..8 * k + 8];
    }
  }

  /** Onid, number of peers, peers. */
  lemma InitRowLayout(l: M.Layout, r: Row)
    ensures var b := M.PutRow(l)(r);
            |b| >= 16 && b[..8] == M.PutWord(r.onid, 8) && b[8..16] == M.PutWord(|r.peers|, 8)
            && b[16..] == M.PutPeers(l, r.peers)
  {
    hide M.PutWord, M.PutPeers;
  }
}

/** The message with which the server initializes a client: raw memory with a header of nine 64-bit
    words, three keys, two vectors and a map. */
module InitMessage {
  import opened Bits
  import opened Options
  import opened Serialization
  import opened Structures
  import opened WireFormat

  type Key = b: seq<Byte> | |b| == 16 witness Zeros(16)

  const INIT_TYPE := 1

  datatype InitMessage = InitMessage(
    receiverId: U64, numTotalNodes: U64, overlayDimension: U64, onidAssoc: U64, onidEmul: U64,
    gammaSend: seq<Peer>, gammaReceive: seq<Peer>, gammaRoute: Table,
    skPseud: Key, skEnc: Key, skRouting: Key)

  /** How a peer lies in memory: the size of the object, and its members as bytes. */
  datatype Layout = Layout(size: nat, put: Peer -> Bytes, get: Bytes -> Peer) {
    ghost predicate Lawful() {
      size > 0 && forall p :: |put(p)| == size && get(put(p)) == p
    }
  }

  // ---------------------------------------------------------------- words and vectors in memory

  /** A word of `size` bytes, the least significant first. */
  function PutWord(v: nat, size: nat): (b: Bytes)
    ensures |b| == size
  {
    if size == 0 then [] else [v % 0x100] + PutWord(v / 0x100, size - 1)
  }

  function GetWord(b: Bytes): nat {
    if b == [] then 0 else b[0] + 0x100 * GetWord(b[1..])
  }

  lemma {:induction false} WordRoundTrip(v: nat, size: nat)
    requires v < Pow2(8 * size)
    ensures GetWord(PutWord(v, size)) == v
  {
    if size > 0 {
      assert Pow2(8 * size) == 0x100 * Pow2(8 * (size - 1)) by { Pow2Plus(8, 8 * (size - 1)); Pow2Of32(); }
      assert v / 0x100 < Pow2(8 * (size - 1));
      WordRoundTrip(v / 0x100, size - 1);
      assert PutWord(v, size)[1..] == PutWord(v / 0x100, size - 1);
    }
  }

  function ReadWord(b: Bytes, cur: nat): Option<Read<nat>> {
    if cur + 8 > |b| then None else Some(Read(GetWord(b[cur..cur + 8]), cur + 8))
  }

  lemma WordRead(b: Bytes, cur: nat, v: U64)
    requires HoldsAt(b, cur, PutWord(v, 8))
    ensures ReadWord(b, cur) == Some(Read(v, cur + 8))
  {
    Pow2Of64();
    WordRoundTrip(v, 8);
  }

  function PutPeers(l: Layout, peers: seq<Peer>): Bytes { EncItems(l.put, peers) }

  function ReadPeer(l: Layout): Decoder<Peer> {
    (b: Bytes, cur: nat) => if cur + l.size > |b| then None else Some(Read(l.get(b[cur..cur + l.size]), cur + l.size))
  }

  function ReadPeers(l: Layout, n: nat, b: Bytes, cur: nat): Option<Read<seq<Peer>>> {
    DecItems(ReadPeer(l), n, b, cur)
  }

  function ThePeer(p: Peer): Peer { p }

  lemma PeersInMemory(l: Layout, peers: seq<Peer>, b: Bytes, cur: nat)
    requires l.Lawful() && HoldsAt(b, cur, PutPeers(l, peers))
    ensures ReadPeers(l, |peers|, b, cur) == Some(Read(peers, cur + |PutPeers(l, peers)|))
  {
    hide EncItems, DecItems;
    forall p ensures Reads(l.put, ReadPeer(l), b, p, ThePeer(p)) {}
    ItemsRead(l.put, ReadPeer(l), ThePeer, peers, b, cur);
    assert Sequences.Map(ThePeer, peers) == peers;
  }

  lemma PeersSize(l: Layout, peers: seq<Peer>)
    requires l.Lawful()
    ensures |PutPeers(l, peers)| == Product(|peers|, l.size)
  {
    ItemsLength(l.put, peers, l.size);
  }

  // ---------------------------------------------------------------- the message

  function PutRow(l: Layout): Row -> Bytes {
    (r: Row) => PutWord(r.onid, 8) + PutWord(|r.peers|, 8) + PutPeers(l, r.peers)
  }

  /** The nine words of the header. */
  function Words(m: InitMessage): (w: seq<nat>)
    ensures |w| == 9
  {
    [INIT_TYPE, m.receiverId, m.numTotalNodes, m.overlayDimension, m.onidAssoc, m.onidEmul,
     |m.gammaSend|, |m.gammaReceive|, |m.gammaRoute|]
  }

  function PutWords(words: seq<nat>): (b: Bytes)
    ensures |b| == 8 * |words|
  {
    if words == [] then [] else PutWords(words[..|words| - 1]) + PutWord(words[|words| - 1], 8)
  }

  function Header(m: InitMessage): (b: Bytes)
    ensures |b| == 72
  {
    PutWords(Words(m))
  }

  function Keys(m: InitMessage): Bytes { m.skPseud + m.skEnc + m.skRouting }

  /** The message in memory. */
  function Image(l: Layout, m: InitMessage): Bytes {
    Header(m) + Keys(m) + PutPeers(l, m.gammaSend) + PutPeers(l, m.gammaReceive)
    + EncItems(PutRow(l), Rows(m.gammaRoute))
  }

  /** The bytes of the rows without their keys. */
  function RowsSize(l: Layout, rows: seq<Row>): nat {
    if rows == [] then 0
    else RowsSize(l, rows[..|rows| - 1]) + 8 + Product(|rows[|rows| - 1].peers|, l.size)
  }

  /** The number of bytes that are allocated. */
  function SizeOf(l: Layout, m: InitMessage): nat {
    72 + 2 * 16 + 16 + Product(|m.gammaSend|, l.size) + Product(|m.gammaReceive|, l.size)
    + 8 * |m.gammaRoute| + RowsSize(l, Rows(m.gammaRoute))
  }

  lemma {:induction false} RowsLength(l: Layout, rows: seq<Row>)
    requires l.Lawful()
    ensures |EncItems(PutRow(l), rows)| == 8 * |rows| + RowsSize(l, rows)
  {
    hide PutWord;
    if rows != [] {
      RowsLength(l, rows[..|rows| - 1]);
      PeersSize(l, rows[|rows| - 1].peers);
    }
  }

  /** Exactly as many bytes are written as are allocated. */
  lemma ImageFits(l: Layout, m: InitMessage)
    requires l.Lawful()
    ensures |Image(l, m)| == SizeOf(l, m)
  {
    hide PutWord, EncItems, Rows, Product, RowsSize;
    PeersSize(l, m.gammaSend);
    PeersSize(l, m.gammaReceive);
    RowsLength(l, Rows(m.gammaRoute));
  }

  // ---------------------------------------------------------------- parsing

  function ReadRow(l: Layout): Decoder<Row> {
    (b: Bytes, cur: nat) =>
      match ReadWord(b, cur) case None => None case Some(key) =>
      match ReadWord(b, key.cur) case None => None case Some(n) =>
      match ReadPeers(l, n.value, b, n.cur) case None => None case Some(peers) =>
      Some(Read(Row(key.value % TWO_64, peers.value), peers.cur))
  }

  /** A key of 16 bytes. */
  function ReadKey(b: Bytes, cur: nat): Option<Read<Key>> {
    if cur + 16 > |b| then None else Some(Read(b[cur..cur + 16], cur + 16))
  }

  function WordAt(b: Bytes, cur: nat): U64 {
    match ReadWord(b, cur) case None => 0 case Some(w) => w.value % TWO_64
  }

  /** The parsing constructor; None where it would read behind the data. */
  function Parse(l: Layout, b: Bytes): Option<Read<InitMessage>> {
    if |b| < 72 then None
    else
      match ReadKey(b, 72) case None => None case Some(skPseud) =>
      match ReadKey(b, skPseud.cur) case None => None case Some(skEnc) =>
      match ReadKey(b, skEnc.cur) case None => None case Some(skRouting) =>
      match ReadPeers(l, WordAt(b, 48), b, skRouting.cur) case None => None case Some(send) =>
      match ReadPeers(l, WordAt(b, 56), b, send.cur) case None => None case Some(receive) =>
      match DecItems(ReadRow(l), WordAt(b, 64), b, receive.cur) case None => None case Some(rows) =>
      Some(Read(
        InitMessage(WordAt(b, 8), WordAt(b, 16), WordAt(b, 24), WordAt(b, 32), WordAt(b, 40),
                    send.value, receive.value, FromRows(rows.value), skPseud.value, skEnc.value, skRouting.value),
        rows.cur))
  }

  lemma HeaderRead(b: Bytes, m: InitMessage)
    requires HoldsAt(b, 0, Header(m))
    requires |m.gammaSend| < TWO_64 && |m.gammaReceive| < TWO_64 && |m.gammaRoute| < TWO_64
    ensures WordAt(b, 8) == m.receiverId && WordAt(b, 16) == m.numTotalNodes && WordAt(b, 24) == m.overlayDimension
    ensures WordAt(b, 32) == m.onidAssoc && WordAt(b, 40) == m.onidEmul
    ensures WordAt(b, 48) == |m.gammaSend| && WordAt(b, 56) == |m.gammaReceive| && WordAt(b, 64) == |m.gammaRoute|
  {
    hide PutWord, HoldsAt, ReadWord, PutWords;
    WordInWords(b, Words(m), 1);
    WordInWords(b, Words(m), 2);
    WordInWords(b, Words(m), 3);
    WordInWords(b, Words(m), 4);
    WordInWords(b, Words(m), 5);
    WordInWords(b, Words(m), 6);
    WordInWords(b, Words(m), 7);
    WordInWords(b, Words(m), 8);
  }

  lemma {:induction false} WordInWords(b: Bytes, words: seq<nat>, k: nat)
    requires HoldsAt(b, 0, PutWords(words)) && k < |words| && words[k] < TWO_64
    ensures WordAt(b, 8 * k) == words[k]
  {
    var n := |words| - 1;
    HoldsInParts(b, 0, PutWords(words[..n]), PutWord(words[n], 8));
    hide HoldsAt, ReadWord;
    if k < n { WordInWords(b, words[..n], k); } else { WordRead(b, 8 * n, words[n]); }
  }

  lemma RowInMemory(l: Layout, b: Bytes, r: Row)
    requires l.Lawful() && |r.peers| < TWO_64
    ensures Reads(PutRow(l), ReadRow(l), b, r, TheRow(r))
  {
    hide PutWord, HoldsAt, ReadWord, ReadPeers, PutPeers;
    forall cur: nat | HoldsAt(b, cur, PutRow(l)(r))
      ensures ReadRow(l)(b, cur) == Some(Read(TheRow(r), cur + |PutRow(l)(r)|))
    {
      HoldsInParts(b, cur, PutWord(r.onid, 8) + PutWord(|r.peers|, 8), PutPeers(l, r.peers));
      HoldsInParts(b, cur, PutWord(r.onid, 8), PutWord(|r.peers|, 8));
      WordRead(b, cur, r.onid);
      WordRead(b, cur + 8, |r.peers|);
      PeersInMemory(l, r.peers, b, cur + 16);
    }
  }

  function TheRow(r: Row): Row { r }

  lemma RowsInMemory(l: Layout, m: Table, b: Bytes, cur: nat)
    requires l.Lawful() && HoldsAt(b, cur, EncItems(PutRow(l), Rows(m)))
    requires forall o :: o in m ==> |m[o]| < TWO_64
    ensures DecItems(ReadRow(l), |m|, b, cur) == Some(Read(Rows(m), cur + |EncItems(PutRow(l), Rows(m))|))
  {
    hide EncItems, DecItems, Rows, HoldsAt, Reads, PutRow, ReadRow;
    forall r | r in Rows(m) ensures Reads(PutRow(l), ReadRow(l), b, r, TheRow(r)) {
      var i :| 0 <= i < |m| && Rows(m)[i] == r;
      RowOf(m, r.onid);
      RowInMemory(l, b, r);
    }
    ItemsRead(PutRow(l), ReadRow(l), TheRow, Rows(m), b, cur);
    assert Sequences.Map(TheRow, Rows(m)) == Rows(m);
  }

  /** The sizes are within the range of int, as the computation of the size needs it. */
  predicate InRange(l: Layout, m: InitMessage) { SizeOf(l, m) < 0x8000_0000 }

  lemma {:induction false} SmallVector(n: nat, size: nat)
    requires size > 0
    ensures n <= Product(n, size)
  {
    if n > 0 { SmallVector(n - 1, size); }
  }

  lemma {:induction false} SmallRows(l: Layout, rows: seq<Row>, i: nat)
    requires l.Lawful() && i < |rows|
    ensures |rows[i].peers| <= RowsSize(l, rows)
  {
    var n := |rows| - 1;
    if i < n { SmallRows(l, rows[..n], i); } else { SmallVector(|rows[n].peers|, l.size); }
  }

  lemma CountsSmall(l: Layout, m: InitMessage)
    requires l.Lawful() && InRange(l, m)
    ensures |m.gammaSend| < TWO_64 && |m.gammaReceive| < TWO_64 && |m.gammaRoute| < TWO_64
    ensures forall o :: o in m.gammaRoute ==> |m.gammaRoute[o]| < TWO_64
  {
    hide Product, RowsSize, Rows;
    SmallVector(|m.gammaSend|, l.size);
    SmallVector(|m.gammaReceive|, l.size);
    forall o | o in m.gammaRoute ensures |m.gammaRoute[o]| < TWO_64 {
      RowOf(m.gammaRoute, o);
      var i :| 0 <= i < |m.gammaRoute| && Rows(m.gammaRoute)[i] == Row(o, m.gammaRoute[o]);
      SmallRows(l, Rows(m.gammaRoute), i);
    }
  }

  lemma KeyRead(b: Bytes, cur: nat, k: Key)
    requires HoldsAt(b, cur, k)
    ensures ReadKey(b, cur) == Some(Read(k, cur + 16))
  {
  }

  /** Where the parts of a message lie. */
  lemma ImageParts(l: Layout, m: InitMessage, b: Bytes)
    requires HoldsAt(b, 0, Image(l, m))
    ensures HoldsAt(b, 0, Header(m)) && |b| >= 72
    ensures HoldsAt(b, 72, m.skPseud) && HoldsAt(b, 88, m.skEnc) && HoldsAt(b, 104, m.skRouting)
    ensures var send, receive := PutPeers(l, m.gammaSend), PutPeers(l, m.gammaReceive);
            && HoldsAt(b, 120, send) && HoldsAt(b, 120 + |send|, receive)
            && HoldsAt(b, 120 + |send| + |receive|, EncItems(PutRow(l), Rows(m.gammaRoute)))
            && |Image(l, m)| == 120 + |send| + |receive| + |EncItems(PutRow(l), Rows(m.gammaRoute))|
  {
    var e1, e2, e3, e4, e5 :=
      Header(m), Keys(m), PutPeers(l, m.gammaSend), PutPeers(l, m.gammaReceive),
      EncItems(PutRow(l), Rows(m.gammaRoute));
    hide PutPeers, EncItems, Rows, Header, HoldsAt;
    HoldsInParts(b, 0, e1 + e2 + e3 + e4, e5);
    HoldsInParts(b, 0, e1 + e2 + e3, e4);
    HoldsInParts(b, 0, e1 + e2, e3);
    HoldsInParts(b, 0, e1, e2);
    HoldsInParts(b, 72, m.skPseud + m.skEnc, m.skRouting);
    HoldsInParts(b, 72, m.skPseud, m.skEnc);
    EnoughBytes(b, e1);
  }

  /** The parsing constructor reads back the same message and stops at its end. */
  lemma InitRoundTrip(l: Layout, m: InitMessage, b: Bytes)
    requires l.Lawful() && InRange(l, m) && HoldsAt(b, 0, Image(l, m))
    ensures Parse(l, b) == Some(Read(m, |Image(l, m)|))
  {
    hide PutWord, HoldsAt, ReadPeers, PutPeers, EncItems, DecItems, Rows, WordAt, ReadKey, Header, FromRows, InRange,
         Image, Layout.Lawful;
    CountsSmall(l, m);
    FromRowsOfRows(m.gammaRoute);
    ImageParts(l, m, b);
    HeaderRead(b, m);
    KeyRead(b, 72, m.skPseud);
    KeyRead(b, 88, m.skEnc);
    KeyRead(b, 104, m.skRouting);
    PeersInMemory(l, m.gammaSend, b, 120);
    PeersInMemory(l, m.gammaReceive, b, 120 + |PutPeers(l, m.gammaSend)|);
    RowsInMemory(l, m.gammaRoute, b, 120 + |PutPeers(l, m.gammaSend)| + |PutPeers(l, m.gammaReceive)|);
  }

  lemma EnoughBytes(b: Bytes, chunk: Bytes)
    requires HoldsAt(b, 0, chunk)
    ensures |b| >= |chunk|
  {
  }

  // ---------------------------------------------------------------- the loops

  /** Copies bytes to a place in the buffer. */
  method Copy(buffer: array<Byte>, at: nat, bytes: Bytes) returns (next: nat)
    requires at + |bytes| <= buffer.Length
    modifies buffer
    ensures next == at + |bytes|
    ensures buffer[..next] == old(buffer[..at]) + bytes
  {
    for i := 0 to |bytes|
      invariant buffer[..at + i] == old(buffer[..at]) + bytes[..i]
    {
      buffer[at + i] := bytes[i];
    }
    next := at + |bytes|;
    assert bytes[..|bytes|] == bytes;
  }

  /** The computation of the size. */
  method ComputeSize(l: Layout, m: InitMessage) returns (size: nat)
    ensures size == SizeOf(l, m)
  {
    size := 72;
    size := size + 16 * 2;
    size := size + 16;
    size := size + Product(|m.gammaSend|, l.size);
    size := size + Product(|m.gammaReceive|, l.size);
    size := size + 8 * |m.gammaRoute|;
    hide Product, Rows;
    var entries := 0;
    var rows := Rows(m.gammaRoute);
    for k := 0 to |rows|
      invariant entries == RowsSize(l, rows[..k])
    {
      assert rows[..k + 1][..k] == rows[..k];
      entries := entries + 8 + Product(|rows[k].peers|, l.size);
    }
    assert rows[..|rows|] == rows;
    size := size + entries;
  }

  /** Everything in front of the map. */
  function Front(l: Layout, m: InitMessage): Bytes {
    Header(m) + Keys(m) + PutPeers(l, m.gammaSend) + PutPeers(l, m.gammaReceive)
  }

  method CopyFront(l: Layout, m: InitMessage, buffer: array<Byte>) returns (ptr: nat)
    requires |Front(l, m)| <= buffer.Length
    modifies buffer
    ensures ptr == |Front(l, m)| && buffer[..ptr] == Front(l, m)
  {
    hide PutPeers, Header;
    assert buffer[..0] == [];
    ptr := Copy(buffer, 0, Header(m));
    ptr := Copy(buffer, ptr, m.skPseud);
    ptr := Copy(buffer, ptr, m.skEnc);
    ptr := Copy(buffer, ptr, m.skRouting);
    ptr := Copy(buffer, ptr, PutPeers(l, m.gammaSend));
    ptr := Copy(buffer, ptr, PutPeers(l, m.gammaReceive));
  }

  method CopyRow(l: Layout, buffer: array<Byte>, at: nat, r: Row) returns (ptr: nat)
    requires at + |PutRow(l)(r)| <= buffer.Length
    modifies buffer
    ensures ptr == at + |PutRow(l)(r)| && buffer[..ptr] == old(buffer[..at]) + PutRow(l)(r)
  {
    hide PutWord, PutPeers;
    ptr := Copy(buffer, at, PutWord(r.onid, 8));
    ptr := Copy(buffer, ptr, PutWord(|r.peers|, 8));
    ptr := Copy(buffer, ptr, PutPeers(l, r.peers));
  }

  method CopyRows(l: Layout, buffer: array<Byte>, at: nat, rows: seq<Row>) returns (ptr: nat)
    requires at + |EncItems(PutRow(l), rows)| <= buffer.Length
    modifies buffer
    ensures ptr == at + |EncItems(PutRow(l), rows)|
    ensures buffer[..ptr] == old(buffer[..at]) + EncItems(PutRow(l), rows)
  {
    hide PutRow, EncItems;
    ghost var front := buffer[..at];
    ptr := at;
    RowsBegin(l, rows);
    for k := 0 to |rows|
      invariant ptr == at + |EncItems(PutRow(l), rows[..k])| <= buffer.Length
      invariant buffer[..ptr] == front + EncItems(PutRow(l), rows[..k])
    {
      RowFits(l, rows, k);
      ptr := CopyRow(l, buffer, ptr, rows[k]);
    }
    assert rows[..|rows|] == rows;
  }

  /** Allocates the buffer and fills it; no write leaves it and none of it stays unwritten. */
  method Serialize(l: Layout, m: InitMessage) returns (buffer: array<Byte>)
    requires l.Lawful() && InRange(l, m)
    ensures fresh(buffer) && buffer.Length == SizeOf(l, m) && buffer[..] == Image(l, m)
  {
    hide Front, EncItems, Rows, SizeOf, Layout.Lawful, InRange;
    ImageFits(l, m);
    FrontAndRows(l, m);
    var size := ComputeSize(l, m);
    buffer := new Byte[size](_ => 0);
    var ptr := CopyFront(l, m, buffer);
    ptr := CopyRows(l, buffer, ptr, Rows(m.gammaRoute));
    assert buffer[..ptr] == buffer[..];
  }

  lemma FrontAndRows(l: Layout, m: InitMessage)
    ensures Image(l, m) == Front(l, m) + EncItems(PutRow(l), Rows(m.gammaRoute))
  {
  }

  lemma RowsBegin(l: Layout, rows: seq<Row>)
    ensures EncItems(PutRow(l), rows[..0]) == []
  {
  }

  lemma {:induction false} RowFits(l: Layout, rows: seq<Row>, k: nat)
    requires k < |rows|
    ensures EncItems(PutRow(l), rows[..k + 1])
         == EncItems(PutRow(l), rows[..k]) + PutRow(l)(rows[k])
    ensures |EncItems(PutRow(l), rows[..k + 1])| <= |EncItems(PutRow(l), rows)|
    decreases |rows|
  {
    hide PutRow;
    assert rows[..k + 1][..k] == rows[..k];
    if k + 1 < |rows| {
      RowFits(l, rows[..|rows| - 1], k);
      assert rows[..|rows| - 1][..k + 1] == rows[..k + 1];
    } else {
      assert rows[..k + 1] == rows;
    }
  }

  /** The loop of the parsing constructor over the map; `ok` is false where it would read behind
      the data. */
  method ParseRoute(l: Layout, b: Bytes, at: nat, count: nat)
    returns (ok: bool, route: Table, ptr: nat)
    ensures ok <==> DecItems(ReadRow(l), count, b, at).Some?
    ensures ok ==> ptr == DecItems(ReadRow(l), count, b, at).value.cur
    ensures ok ==> route == FromRows(DecItems(ReadRow(l), count, b, at).value.value)
  {
    hide ReadRow;
    route, ptr := map[], at;
    ghost var rows: seq<Row> := [];
    for i := 0 to count
      invariant DecItems(ReadRow(l), i, b, at) == Some(Read(rows, ptr))
      invariant route == FromRows(rows)
    {
      match ReadRow(l)(b, ptr)
      case None =>
        ItemsFail(ReadRow(l), i + 1, count, b, at);
        return false, route, ptr;
      case Some(row) =>
        assert (rows + [row.value])[..|rows|] == rows;
        rows := rows + [row.value];
        route, ptr := route[row.value.onid := row.value.peers], row.cur;
    }
    ok := true;
  }
}

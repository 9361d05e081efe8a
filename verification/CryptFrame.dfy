/** The frame around an encrypted packet, over an abstract authenticated cipher, and the packets
    of a round as framed bytes. */
module CryptFrame {
  import opened Bits
  import opened Options
  import opened Serialization
  import opened Structures
  import opened WireFormat

  const IV_SIZE := 12
  const MAC_SIZE := 16

  datatype Sealed = Sealed(ct: Bytes, mac: Bytes)

  /** An authenticated cipher under a fixed key: the arguments of `seal` are the initialisation
      vector, the additional data and the plaintext. */
  datatype Cipher = Cipher(seal: (Bytes, Bytes, Bytes) -> Sealed, open: (Bytes, Bytes, Sealed) -> Option<Bytes>) {
    /** Authenticated decryption undoes authenticated encryption, and the ciphertext is as long as
        the plaintext (sections 7.1 and 7.2 of NIST SP 800-38D). */
    ghost predicate Lawful() {
      forall iv, aad, p :: |iv| == IV_SIZE ==>
        && |seal(iv, aad, p).ct| == |p| && |seal(iv, aad, p).mac| == MAC_SIZE
        && open(iv, aad, seal(iv, aad, p)) == Some(p)
    }
  }

  // ---------------------------------------------------------------- the frame

  /** lct || laad || iv || aad, both lengths as 32-bit numbers. */
  function Header(iv: Bytes, p: Bytes, aad: Bytes): Bytes {
    EncNumber(|p| % TWO_32, 4) + EncNumber(|aad| % TWO_32, 4) + iv + aad
  }

  /** The frame is header || mac || ct. The cipher gets as many bytes as the two length fields say. */
  function Frame(c: Cipher, iv: Bytes, p: Bytes, aad: Bytes): Bytes
    requires |iv| == IV_SIZE
  {
    var header := Header(iv, p, aad);
    var s := c.seal(iv, header[..20 + |aad| % TWO_32], p[..|p| % TWO_32]);
    header + s.mac + s.ct
  }

  datatype Opened = Opened(p: Bytes, aad: Bytes)

  /** None when an assert fails. */
  function Unframe(c: Cipher, frame: Bytes): Option<Opened> {
    match DecNumber(frame, 0, 4) case None => None case Some(lct) =>
    match DecNumber(frame, 4, 4) case None => None case Some(laad) =>
    var header := 20 + laad.value;
    if |frame| != header + MAC_SIZE + lct.value then None
    else
      match c.open(frame[8..20], frame[..header], Sealed(frame[header + MAC_SIZE..], frame[header..header + MAC_SIZE]))
      case None => None
      case Some(p) => Some(Opened(p, frame[20..header]))
  }

  lemma HeaderRead(iv: Bytes, p: Bytes, aad: Bytes, rest: Bytes)
    requires |iv| == IV_SIZE
    ensures |Header(iv, p, aad)| == 20 + |aad|
    ensures DecNumber(Header(iv, p, aad) + rest, 0, 4) == Some(Read(|p| % TWO_32, 4))
    ensures DecNumber(Header(iv, p, aad) + rest, 4, 4) == Some(Read(|aad| % TWO_32, 8))
  {
    var e1, e2 := EncNumber(|p| % TWO_32, 4), EncNumber(|aad| % TWO_32, 4);
    var b := Header(iv, p, aad) + rest;
    hide EncNumber, DecNumber;
    assert b == [] + e1 + (e2 + iv + aad + rest);
    HoldsInside([], e1, e2 + iv + aad + rest);
    assert b == e1 + e2 + (iv + aad + rest);
    HoldsInside(e1, e2, iv + aad + rest);
    Pow2Of32();
    SmallNumberRoundTrip(b, 0, |p| % TWO_32, 4);
    SmallNumberRoundTrip(b, 4, |aad| % TWO_32, 4);
  }

  /** What comes out of a frame: with more than 2^32 - 1 bytes of additional data the assert on the
      size fails, with as many bytes of plaintext only the first of them come back. */
  lemma FrameOpens(c: Cipher, iv: Bytes, p: Bytes, aad: Bytes)
    requires c.Lawful() && |iv| == IV_SIZE
    ensures Unframe(c, Frame(c, iv, p, aad))
         == if |aad| < TWO_32 then Some(Opened(p[..|p| % TWO_32], aad)) else None
    ensures |Frame(c, iv, p, aad)| == 20 + |aad| + MAC_SIZE + |p| % TWO_32
  {
    hide DecNumber, EncNumber;
    var header := Header(iv, p, aad);
    var s := c.seal(iv, header[..20 + |aad| % TWO_32], p[..|p| % TWO_32]);
    var frame := Frame(c, iv, p, aad);
    assert frame == header + (s.mac + s.ct);
    HeaderRead(iv, p, aad, s.mac + s.ct);
    if |aad| < TWO_32 {
      var n := 20 + |aad|;
      assert frame[8..20] == header[8..20] == iv;
      assert frame[..n] == header == header[..20 + |aad| % TWO_32];
      assert frame[20..n] == header[20..] == aad;
      assert frame[n..n + MAC_SIZE] == s.mac && frame[n + MAC_SIZE..] == s.ct;
    }
  }

  /** Decryption gives back plaintext and additional data iff both lengths fit into 32 bits. */
  lemma FrameRoundTripIff(c: Cipher, iv: Bytes, p: Bytes, aad: Bytes)
    requires c.Lawful() && |iv| == IV_SIZE
    ensures Unframe(c, Frame(c, iv, p, aad)) == Some(Opened(p, aad)) <==> |p| < TWO_32 && |aad| < TWO_32
  {
    hide Frame, Unframe;
    FrameOpens(c, iv, p, aad);
    if |p| < TWO_32 { assert p[..|p| % TWO_32] == p; }
  }

  /** Builds the frame by appending to a vector, as the source does. */
  method Encrypt(c: Cipher, iv: Bytes, p: Bytes, aad: Bytes) returns (result: Bytes)
    requires |iv| == IV_SIZE
    ensures result == Frame(c, iv, p, aad)
  {
    hide EncNumber;
    var w := new WorkingVec();
    var lct, laad := |p| % TWO_32, |aad| % TWO_32;
    w.PushNumber(lct, 4);
    w.PushNumber(laad, 4);
    w.bytes := w.bytes + iv;
    w.bytes := w.bytes + aad;
    assert w.bytes == Header(iv, p, aad);
    var sealed := c.seal(iv, w.bytes[..20 + laad], p[..lct]);
    w.bytes := w.bytes + sealed.mac;
    w.bytes := w.bytes + sealed.ct;
    result := w.bytes;
  }

  // ---------------------------------------------------------------- packets

  function AadOf(p: Packet): Aad { Aad(p.sender, p.receiver, p.round, p.structure) }

  function SectionsOf(p: Packet): Sections {
    Sections(p.announce, p.agreement, p.inject, p.routing, p.predeliver, p.deliver)
  }

  function ToPacket(a: Aad, s: Sections): Packet {
    Packet(a.sender, a.receiver, a.round, a.structure,
           s.announce, s.agreement, s.inject, s.routing, s.predeliver, s.deliver)
  }

  /** What traffic_out sends for a packet. */
  function EncPacket(c: Cipher, iv: Bytes, p: Packet): Bytes
    requires |iv| == IV_SIZE
  {
    Frame(c, iv, EncSections(SectionsOf(p)), EncAad(AadOf(p)))
  }

  /** Serializes both parts of a packet and encrypts them. */
  method EncryptPacket(c: Cipher, iv: Bytes, p: Packet) returns (frame: Bytes)
    requires |iv| == IV_SIZE
    ensures frame == EncPacket(c, iv, p)
  {
    hide Frame, EncSections, EncAad;
    var plain := new WorkingVec();
    SerializeSections(plain, SectionsOf(p));
    var aad := new WorkingVec();
    SerializeAad(aad, AadOf(p));
    assert [] + EncSections(SectionsOf(p)) == EncSections(SectionsOf(p)) && [] + EncAad(AadOf(p)) == EncAad(AadOf(p));
    frame := Encrypt(c, iv, plain.bytes, aad.bytes);
  }

  /** What traffic_in makes of the bytes it gets: refused where an assert fails or a read leaves the
      data, empty, or a packet with the positions of the two cursors after parsing. */
  datatype Parsed = Refused | Empty | Parsed(packet: Packet, curAad: nat, curP: nat)

  function DecPacket(c: Cipher, moves: bool, frame: Bytes): Parsed {
    match Unframe(c, frame)
    case None => Refused
    case Some(content) =>
      if content.p == [] && content.aad == [] then Empty
      else
        match DecAad(content.aad, 0) case None => Refused case Some(aad) =>
        match DecSections(moves, content.p, 0) case None => Refused case Some(s) =>
        Parsed(ToPacket(aad.value, s.value), aad.cur, s.cur)
  }

  /** Only a frame whose two parts are both empty counts as empty. */
  lemma EmptyIff(c: Cipher, moves: bool, frame: Bytes)
    ensures DecPacket(c, moves, frame) == Empty <==> Unframe(c, frame) == Some(Opened([], []))
  {
    hide Unframe, DecAad, DecSections;
  }

  /** No count in the packet exceeds 2^31 - 1 and no part of the frame 2^32 - 1 bytes. */
  predicate Sendable(p: Packet) {
    && ShortAad(AadOf(p)) && ShortSections(SectionsOf(p))
    && |EncAad(AadOf(p))| < TWO_32 && |EncSections(SectionsOf(p))| < TWO_32
  }

  predicate FaithfulPacket(p: Packet) { FaithfulAad(AadOf(p)) && FaithfulSections(SectionsOf(p)) }

  function PacketImage(p: Packet): Packet { ToPacket(AadImage(AadOf(p)), SectionsImage(SectionsOf(p))) }

  lemma WholeHolds(b: Bytes)
    ensures HoldsAt(b, 0, b)
  {
    assert b[0..0 + |b|] == b;
  }

  lemma PacketOpens(c: Cipher, iv: Bytes, p: Packet, moves: bool)
    requires c.Lawful() && |iv| == IV_SIZE && Sendable(p)
    ensures var b := EncSections(SectionsOf(p));
            DecPacket(c, moves, EncPacket(c, iv, p)) ==
              match DecSections(moves, b, 0)
              case None => Refused
              case Some(s) => Parsed(ToPacket(AadImage(AadOf(p)), s.value), |EncAad(AadOf(p))|, s.cur)
  {
    hide Frame, Unframe, DecSections, EncAad, AadImage, ShortAad, ShortSections, HoldsAt, DecAad;
    var b, a := EncSections(SectionsOf(p)), EncAad(AadOf(p));
    FrameRoundTripIff(c, iv, b, a);
    WholeHolds(a);
    AadRead(a, 0, AadOf(p));
    SectionsLength(SectionsOf(p));
  }

  /** With advancing readers a packet is parsed to the end of both parts, and what is parsed is the
      packet iff all its 64-bit numbers are faithful. */
  lemma PacketRoundTripIff(c: Cipher, iv: Bytes, p: Packet)
    requires c.Lawful() && |iv| == IV_SIZE && Sendable(p)
    ensures DecPacket(c, true, EncPacket(c, iv, p))
         == Parsed(PacketImage(p), |EncAad(AadOf(p))|, |EncSections(SectionsOf(p))|)
    ensures PacketImage(p) == p <==> FaithfulPacket(p)
  {
    hide EncPacket, DecPacket, EncAad, EncSections, DecSections, AadImage, SectionsImage, HoldsAt, FaithfulAad,
         FaithfulSections, ShortAad, ShortSections;
    PacketOpens(c, iv, p, true);
    WholeHolds(EncSections(SectionsOf(p)));
    SectionsRead(EncSections(SectionsOf(p)), 0, SectionsOf(p));
    AadImageIff(AadOf(p));
    SectionsImageIff(SectionsOf(p));
  }

  /** As coded, a packet comes back, with both cursors at the end, iff its six sections are empty
      and the numbers of its additional data are faithful. */
  lemma PacketAsCodedIff(c: Cipher, iv: Bytes, p: Packet)
    requires c.Lawful() && |iv| == IV_SIZE && Sendable(p)
    ensures DecPacket(c, false, EncPacket(c, iv, p)) == Parsed(p, |EncAad(AadOf(p))|, |EncSections(SectionsOf(p))|) <==>
              SectionsOf(p) == NO_SECTIONS && FaithfulAad(AadOf(p))
  {
    hide EncPacket, DecPacket, EncAad, EncSections, DecSections, AadImage, HoldsAt, FaithfulAad, ShortAad,
         ShortSections;
    PacketOpens(c, iv, p, false);
    WholeHolds(EncSections(SectionsOf(p)));
    SectionsAsCodedIff(EncSections(SectionsOf(p)), 0, SectionsOf(p));
    AadImageIff(AadOf(p));
  }

  /** How long a framed packet is depends on the numbers of its entries and on its additional data
      alone, not on any message. */
  lemma PacketLength(c: Cipher, iv: Bytes, p: Packet)
    requires c.Lawful() && |iv| == IV_SIZE && Sendable(p)
    ensures |EncPacket(c, iv, p)| == 84 + |EncAad(AadOf(p))|
              + 264 * (|p.announce| + |p.inject| + |p.predeliver| + |p.deliver|)
              + 292 * |p.agreement| + 352 * |p.routing|
  {
    hide *;
    PacketParts(c, iv, p);
    FrameOpens(c, iv, EncSections(SectionsOf(p)), EncAad(AadOf(p)));
    SectionsLength(SectionsOf(p));
  }

  lemma PacketParts(c: Cipher, iv: Bytes, p: Packet)
    requires |iv| == IV_SIZE && Sendable(p)
    ensures EncPacket(c, iv, p) == Frame(c, iv, EncSections(SectionsOf(p)), EncAad(AadOf(p)))
    ensures |EncSections(SectionsOf(p))| % TWO_32 == |EncSections(SectionsOf(p))|
    ensures var s := SectionsOf(p);
            && s.announce == p.announce && s.agreement == p.agreement && s.inject == p.inject
            && s.routing == p.routing && s.predeliver == p.predeliver && s.deliver == p.deliver
    ensures IV_SIZE == 12 && MAC_SIZE == 16
  {
    hide Frame, EncSections, EncAad, ShortAad, ShortSections;
  }

  // ---------------------------------------------------------------- pseudonyms

  /** The bytes of a pseudonym: the frame of the record without additional data, cut to the size of
      a pseudonym. */
  function CutFrame(c: Cipher, iv: Bytes, p: DecryptedPseudonym): Bytes
    requires |iv| == IV_SIZE
  {
    var frame := Frame(c, iv, EncDecrypted(p), []);
    frame[..if |frame| < 64 then |frame| else 64]
  }

  /** The frame is one byte longer than a pseudonym, so that no generated pseudonym can ever be
      decrypted: the assert on the size fails. */
  lemma PseudonymIsCut(c: Cipher, iv: Bytes, p: DecryptedPseudonym)
    requires c.Lawful() && |iv| == IV_SIZE
    ensures |Frame(c, iv, EncDecrypted(p), [])| == 65 && |CutFrame(c, iv, p)| == 64
    ensures Unframe(c, CutFrame(c, iv, p)) == None
  {
    var b := EncDecrypted(p);
    WholeHolds(b);
    DecryptedRoundTrip(b, 0, p);
    hide EncDecrypted;
    FrameIsCut(c, iv, b);
  }

  lemma FrameIsCut(c: Cipher, iv: Bytes, b: Bytes)
    requires c.Lawful() && |iv| == IV_SIZE && |b| == 29
    ensures |Frame(c, iv, b, [])| == 65 && Unframe(c, Frame(c, iv, b, [])[..64]) == None
  {
    hide DecNumber, EncNumber, Header;
    HeaderRead(iv, b, [], []);
    var header := Header(iv, b, []);
    var s := c.seal(iv, header[..20 + 0 % TWO_32], b[..|b| % TWO_32]);
    var rest := s.mac + s.ct;
    HeaderRead(iv, b, [], rest[..44]);
    hide Cipher.Lawful;
    assert Frame(c, iv, b, []) == header + rest;
    assert (header + rest)[..64] == header + rest[..44];
  }
}

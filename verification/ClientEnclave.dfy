/** The client: its fields, and the four calls that change them. Each call is proved to act on the
    three parts of the state - outgoing queue, inboxes, agreement table - as the state machines of
    OutgoingQueue, Inboxes and Agreement say. */
module ClientEnclave {
  import opened Bits
  import Options
  import opened Ordering
  import opened Outbound
  import opened Overlay
  import opened RoundWork
  import opened Rounds
  import opened Structures
  import A = Agreement
  import F = CryptFrame
  import R = ClientRun
  import W = WireFormat
  import I = Inboxes
  import Q = OutgoingQueue

  datatype Outcome = Skipped | Aborted | Sent(packets: seq<Packet>)

  /** The messages of a batch are pushed into the queue of the pseudonym each is for. */
  ghost predicate Delivered(decrypt: Decryption, before: seq<multiset<MessageTuple>>, batch: map<U64, MessageTuple>,
                            after: seq<multiset<MessageTuple>>)
  {
    && |after| == |before|
    && forall i, m :: 0 <= i < |before| ==>
         after[i][m] == before[i][m]
           + (if m in batch.Values && !m.IsDummy() && decrypt(m.nDst).localNum == i then 1 else 0)
  }

  /** Every message of the batch is for one of the `n` local pseudonyms; otherwise `at` throws. */
  ghost predicate Deliverable(decrypt: Decryption, n: nat, batch: map<U64, MessageTuple>) {
    forall t :: t in batch && !batch[t].IsDummy() ==> decrypt(batch[t].nDst).localNum < n
  }

  function AgreementInput(s: Setting): A.Input {
    A.Input(s.ov.gammaAgree, s.input.announce, s.input.agreement)
  }

  ghost predicate Keyed(batch: map<U64, MessageTuple>) {
    forall t :: t in batch ==> batch[t].tDst == t
  }

  lemma {:induction false} InsertAllKeyed(m: map<U64, MessageTuple>, s: seq<MessageTuple>)
    requires Keyed(m)
    ensures Keyed(I.InsertAll(m, s))
  {
    if s != [] { InsertAllKeyed(m, s[..|s| - 1]); }
  }

  lemma NothingKeyed()
    ensures Keyed(map[])
  {
  }

  lemma ContributeKeyed(i: I.Inbox, p: Packet)
    requires Keyed(i.deliver)
    ensures Keyed(I.Contribute(i, p).deliver)
  {
    InsertAllKeyed(i.deliver, p.deliver);
  }

  /** The messages of a batch for the delivery times in `done` have been pushed. */
  ghost predicate Pushed(decrypt: Decryption, before: seq<multiset<MessageTuple>>, batch: map<U64, MessageTuple>,
                         done: set<U64>, after: seq<multiset<MessageTuple>>)
  {
    && |after| == |before|
    && forall i, m :: 0 <= i < |before| ==>
         after[i][m] == before[i][m]
           + (if m.tDst in done && m.tDst in batch && batch[m.tDst] == m
                 && !m.IsDummy() && decrypt(m.nDst).localNum == i
              then 1 else 0)
  }

  lemma PushOne(decrypt: Decryption, before: seq<multiset<MessageTuple>>, batch: map<U64, MessageTuple>, done: set<U64>,
                after: seq<multiset<MessageTuple>>, t: U64)
    requires Keyed(batch) && Pushed(decrypt, before, batch, done, after) && t in batch && t !in done
    ensures var i := decrypt(batch[t].nDst).localNum;
            if batch[t].IsDummy() then Pushed(decrypt, before, batch, done + {t}, after)
            else i < |after| ==> Pushed(decrypt, before, batch, done + {t}, after[i := after[i] + multiset{batch[t]}])
  {
  }

  lemma PushedAll(decrypt: Decryption, before: seq<multiset<MessageTuple>>, batch: map<U64, MessageTuple>,
                  after: seq<multiset<MessageTuple>>)
    requires Keyed(batch) && Pushed(decrypt, before, batch, batch.Keys, after)
    ensures Delivered(decrypt, before, batch, after)
  {
    forall m ensures m in batch.Values <==> m.tDst in batch && batch[m.tDst] == m {
      if m in batch.Values {
        var t :| t in batch && batch[t] == m;
      }
    }
  }

  /** Pushes the messages of a batch, in the order of their delivery times. */
  method DeliverAll(decrypt: Decryption, before: seq<multiset<MessageTuple>>, batch: map<U64, MessageTuple>)
    returns (ok: bool, after: seq<multiset<MessageTuple>>)
    requires Keyed(batch)
    ensures |after| == |before|
    ensures ok <==> Deliverable(decrypt, |before|, batch)
    ensures ok ==> Delivered(decrypt, before, batch, after)
  {
    OnidOrder();
    var keys := Ascending(batch.Keys, OnidLess);
    after := before;
    assert Pushed(decrypt, before, batch, Elements(keys[..0]), after);
    hide Pushed, Delivered;
    for k := 0 to |keys|
      invariant |after| == |before|
      invariant forall t :: t in keys[..k] && t in batch && !batch[t].IsDummy() ==>
                  decrypt(batch[t].nDst).localNum < |before|
      invariant Pushed(decrypt, before, batch, Elements(keys[..k]), after)
    {
      assert keys[k] in Elements(keys);
      var message := batch[keys[k]];
      PushOne(decrypt, before, batch, Elements(keys[..k]), after, keys[k]);
      assert Elements(keys[..k + 1]) == Elements(keys[..k]) + {keys[k]};
      if !message.IsDummy() {
        var i := decrypt(message.nDst).localNum;
        if i >= |after| {
          return false, after;
        }
        after := after[i := after[i] + multiset{message}];
      }
    }
    assert keys[..|keys|] == keys;
    assert forall t :: t in batch ==> t in Elements(keys);
    PushedAll(decrypt, before, batch, after);
    ok := true;
  }

  /** Adds a packet to a slot; when more than m_corrupt senders have been heard, hands the collected
      messages over and forgets them and the senders. `ok` is false where `at` throws. */
  method Collect(mCorrupt: nat, decrypt: Decryption, queues: seq<multiset<MessageTuple>>, slot: I.Inbox, p: Packet)
    returns (ok: bool, slot': I.Inbox, queues': seq<multiset<MessageTuple>>, full: bool)
    requires Keyed(slot.deliver)
    ensures full <==> |I.Contribute(slot, p).receivedFrom| > mCorrupt
    ensures slot' == if full then I.Contribute(slot, p).(deliver := map[], receivedFrom := map[])
                     else I.Contribute(slot, p)
    ensures Keyed(slot'.deliver) && |queues'| == |queues|
    ensures ok <==> (full ==> Deliverable(decrypt, |queues|, I.Contribute(slot, p).deliver))
    ensures ok ==> if full then Delivered(decrypt, queues, I.Contribute(slot, p).deliver, queues')
                   else queues' == queues
  {
    hide I.InsertAll, Delivered, Keyed, Deliverable;
    ContributeKeyed(slot, p);
    NothingKeyed();
    slot' := I.Contribute(slot, p);
    ok, queues', full := true, queues, false;
    if |slot'.receivedFrom| > mCorrupt {
      full := true;
      ok, queues' := DeliverAll(decrypt, queues, slot'.deliver);
      slot' := slot'.(deliver := map[], receivedFrom := map[]);
    }
  }

  /** The round admission in the 64-bit words of the client. */
  lemma AdmissionInWords(c: Config, cur: int, now: U64)
    requires c.Valid() && -1 <= cur < 0x4000_0000_0000_0000
    ensures c.SubroundOf(now) / 4 < 0x4000_0000_0000_0000
    ensures var subround, word := c.SubroundOf(now), I.CurWord(cur);
            && (Q.Admit(c, cur, now) == Q.Skipped <==> subround % 4 != 0 || subround / 4 == word)
            && (Q.Admit(c, cur, now) == Q.Admitted ==> I.CurWord(cur + 1) == subround / 4 == cur + 1)
            && (Q.Admit(c, cur, now) == Q.Aborted <==>
                  !(subround % 4 != 0 || subround / 4 == word) && word != (subround / 4 - 1) % TWO_64)
  {
    hide Quotient;
    QuotientSmaller(now, c.kDelta);
  }

  /** Announces the popped messages and makes the packets of the round. */
  method SendOut(s: Setting, popped: seq<MessageTuple>, sends: seq<A.Send>, finals: seq<MessageTuple>)
    returns (ok: bool, packets: seq<Packet>, ghost tr: Trace, ghost padded: OutMaps)
    requires 2 * s.c.dimension < 64
    ensures ok ==> CarriedOut(s, tr, padded, packets)
    ensures ok <==> !Failed(s, tr)
    ensures tr.popped == popped && tr.sends == sends && tr.finals == finals
  {
    hide CarriedOut, Failed, Filled, Broadcast;
    FilledNothing();
    var announce := PushItems(map[], popped, s.ov.gammaSend, []);
    assert [] + Broadcast(popped, s.ov.gammaSend) == Broadcast(popped, s.ov.gammaSend);
    ok, packets, tr, padded := FinishRound(s, popped, announce, sends, finals);
  }

  /** Encrypts the packets of a round for their recipients, one initialisation vector each. */
  method EncryptAll(cipher: F.Cipher, packets: seq<Packet>, ivs: seq<seq<Byte>>) returns (parcels: seq<W.Parcel>)
    requires |ivs| == |packets| && forall i :: 0 <= i < |ivs| ==> |ivs[i]| == F.IV_SIZE
    ensures |parcels| == |packets|
    ensures forall i :: 0 <= i < |packets| ==>
              parcels[i] == W.Parcel(packets[i].receiver, F.EncPacket(cipher, ivs[i], packets[i]))
  {
    hide F.EncPacket;
    parcels := [];
    for k := 0 to |packets|
      invariant |parcels| == k
      invariant forall i :: 0 <= i < k ==>
        parcels[i] == W.Parcel(packets[i].receiver, F.EncPacket(cipher, ivs[i], packets[i]))
    {
      var c := F.EncryptPacket(cipher, ivs[k], packets[k]);
      parcels := parcels + [W.Parcel(packets[k].receiver, c)];
    }
  }

  /** What one round does to the agreement state and sends for it. */
  ghost predicate AgreementDone(s: Setting, tr: Trace, a: A.State, history: seq<seq<Peer>>, tuples: seq<A.LocalTuple>) {
    var next := A.Round(a, AgreementInput(s), s.own, s.c.AgreementTime());
    && next.Some? && next.value.history == history && next.value.tuples == tuples
    && next.value.finals == a.finals + [tr.finals]
    && tr.sends == A.RoundSends(a, AgreementInput(s), s.own, s.c.AgreementTime())
  }

  /** A round between the update of the overlay and the change of the inboxes. */
  method WorkOn(s: Setting, qOut: multiset<MessageTuple>, history: seq<seq<Peer>>, tuples: seq<A.LocalTuple>,
                ghost a: A.State)
    returns (ok: bool, packets: seq<Packet>, qOut': multiset<MessageTuple>, history': seq<seq<Peer>>,
             tuples': seq<A.LocalTuple>, ghost tr: Trace, ghost padded: OutMaps)
    requires 2 * s.c.dimension < 64 && a.history == history && a.tuples == tuples
    ensures qOut' == qOut - Q.Popped(s.c, qOut, s.cur) && multiset(tr.popped) == Q.Popped(s.c, qOut, s.cur)
    ensures ok ==> AgreementDone(s, tr, a, history', tuples') && CarriedOut(s, tr, padded, packets)
    ensures !ok ==> A.Round(a, AgreementInput(s), s.own, s.c.AgreementTime()).None? || Failed(s, tr)
  {
    hide CarriedOut, Failed, A.Round, A.RoundSends, Q.Popped;
    var popped, sends, finals;
    qOut', popped := Q.PopDue(s.c, qOut, s.cur);
    packets, tr, padded := [], Trace(popped, [], [], [], [], [], [], 0, [], map[]), NO_MAPS;
    ok, history', tuples', sends, finals :=
      A.CarryOut(history, tuples, AgreementInput(s), s.own, s.c.AgreementTime(), a);
    if ok {
      ok, packets, tr, padded := SendOut(s, popped, sends, finals);
    }
  }

  lemma NextWord(cur: int)
    requires -1 <= cur < 0x4000_0000_0000_0000
    ensures (I.CurWord(cur) + 1) % TWO_64 == I.CurWord(cur + 1) == cur + 1
  {
  }

  lemma AgreementStep(s: Setting, tr: Trace, a: A.State, history: seq<seq<Peer>>, tuples: seq<A.LocalTuple>)
    requires AgreementDone(s, tr, a, history, tuples)
    ensures var next := A.Round(a, AgreementInput(s), s.own, s.c.AgreementTime());
            && next.Some? && next.value.history == history && next.value.tuples == tuples
            && next.value.gamma == a.gamma + [s.ov.gammaAgree]
            && next.value.finals == a.finals + [tr.finals]
            && tr.sends == A.RoundSends(a, AgreementInput(s), s.own, s.c.AgreementTime())
  {
    hide A.Present;
  }

  lemma QueueShrinks(c: Config, h: Q.History)
    ensures var popped := Q.Popped(c, h.queue, |h.released|);
            Q.Out(c, h) == h.(queue := h.queue - popped, released := h.released + [popped])
  {
  }

  const NO_RESULT := OverlayResult(0, [], [], map[], [], map[])
  const NO_MAPS := OutMaps(map[], map[], map[], map[], map[], map[], map[])

  class ClientEnclave {
    const c: Config
    const own: Peer
    const onidRepr: U64
    const mCorrupt: nat
    const maxRouting: nat
    const decrypt: Decryption
    const itm: (Pseudonym, U64) -> U64
    const overlay: OverlayStructureScheme

    var pseudonyms: seq<DecryptedPseudonym>
    var counters: seq<map<U64, nat>>
    var qIn: seq<multiset<MessageTuple>>
    var qOut: multiset<MessageTuple>
    var curRound: U64
    var in0: I.Inbox
    var in1: I.Inbox
    var agreementTuples: seq<A.LocalTuple>
    var gammaAgreeForRound: seq<seq<Peer>>

    // the three state machines, with what has happened so far
    ghost var queue: Q.State
    ghost var inbox: I.State
    ghost var agreement: A.State

    ghost predicate QueueTied()
      reads this`queue, this`pseudonyms, this`counters, this`qOut
    {
      queue.pseudonyms == pseudonyms && queue.counters == counters && queue.h.queue == qOut
    }

    ghost predicate InboxTied()
      reads this`inbox, this`in0, this`in1
    {
      inbox.now == in0 && inbox.next == in1 && Keyed(in0.deliver) && Keyed(in1.deliver)
    }

    ghost predicate AgreementTied()
      reads this`agreement, this`gammaAgreeForRound, this`agreementTuples
    {
      agreement.history == gammaAgreeForRound && agreement.tuples == agreementTuples
    }

    /** The fields are those of the state machines, which are all in the current round. */
    ghost predicate Valid()
      reads this
    {
      && c.Valid() && 2 * c.dimension < 64
      && overlay.dimension == c.dimension
      && QueueTied() && InboxTied() && AgreementTied() && |qIn| == |pseudonyms|
      && |queue.h.released| == |inbox.consumed| == |agreement.gamma| <= 0x4000_0000_0000_0000
      && curRound == I.CurWord(queue.Cur())
    }

    constructor (c: Config, own: Peer, onidRepr: U64, mCorrupt: nat, maxRouting: nat, decrypt: Decryption,
                 itm: (Pseudonym, U64) -> U64, overlay: OverlayStructureScheme)
      requires c.Valid() && 2 * c.dimension < 64 && overlay.dimension == c.dimension
      ensures Valid() && this.c == c && this.own == own && this.overlay == overlay
      ensures queue == Q.INITIAL && inbox == I.INITIAL && agreement == A.INITIAL
    {
      this.c, this.own, this.onidRepr, this.mCorrupt, this.maxRouting := c, own, onidRepr, mCorrupt, maxRouting;
      this.decrypt, this.itm, this.overlay := decrypt, itm, overlay;
      pseudonyms, counters, qIn, qOut := [], [], [], multiset{};
      curRound := 0xFFFF_FFFF_FFFF_FFFF;
      in0, in1, agreementTuples, gammaAgreeForRound := I.EMPTY_INBOX, I.EMPTY_INBOX, [], [];
      queue, inbox, agreement := Q.INITIAL, I.INITIAL, A.INITIAL;
    }

    /** Generates a pseudonym and hands out its bytes, or only zeros when there are enough. */
    method GeneratePseudonym(cipher: F.Cipher, iv: seq<Byte>) returns (bytes: seq<Byte>)
      requires Valid() && |iv| == F.IV_SIZE && cipher.Lawful()
      modifies this
      ensures Valid() && queue == Q.Generate(c, old(queue), onidRepr, own)
      ensures inbox == old(inbox) && agreement == old(agreement)
      ensures qIn == old(qIn) + (if |old(pseudonyms)| < c.kAMax then [multiset{}] else [])
      ensures bytes == if |old(pseudonyms)| < c.kAMax then F.CutFrame(cipher, iv, pseudonyms[|pseudonyms| - 1])
                       else ZERO_PSEUDONYM
      ensures |old(pseudonyms)| < c.kAMax ==> |bytes| == 64 && F.Unframe(cipher, bytes) == Options.None
    {
      hide F.CutFrame, F.Unframe, InboxTied, AgreementTied;
      bytes := ZERO_PSEUDONYM;
      if |pseudonyms| >= c.kAMax {
        return;
      }
      var pseud := DecryptedPseudonym(onidRepr, own, |pseudonyms| % 0x100);
      F.PseudonymIsCut(cipher, iv, pseud);
      bytes := F.CutFrame(cipher, iv, pseud);
      pseudonyms := pseudonyms + [pseud];
      counters := counters + [map[]];
      qIn := qIn + [multiset{}];
      queue := Q.Generate(c, queue, onidRepr, own);
    }

    method SendMessage(now: U64, nSrc: Pseudonym, msg: Message, nDst: Pseudonym, tDst: U64)
      requires Valid()
      modifies this
      ensures Valid()
      ensures queue == Q.Send(c, old(queue), now, decrypt(nSrc), MessageTuple(nSrc, msg, nDst, tDst)).(clock := now)
      ensures inbox == old(inbox) && agreement == old(agreement) && qIn == old(qIn)
    {
      hide Q.Target, Q.CounterKey, Q.TooLate, Q.Lookup, Q.Increment, Keyed, I.CurWord, Config.Valid;
      var src := decrypt(nSrc);
      var m := MessageTuple(nSrc, msg, nDst, tDst);
      queue := Q.Send(c, queue, now, src, m).(clock := now);
      if src !in pseudonyms {
        return;
      }
      if Q.TooLate(c, now, tDst) {
        return;
      }
      if src.localNum >= |counters| {
        return;
      }
      var key := Q.CounterKey(c, tDst);
      if key in counters[src.localNum] && counters[src.localNum][key] >= c.kSend {
        return;
      }
      qOut := qOut + multiset{m};
      counters := counters[src.localNum := Q.Increment(counters[src.localNum], key)];
    }

    /** What taking in a packet does: nothing when it is ignored; when it is accepted, `ok` says whether
        every message of the batch it completes, if it does, has a queue, and then it goes there. */
    twostate predicate TakenIn(p: Packet, ok: bool)
      reads this
    {
      match I.Receive(own, old(inbox), p)
      case Ignored => ok && Valid() && inbox == old(inbox) && qIn == old(qIn)
      case Aborted => !ok
      case Accepted(k) =>
        var slot := I.Contribute(old(inbox).Slot(k), p);
        && (ok <==> (|slot.receivedFrom| > mCorrupt ==> Deliverable(decrypt, |old(qIn)|, slot.deliver)))
        && (ok ==>
          && Valid()
          && inbox == I.Accept(mCorrupt, old(inbox), k, p)
          && if |inbox.batches| == |old(inbox.batches)| then qIn == old(qIn)
             else Delivered(decrypt, old(qIn), inbox.batches[|inbox.batches| - 1].messages, qIn))
    }

    /** One packet arrives. `ok` is false when an assert fails or `at` throws. */
    method TrafficIn(p: Packet) returns (ok: bool)
      requires Valid()
      modifies this
      ensures queue == old(queue) && agreement == old(agreement)
      ensures TakenIn(p, ok)
    {
      hide I.Contribute, Delivered, Deliverable, Keyed, I.CurWord, Config.Valid, QueueTied, AgreementTied;
      if p.receiver != own {
        return true;
      }
      if p.round < curRound {
        return true;
      }
      var curOrNext := p.round - curRound;
      if curOrNext >= 2 {
        return false;
      }
      var slot := if curOrNext == 0 then in0 else in1;
      if I.SeenFrom(slot, p.sender) {
        return true;
      }
      inbox := I.Accept(mCorrupt, inbox, curOrNext, p);
      var full, accepted, queues;
      ok, accepted, queues, full := Collect(mCorrupt, decrypt, qIn, slot, p);
      qIn := queues;
      if curOrNext == 0 {
        in0 := accepted;
      } else {
        in1 := accepted;
      }
    }

    /** Bytes arrive: they are decrypted and parsed, with the readers as coded (`moves` = false) or put
        right, and the packet is taken in. `ok` is false when an assert fails or a read or lookup
        leaves its data. */
    method TrafficInFrame(cipher: F.Cipher, moves: bool, frame: seq<Byte>) returns (ok: bool)
      requires Valid()
      modifies this
      ensures queue == old(queue) && agreement == old(agreement)
      ensures match F.DecPacket(cipher, moves, frame)
              case Refused => !ok && Valid() && inbox == old(inbox) && qIn == old(qIn)
              case Empty => ok && Valid() && inbox == old(inbox) && qIn == old(qIn)
              case Parsed(p, _, _) => TakenIn(p, ok)
    {
      hide F.DecPacket, TakenIn, Valid;
      match F.DecPacket(cipher, moves, frame)
      case Refused =>
        ok := false;
      case Empty =>
        ok := true;
      case Parsed(p, _, _) =>
        ok := TrafficIn(p);
    }

    /** What a round that is carried out leaves and returns. */
    twostate predicate RoundDone(now: U64, randomQuorum: U64, packets: seq<Packet>, s: Setting, tr: Trace,
                                 padded: OutMaps, order: seq<U64>)
      requires 2 * c.dimension < 64 && c.Valid()
      reads this, overlay
    {
      && Valid() && qIn == old(qIn)
      && queue == old(queue).(h := Q.Out(c, old(queue).h), clock := now)
      && inbox == I.EndRound(old(inbox))
      && s == Setting(c, own, decrypt, itm, mCorrupt, maxRouting, curRound, s.ov, old(in0))
      && IsUpdateOf(old(overlay.t), curRound, old(in0).structure, randomQuorum, overlay.own, c.dimension, overlay.t,
                    s.ov, order)
      && A.Round(old(agreement), AgreementInput(s), own, c.AgreementTime()) == Options.Some(agreement)
      && tr.sends == A.RoundSends(old(agreement), AgreementInput(s), own, c.AgreementTime())
      && agreement.finals == old(agreement).finals + [tr.finals]
      && agreement.gamma == old(agreement).gamma + [s.ov.gammaAgree]
      && queue.h.released == old(queue).h.released + [multiset(tr.popped)]
      && CarriedOut(s, tr, padded, packets)
    }

    /** Why a round that was admitted is not carried out: a lookup in the deque throws, or the work of
        the round fails. */
    twostate predicate RoundFailed(randomQuorum: U64, s: Setting, tr: Trace, order: seq<U64>)
      requires 2 * c.dimension < 64 && c.Valid()
      reads this, overlay
    {
      && s == Setting(c, own, decrypt, itm, mCorrupt, maxRouting, I.CurWord(old(queue).Cur() + 1), s.ov, old(in0))
      && IsUpdateOf(old(overlay.t), s.cur, old(in0).structure, randomQuorum, overlay.own, c.dimension, overlay.t,
                    s.ov, order)
      && (A.Round(old(agreement), AgreementInput(s), own, c.AgreementTime()).None? || Failed(s, tr))
    }

    method EndQueue(now: U64, rest: multiset<MessageTuple>)
      requires QueueTied() && rest == Q.Out(c, queue.h).queue
      modifies this`qOut, this`queue
      ensures QueueTied() && queue == old(queue).(h := Q.Out(c, old(queue).h), clock := now)
    {
      hide Q.Out;
      QueueShrinks(c, queue.h);
      qOut := rest;
      queue := queue.(h := Q.Out(c, queue.h), clock := now);
    }

    /** Slot 1 becomes slot 0. */
    method EndInbox()
      requires InboxTied()
      modifies this`in0, this`in1, this`inbox
      ensures InboxTied() && inbox == I.EndRound(old(inbox))
    {
      in0, in1 := in1, I.EMPTY_INBOX;
      inbox := I.EndRound(inbox);
    }

    method EndAgreement(history: seq<seq<Peer>>, tuples: seq<A.LocalTuple>, ghost next: A.State)
      requires history == next.history && tuples == next.tuples
      modifies this`gammaAgreeForRound, this`agreementTuples, this`agreement
      ensures AgreementTied() && agreement == next
    {
      gammaAgreeForRound, agreementTuples := history, tuples;
      agreement := next;
    }

    method EndRound(now: U64, rest: multiset<MessageTuple>, history: seq<seq<Peer>>, tuples: seq<A.LocalTuple>,
                    ghost next: A.State)
      requires c.Valid() && 2 * c.dimension < 64 && overlay.dimension == c.dimension
      requires QueueTied() && InboxTied() && |qIn| == |pseudonyms|
      requires rest == Q.Out(c, queue.h).queue && history == next.history && tuples == next.tuples
      requires |queue.h.released| + 1 == |inbox.consumed| + 1 == |next.gamma| <= 0x4000_0000_0000_0000
      requires curRound == I.CurWord(queue.Cur() + 1)
      modifies this`qOut, this`queue, this`in0, this`in1, this`inbox, this`gammaAgreeForRound, this`agreementTuples,
               this`agreement
      ensures Valid()
      ensures queue == old(queue).(h := Q.Out(c, old(queue).h), clock := now)
      ensures inbox == I.EndRound(old(inbox)) && agreement == next
    {
      hide Keyed, Q.Popped, I.CurWord, Config.Valid, Q.Out;
      QueueShrinks(c, queue.h);
      EndQueue(now, rest);
      EndInbox();
      EndAgreement(history, tuples, next);
    }

    lemma TiedValues()
      requires QueueTied() && AgreementTied()
      ensures queue.h.queue == qOut
      ensures agreement.history == gammaAgreeForRound && agreement.tuples == agreementTuples
    {
    }

    /** A round after its admission. */
    method CarryOutRound(now: U64, randomQuorum: U64)
      returns (outcome: Outcome, ghost s: Setting, ghost tr: Trace, ghost padded: OutMaps, ghost order: seq<U64>)
      requires Valid() && |queue.h.released| < 0x4000_0000_0000_0000
      modifies this, overlay
      ensures !outcome.Skipped?
      ensures outcome.Sent? ==> RoundDone(now, randomQuorum, outcome.packets, s, tr, padded, order)
      ensures outcome.Aborted? ==> RoundFailed(randomQuorum, s, tr, order)
    {
      hide Keyed, CarriedOut, Failed, IsUpdateOf, A.Round, A.RoundSends, Q.Popped, Q.Out, I.CurWord, Config.Valid,
           AgreementInput, AgreementDone, QueueTied, InboxTied, AgreementTied;
      NextWord(queue.Cur());
      TiedValues();
      curRound := (curRound + 1) % TWO_64;
      outcome := Aborted;
      s := Setting(c, own, decrypt, itm, mCorrupt, maxRouting, curRound, NO_RESULT, in0);
      tr, padded := Trace([], [], [], [], [], [], [], 0, [], map[]), NO_MAPS;
      var ov;
      ov, order := UpdateOverlay(randomQuorum);
      var setting := Setting(c, own, decrypt, itm, mCorrupt, maxRouting, curRound, ov, in0);
      s := setting;
      var ok, packets, rest, history, tuples;
      ok, packets, rest, history, tuples, tr, padded :=
        WorkOn(setting, qOut, gammaAgreeForRound, agreementTuples, agreement);
      if !ok {
        return;
      }
      AgreementStep(s, tr, agreement, history, tuples);
      QueueShrinks(c, queue.h);
      EndRound(now, rest, history, tuples, A.Round(agreement, AgreementInput(s), own, c.AgreementTime()).value);
      outcome := Sent(packets);
    }

    method UpdateOverlay(randomQuorum: U64) returns (ov: OverlayResult, ghost order: seq<U64>)
      requires overlay.dimension == c.dimension <= 64
      modifies overlay
      ensures IsUpdateOf(old(overlay.t), curRound, in0.structure, randomQuorum, overlay.own, c.dimension, overlay.t,
                         ov, order)
    {
      hide IsUpdateOf, ResultRoute;
      ov, order := overlay.Update(curRound, in0.structure, randomQuorum);
    }

    ghost function Client(): R.Client { R.Client(c, own, onidRepr, mCorrupt) }

    /** A round that is carried out is a step of the runs whose theorems ClientRun proves. */
    twostate lemma RoundIsStep(now: U64, randomQuorum: U64, packets: seq<Packet>, s: Setting, tr: Trace,
                               padded: OutMaps, order: seq<U64>)
      requires old(Valid()) && Q.Admit(c, old(queue).Cur(), now) == Q.Admitted
      requires old(queue.clock) <= now && Q.ClockInRange(c, now)
      requires RoundDone(now, randomQuorum, packets, s, tr, padded, order)
      ensures R.Apply(Client(), R.State(old(queue), old(inbox), old(agreement)), R.TrafficOut(now, s.ov.gammaAgree))
           == Options.Some(R.State(queue, inbox, agreement))
    {
      hide Q.Admit, Q.ClockInRange, CarriedOut, IsUpdateOf, A.Round, A.RoundSends, Q.Out, Keyed;
    }

    /** One call of traffic_out. It is skipped, aborted by a failing assert or a throwing `at`, or
        carried out: then all three state machines make the step of a round, and the packets are
        those of the round. */
    method TrafficOut(now: U64, randomQuorum: U64)
      returns (outcome: Outcome, ghost s: Setting, ghost tr: Trace, ghost padded: OutMaps, ghost order: seq<U64>)
      requires Valid()
      modifies this, overlay
      ensures outcome.Skipped? <==> Q.Admit(c, old(queue).Cur(), now) == Q.Skipped
      ensures Q.Admit(c, old(queue).Cur(), now) == Q.Aborted ==> outcome.Aborted?
      ensures outcome.Aborted? ==>
        Q.Admit(c, old(queue).Cur(), now) == Q.Aborted || RoundFailed(randomQuorum, s, tr, order)
      ensures outcome.Skipped? ==>
        Valid() && queue == old(queue).(clock := now) && inbox == old(inbox) && agreement == old(agreement)
        && qIn == old(qIn) && overlay.t == old(overlay.t)
      ensures outcome.Sent? ==> RoundDone(now, randomQuorum, outcome.packets, s, tr, padded, order)
    {
      hide Keyed, CarriedOut, IsUpdateOf, A.Round, A.RoundSends, Q.Out, I.CurWord, Config.Valid, RoundDone,
           RoundFailed, Q.Admit;
      outcome, order := Skipped, [];
      s := Setting(c, own, decrypt, itm, mCorrupt, maxRouting, curRound, NO_RESULT, in0);
      tr, padded := Trace([], [], [], [], [], [], [], 0, [], map[]), NO_MAPS;
      var subround := c.SubroundOf(now);
      AdmissionInWords(c, queue.Cur(), now);
      if subround % 4 != 0 || subround / 4 == curRound {
        queue := queue.(clock := now);
        return;
      }
      outcome := Aborted;
      if curRound != (subround / 4 - 1) % TWO_64 {
        return;
      }
      outcome, s, tr, padded, order := CarryOutRound(now, randomQuorum);
    }
  }
}

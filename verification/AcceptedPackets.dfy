/** Which packets the inboxes accept and which messages a batch hands over, over every run, in terms of
    the packets themselves. */
module AcceptedPackets {
  import opened Bits
  import opened Inboxes
  import opened Options
  import opened Structures

  /** One of the packets since the last group of m_corrupt + 1 was completed is from `sender`. */
  ghost predicate HeardSinceBatch(mCorrupt: nat, ps: seq<Packet>, sender: Peer) {
    exists k :: |ps| - |ps| % (mCorrupt + 1) <= k < |ps| && ps[k].sender == sender
  }

  lemma FilledRemainder(mCorrupt: nat, ps: seq<Packet>)
    ensures Filled(mCorrupt, ps) == |ps| % (mCorrupt + 1) <= |ps|
  {
    FilledIsRemainder(mCorrupt, ps);
    FilledWithin(mCorrupt, ps);
    hide Filled, Batched;
    DivUnique(|ps|, mCorrupt + 1, |Batched(mCorrupt, ps)|, Filled(mCorrupt, ps));
  }

  lemma HeardIffSender(mCorrupt: nat, ps: seq<Packet>, sender: Peer)
    requires Filled(mCorrupt, ps) == |ps| % (mCorrupt + 1) <= |ps|
    ensures HeardSinceBatch(mCorrupt, ps, sender) <==> sender in Senders(SinceBatch(mCorrupt, ps))
  {
    hide Filled;
    var from := |ps| - Filled(mCorrupt, ps);
    var since := SinceBatch(mCorrupt, ps);
    if k :| from <= k < |ps| && ps[k].sender == sender { assert since[k - from] == ps[k]; }
    if p :| p in since && p.sender == sender {
      var k :| 0 <= k < |since| && since[k] == p;
      assert ps[from + k] == p;
    }
  }

  lemma SlotSeen(mCorrupt: nat, i: Inbox, ps: seq<Packet>, sender: Peer)
    requires SlotInvariant(mCorrupt, i, ps)
    ensures SeenFrom(i, sender) <==> HeardSinceBatch(mCorrupt, ps, sender)
  {
    FilledRemainder(mCorrupt, ps);
    CollectedSenders(mCorrupt, ps);
    HeardIffSender(mCorrupt, ps, sender);
    hide Collected, Filled;
  }

  lemma ReceiveIff(own: Peer, mCorrupt: nat, s: State, p: Packet)
    requires Invariant(mCorrupt, s)
    ensures var k := p.round - s.Cur() % TWO_64;
            Receive(own, s, p) ==
              if p.receiver == own && k >= 2 then Aborted
              else if p.receiver == own && k >= 0 && !HeardSinceBatch(mCorrupt, At(s.log, s.Cur() + k), p.sender)
              then Accepted(k)
              else Ignored
  {
    hide HeardSinceBatch, At, Collected, Filled, Batched, BatchesAt, SeenFrom, SlotInvariant;
    SlotSeen(mCorrupt, s.now, At(s.log, s.Cur()), p.sender);
    SlotSeen(mCorrupt, s.next, At(s.log, s.Cur() + 1), p.sender);
  }

  /** In every run, for every packet that comes next: the client accepts it iff it is addressed to the
      client, tagged with the current or the next round, and its sender is none of those heard for that
      round since its last batch; it aborts iff the packet is addressed to it and tagged with a later
      round; and otherwise nothing changes. */
  lemma AcceptedIff(own: Peer, mCorrupt: nat, events: seq<Event>, p: Packet)
    requires Run(own, mCorrupt, events).Some?
    ensures var s, next := Run(own, mCorrupt, events).value, Run(own, mCorrupt, events + [PacketEvent(p)]);
            var k := p.round - s.Cur() % TWO_64;
            if p.receiver == own && k >= 2 then next.None?
            else if p.receiver == own && k >= 0 && !HeardSinceBatch(mCorrupt, At(s.log, s.Cur() + k), p.sender)
            then next.Some? && next.value.log == s.log + [Logged(s.Cur() + k, p)]
            else next == Some(s)
  {
    hide *;
    RunKeepsInvariant(own, mCorrupt, events);
    RunExtends(own, mCorrupt, events, PacketEvent(p));
    PacketStep(own, mCorrupt, Run(own, mCorrupt, events).value, p);
  }

  lemma PacketStep(own: Peer, mCorrupt: nat, s: State, p: Packet)
    requires Invariant(mCorrupt, s)
    ensures var next, k := Apply(own, mCorrupt, s, PacketEvent(p)), p.round - s.Cur() % TWO_64;
            if p.receiver == own && k >= 2 then next.None?
            else if p.receiver == own && k >= 0 && !HeardSinceBatch(mCorrupt, At(s.log, s.Cur() + k), p.sender)
            then next.Some? && next.value.log == s.log + [Logged(s.Cur() + k, p)]
            else next == Some(s)
  {
    hide *;
    ReceiveIff(own, mCorrupt, s, p);
    AppliedPacket(own, mCorrupt, s, p);
  }

  lemma AppliedPacket(own: Peer, mCorrupt: nat, s: State, p: Packet)
    ensures var next := Apply(own, mCorrupt, s, PacketEvent(p));
            match Receive(own, s, p)
            case Ignored => next == Some(s)
            case Aborted => next.None?
            case Accepted(k) => next.Some? && next.value.log == s.log + [Logged(s.Cur() + k, p)]
  {
    hide Receive, Contribute;
  }

  /** In every run: only what was addressed to the client has been accepted. */
  lemma {:induction false} OnlyOwnPackets(own: Peer, mCorrupt: nat, events: seq<Event>)
    requires Run(own, mCorrupt, events).Some?
    ensures forall e :: e in Run(own, mCorrupt, events).value.log ==> e.p.receiver == own
  {
    hide Contribute, SeenFrom;
    if events != [] { OnlyOwnPackets(own, mCorrupt, events[..|events| - 1]); }
  }

  /** `m` is in the list and no message before it has the same delivery time. */
  ghost predicate FirstOfItsTime(ms: seq<MessageTuple>, m: MessageTuple) {
    exists k :: 0 <= k < |ms| && ms[k] == m && forall j :: 0 <= j < k ==> ms[j].tDst != m.tDst
  }

  lemma {:induction false} KeptIffFirst(ms: seq<MessageTuple>, m: MessageTuple)
    ensures m in InsertAll(map[], ms).Values <==> FirstOfItsTime(ms, m)
  {
    if ms != [] {
      var n := |ms| - 1;
      KeptIffFirst(ms[..n], m);
      InsertAllFromNothing(ms[..n]);
      InsertAllFromNothing(ms);
      FirstStep(ms, m);
      hide FirstOfItsTime;
      var before, x := InsertAll(map[], ms[..n]), ms[n];
      if x.tDst !in before {
        assert forall t :: t in before ==> before[x.tDst := x][t] == before[t];
        assert before[x.tDst := x][x.tDst] == x;
      }
    }
  }

  lemma FirstStep(ms: seq<MessageTuple>, m: MessageTuple)
    requires ms != []
    ensures var n := |ms| - 1;
            FirstOfItsTime(ms, m) <==>
              FirstOfItsTime(ms[..n], m) || (ms[n] == m && forall y :: y in ms[..n] ==> y.tDst != m.tDst)
  {
    var n := |ms| - 1;
    if FirstOfItsTime(ms[..n], m) {
      var k :| 0 <= k < n && ms[..n][k] == m && forall j :: 0 <= j < k ==> ms[..n][j].tDst != m.tDst;
      assert ms[k] == m && forall j :: 0 <= j < k ==> ms[j] == ms[..n][j];
    }
    if FirstOfItsTime(ms, m) {
      var k :| 0 <= k < |ms| && ms[k] == m && forall j :: 0 <= j < k ==> ms[j].tDst != m.tDst;
      if k < n { assert ms[..n][k] == m && forall j :: 0 <= j < k ==> ms[..n][j] == ms[j]; }
    }
    if ms[n] == m && forall y :: y in ms[..n] ==> y.tDst != m.tDst {
      assert forall j :: 0 <= j < n ==> ms[j] in ms[..n];
    }
  }

  /** In every run: the n-th batch of a round hands over exactly the messages that are the first for
      their delivery time among those the n-th m_corrupt + 1 packets deliver. */
  lemma BatchKeepsFirst(own: Peer, mCorrupt: nat, events: seq<Event>, epoch: int, n: nat, m: MessageTuple)
    requires Run(own, mCorrupt, events).Some? && n < |BatchesAt(Run(own, mCorrupt, events).value.batches, epoch)|
    ensures var s := Run(own, mCorrupt, events).value;
            var lo, hi := Product(n, mCorrupt + 1), Product(n + 1, mCorrupt + 1);
            && lo <= hi <= |At(s.log, epoch)|
            && (m in BatchesAt(s.batches, epoch)[n].Values <==>
                  FirstOfItsTime(Concat((p: Packet) => p.deliver, At(s.log, epoch)[lo..hi]), m))
  {
    RunKeepsInvariant(own, mCorrupt, events);
    var s := Run(own, mCorrupt, events).value;
    hide At, Collected, BatchesAt, Batched, Filled, Run, FirstOfItsTime, InsertAll, SlotInvariant, Product;
    assert BatchesAt(s.batches, epoch) == Batched(mCorrupt, At(s.log, epoch));
    BatchIsBlock(mCorrupt, At(s.log, epoch), n);
    var block := At(s.log, epoch)[Product(n, mCorrupt + 1)..Product(n + 1, mCorrupt + 1)];
    KeptIffFirst(Arrived(block), m);
    ArrivedAlike(block);
  }

  lemma {:induction false} ArrivedAlike(ps: seq<Packet>)
    ensures Arrived(ps) == Concat((p: Packet) => p.deliver, ps)
  {
    if ps != [] { ArrivedAlike(ps[..|ps| - 1]); }
  }
}

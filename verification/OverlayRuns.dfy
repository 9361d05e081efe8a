/** What the updates of the overlay do over a run: what is in use between two reconfigurations and what
    comes into use at the next, in terms of the messages received in between; and which overlay messages
    a client sends. Types of messages and phases of the period are written as the numbers they are. */
module OverlayRuns {
  import opened Bits
  import opened Hypercube
  import opened Ordering
  import opened Outbound
  import opened Overlay
  import opened Sequences
  import opened Structures

  /** What an update is given, and the onids for which it sends messages in step (9). */
  datatype Step = Step(round: U64, setS: seq<OverlayMessage>, randomQuorum: U64, order: seq<U64>)

  function After(t: Tables, s: Step, d: nat): Tables
    requires d <= 64
  {
    AfterSending(Prepared(t, s.round, s.setS, s.randomQuorum, d), s.round, s.order, d)
  }

  function AfterAll(t: Tables, steps: seq<Step>, d: nat): Tables
    requires d <= 64
  {
    if steps == [] then t else After(AfterAll(t, steps[..|steps| - 1], d), steps[|steps| - 1], d)
  }

  /** The messages received in the given updates. */
  function Heard(steps: seq<Step>): seq<OverlayMessage> { FlatMap((s: Step) => s.setS, steps) }

  predicate Reconfigures(s: Step, d: nat) { s.round % ((d + 7) / 2) == 1 }

  // ---------------------------------------------------------------- what is gathered

  /** The senders of introductions. */
  function Introduced(heard: seq<OverlayMessage>): seq<Peer> {
    Map((m: OverlayMessage) => m.peer, Filter((m: OverlayMessage) => m.t == 3, heard))
  }

  /** The peers announced as the next to emulate `o`. */
  function Successors(heard: seq<OverlayMessage>, o: U64): seq<Peer> {
    Map((m: OverlayMessage) => m.peer, Filter((m: OverlayMessage) => m.t == 1 && m.onid == o, heard))
  }

  /** Some hand-over lists `p` under `o`. */
  ghost predicate HandedOver(heard: seq<OverlayMessage>, o: U64, p: Peer) {
    exists m :: m in heard && m.t == 2 && p in RouteAt(m.gammaRoute, o)
  }

  /** `t` has gathered what was heard since quorum `drawn` was drawn. */
  ghost predicate Gathered(t: Tables, drawn: U64, heard: seq<OverlayMessage>) {
    && t.onidEmulNew == drawn
    && t.gammaSendNew == Introduced(heard)
    && (forall o: U64 :: RouteAt(t.gammaRouteSucc, o) == Successors(heard, o))
    && (forall o: U64, p :: p in RouteAt(t.gammaRouteNew, o) <==> HandedOver(heard, o, p))
  }

  lemma HeardOneMore(heard: seq<OverlayMessage>, m: OverlayMessage)
    ensures Introduced(heard + [m]) == Introduced(heard) + (if m.t == 3 then [m.peer] else [])
    ensures forall o: U64 ::
              Successors(heard + [m], o) == Successors(heard, o) + (if m.t == 1 && m.onid == o then [m.peer] else [])
    ensures forall o: U64, p ::
              HandedOver(heard + [m], o, p) <==> HandedOver(heard, o, p) || (m.t == 2 && p in RouteAt(m.gammaRoute, o))
  {
    FilterStep((x: OverlayMessage) => x.t == 3, heard, m);
    forall o: U64
      ensures Successors(heard + [m], o) == Successors(heard, o) + (if m.t == 1 && m.onid == o then [m.peer] else [])
    {
      FilterStep((x: OverlayMessage) => x.t == 1 && x.onid == o, heard, m);
    }
    forall o: U64, p
      ensures HandedOver(heard + [m], o, p) <==> HandedOver(heard, o, p) || (m.t == 2 && p in RouteAt(m.gammaRoute, o))
    {
      HandedOverOneMore(heard, m, o, p);
    }
  }

  lemma HandedOverOneMore(heard: seq<OverlayMessage>, m: OverlayMessage, o: U64, p: Peer)
    ensures HandedOver(heard + [m], o, p) <==> HandedOver(heard, o, p) || (m.t == 2 && p in RouteAt(m.gammaRoute, o))
  {
    if HandedOver(heard, o, p) {
      var x :| x in heard && x.t == 2 && p in RouteAt(x.gammaRoute, o);
      assert x in heard + [m];
    }
    assert m in heard + [m];
  }

  lemma AbsorbOneGathers(t: Tables, m: OverlayMessage, drawn: U64, heard: seq<OverlayMessage>)
    requires Gathered(t, drawn, heard)
    ensures Gathered(Absorbed(t, m), drawn, heard + [m])
  {
    HeardOneMore(heard, m);
    AbsorbedLists(t, m);
    hide Introduced, Successors, HandedOver, Absorbed;
  }

  /** What one message adds to the tables. */
  lemma AbsorbedLists(t: Tables, m: OverlayMessage)
    ensures var t' := Absorbed(t, m);
            && t'.onidEmulNew == t.onidEmulNew
            && t'.gammaSendNew == t.gammaSendNew + (if m.t == 3 then [m.peer] else [])
            && (forall o: U64 :: RouteAt(t'.gammaRouteSucc, o)
                  == RouteAt(t.gammaRouteSucc, o) + (if m.t == 1 && m.onid == o then [m.peer] else []))
            && (forall o: U64, p :: p in RouteAt(t'.gammaRouteNew, o) <==>
                  p in RouteAt(t.gammaRouteNew, o) || (m.t == 2 && p in RouteAt(m.gammaRoute, o)))
  {
    hide MergeTables, MergeList;
    if m.t == 2 {
      forall o: U64, p
        ensures p in RouteAt(MergeTables(t.gammaRouteNew, m.gammaRoute), o) <==>
                  p in RouteAt(t.gammaRouteNew, o) || p in RouteAt(m.gammaRoute, o)
      {
        MergedMember(t.gammaRouteNew, m.gammaRoute, o, p);
      }
    }
  }

  lemma MergedMember(base: Table, extra: Table, o: U64, p: Peer)
    ensures p in RouteAt(MergeTables(base, extra), o) <==> p in RouteAt(base, o) || p in RouteAt(extra, o)
  {
    MergeTablesAt(base, extra, o);
    MergeListProperties(RouteAt(base, o), RouteAt(extra, o));
    hide MergeTables, MergeList;
    assert p in MergeList(RouteAt(base, o), RouteAt(extra, o))
      <==> p in Elements(MergeList(RouteAt(base, o), RouteAt(extra, o)));
  }

  lemma {:induction false} AbsorbingGathers(t: Tables, setS: seq<OverlayMessage>, drawn: U64,
                                            heard: seq<OverlayMessage>)
    requires Gathered(t, drawn, heard)
    ensures Gathered(AbsorbedAll(t, setS), drawn, heard + setS)
  {
    hide Gathered, Absorbed;
    if setS == [] {
      assert heard + setS == heard;
    } else {
      var n := |setS| - 1;
      AbsorbingGathers(t, setS[..n], drawn, heard);
      AbsorbOneGathers(AbsorbedAll(t, setS[..n]), setS[n], drawn, heard + setS[..n]);
      assert heard + setS[..n] + [setS[n]] == heard + setS;
    }
  }

  /** Sending changes nothing of this. */
  lemma SendingKeepsGathered(t: Tables, s: Step, d: nat, drawn: U64, heard: seq<OverlayMessage>)
    requires d <= 64 && Gathered(t, drawn, heard)
    ensures Gathered(AfterSending(t, s.round, s.order, d), drawn, heard)
  {
    hide Introduced, Successors, HandedOver, TouchAll, HopsOf;
  }

  lemma StagingKeepsGathered(t: Tables, s: Step, d: nat, drawn: U64, heard: seq<OverlayMessage>)
    requires Gathered(t, drawn, heard) && !Reconfigures(s, d)
    ensures Gathered(Staged(t, s.round, s.randomQuorum, d), drawn, heard)
  {
    hide Introduced, Successors, HandedOver, Rotated;
  }

  lemma RotationGathersNothing(t: Tables, s: Step, d: nat)
    requires Reconfigures(s, d)
    ensures Gathered(Staged(t, s.round, s.randomQuorum, d), s.randomQuorum, [])
  {
    assert Period(d) >= 3;
    var rotated := Rotated(t, s.randomQuorum);
    assert Staged(t, s.round, s.randomQuorum, d) == rotated by { hide Rotated; }
  }

  lemma StepGathers(t: Tables, s: Step, d: nat, drawn: U64, heard: seq<OverlayMessage>)
    requires d <= 64
    requires if Reconfigures(s, d) then drawn == s.randomQuorum && heard == [] else Gathered(t, drawn, heard)
    ensures Gathered(After(t, s, d), drawn, heard + s.setS)
  {
    if Reconfigures(s, d) {
      RotationGathersNothing(t, s, d);
    } else {
      StagingKeepsGathered(t, s, d, drawn, heard);
    }
    hide Gathered, Staged, AbsorbedAll, AfterSending;
    AbsorbingGathers(Staged(t, s.round, s.randomQuorum, d), s.setS, drawn, heard);
    SendingKeepsGathered(Prepared(t, s.round, s.setS, s.randomQuorum, d), s, d, drawn, heard + s.setS);
  }

  /** The first of the updates reconfigures, the others do not. */
  ghost predicate OnePeriod(steps: seq<Step>, d: nat) {
    && steps != [] && Reconfigures(steps[0], d)
    && forall k :: 1 <= k < |steps| ==> !Reconfigures(steps[k], d)
  }

  lemma HeardStep(steps: seq<Step>)
    requires steps != []
    ensures Heard(steps) == Heard(steps[..|steps| - 1]) + steps[|steps| - 1].setS
  {
  }

  lemma {:induction false} PeriodGathers(t: Tables, steps: seq<Step>, d: nat)
    requires d <= 64 && OnePeriod(steps, d)
    ensures Gathered(AfterAll(t, steps, d), steps[0].randomQuorum, Heard(steps))
  {
    hide Gathered, After, Reconfigures;
    var n := |steps| - 1;
    HeardStep(steps);
    if n == 0 {
      assert steps[..n] == [] && Heard(steps[..n]) == [];
      StepGathers(t, steps[0], d, steps[0].randomQuorum, []);
    } else {
      PeriodGathers(t, steps[..n], d);
      hide Heard;
      StepGathers(AfterAll(t, steps[..n], d), steps[n], d, steps[0].randomQuorum, Heard(steps[..n]));
    }
  }

  // ---------------------------------------------------------------- what is in use

  /** The same quorum and lists are in use. */
  ghost predicate SameInUse(t: Tables, t': Tables) {
    && t'.onidEmul == t.onidEmul && t'.onidEmulPrev == t.onidEmulPrev
    && t'.gammaAgree == t.gammaAgree && t'.gammaSend == t.gammaSend
    && (forall o: U64 :: RouteAt(t'.gammaRoute, o) == RouteAt(t.gammaRoute, o))
    && t'.gammaAgreePrev == t.gammaAgreePrev
  }

  lemma {:induction false} AbsorbingKeepsUse(t: Tables, setS: seq<OverlayMessage>)
    ensures SameInUse(t, AbsorbedAll(t, setS))
    ensures AbsorbedAll(t, setS).gammaReceive == t.gammaReceive
    ensures AbsorbedAll(t, setS).gammaRoutePrev == t.gammaRoutePrev
  {
    hide SameInUse, Absorbed;
    if setS == [] {
      InUseAlike(t, t, t);
    } else {
      AbsorbingKeepsUse(t, setS[..|setS| - 1]);
      var before := AbsorbedAll(t, setS[..|setS| - 1]);
      AbsorbOneKeepsUse(before, setS[|setS| - 1]);
      InUseAlike(t, before, AbsorbedAll(t, setS));
    }
  }

  lemma InUseAlike(a: Tables, b: Tables, c: Tables)
    ensures SameInUse(a, a)
    ensures SameInUse(a, b) && SameInUse(b, c) ==> SameInUse(a, c)
  {
  }

  lemma AbsorbOneKeepsUse(t: Tables, m: OverlayMessage)
    ensures SameInUse(t, Absorbed(t, m))
    ensures Absorbed(t, m).gammaReceive == t.gammaReceive
    ensures Absorbed(t, m).gammaRoutePrev == t.gammaRoutePrev
  {
    hide MergeTables, MergeList, AppendAll;
  }

  lemma SendingKeepsUse(t: Tables, s: Step, d: nat)
    requires d <= 64
    ensures SameInUse(t, AfterSending(t, s.round, s.order, d))
    ensures AfterSending(t, s.round, s.order, d).gammaReceive == t.gammaReceive
    ensures AfterSending(t, s.round, s.order, d).gammaRoutePrev == t.gammaRoutePrev
  {
    var hops := HopsOf(s.order, t.onidEmul, d);
    forall o: U64 ensures RouteAt(TouchAll(t.gammaRoute, hops), o) == RouteAt(t.gammaRoute, o) {
      TouchKeepsLists(t.gammaRoute, hops, o);
    }
    hide TouchAll, HopsOf;
  }

  lemma StagingKeepsUse(t: Tables, s: Step, d: nat)
    requires !Reconfigures(s, d)
    ensures SameInUse(t, Staged(t, s.round, s.randomQuorum, d))
  {
    hide Rotated;
    HandOverPhases(d);
  }

  /** Whatever is received: between two reconfigurations the client keeps its quorum and its lists, and
      no update at all changes gamma_receive. */
  lemma StepKeepsUse(t: Tables, s: Step, d: nat)
    requires d <= 64
    ensures !Reconfigures(s, d) ==> SameInUse(t, After(t, s, d))
    ensures After(t, s, d).gammaReceive == t.gammaReceive
  {
    if !Reconfigures(s, d) { StagingKeepsUse(t, s, d); }
    StagingKeepsReceive(t, s, d);
    hide Staged, AbsorbedAll, AfterSending;
    AbsorbingKeepsUse(Staged(t, s.round, s.randomQuorum, d), s.setS);
    SendingKeepsUse(Prepared(t, s.round, s.setS, s.randomQuorum, d), s, d);
  }

  lemma StagingKeepsReceive(t: Tables, s: Step, d: nat)
    ensures Staged(t, s.round, s.randomQuorum, d).gammaReceive == t.gammaReceive
  {
  }

  lemma {:induction false} ReceiveNeverChanges(t: Tables, steps: seq<Step>, d: nat)
    requires d <= 64
    ensures AfterAll(t, steps, d).gammaReceive == t.gammaReceive
  {
    hide After;
    if steps != [] {
      ReceiveNeverChanges(t, steps[..|steps| - 1], d);
      StepKeepsUse(AfterAll(t, steps[..|steps| - 1], d), steps[|steps| - 1], d);
    }
  }

  lemma {:induction false} PeriodKeepsUse(t: Tables, steps: seq<Step>, d: nat)
    requires d <= 64 && OnePeriod(steps, d)
    ensures SameInUse(After(t, steps[0], d), AfterAll(t, steps, d))
  {
    hide After, Reconfigures;
    var n := |steps| - 1;
    if n == 0 {
      assert AfterAll(t, steps[..0], d) == t;
    } else {
      PeriodKeepsUse(t, steps[..n], d);
      StepKeepsUse(AfterAll(t, steps[..n], d), steps[n], d);
    }
  }

  // ---------------------------------------------------------------- reconfiguration

  lemma RotationUses(t: Tables, s: Step, d: nat)
    requires d <= 64 && Reconfigures(s, d)
    ensures var t' := After(t, s, d);
            && t'.onidEmul == t.onidEmulNew && t'.onidEmulPrev == t.onidEmul && t'.gammaSend == t.gammaSendNew
            && (forall o: U64 :: RouteAt(t'.gammaRoute, o) == RouteAt(t.gammaRouteNew, o))
            && t'.gammaAgree == RouteAt(t.gammaRouteNew, t.onidEmulNew)
            && (forall o: U64 :: RouteAt(t'.gammaRoutePrev, o)
                  == if o == t.onidEmul then RouteAt(t.gammaRouteSucc, o) else [])
            && (forall o: U64 :: RouteAt(t'.gammaAgreePrev, o) == RouteAt(t.gammaAgreePrev, o)
                  + if o == t.onidEmul then RouteAt(t.gammaRouteSucc, o) else [])
  {
    assert Period(d) >= 3;
    var rotated := Rotated(t, s.randomQuorum);
    assert Staged(t, s.round, s.randomQuorum, d) == rotated by { hide Rotated; }
    AbsorbingKeepsUse(rotated, s.setS);
    SendingKeepsUse(Prepared(t, s.round, s.setS, s.randomQuorum, d), s, d);
    hide Staged, AbsorbedAll, AfterSending;
  }

  /** A reconfiguration, after any run of updates since the one before: the client emulates the quorum it
      drew then; it announces to whoever has introduced itself since; its table lists exactly the peers
      handed over to it since, and it agrees with those handed over for its quorum; the peers it was told
      of as successors of its old quorum it keeps for that, in one list alone and in the other behind those
      it has. gamma_receive stays as it was. */
  lemma Reconfigured(t: Tables, steps: seq<Step>, s: Step, d: nat)
    requires d <= 64 && OnePeriod(steps, d) && Reconfigures(s, d)
    ensures var t', heard := AfterAll(t, steps + [s], d), Heard(steps);
            && t'.onidEmul == steps[0].randomQuorum
            && t'.onidEmulPrev == After(t, steps[0], d).onidEmul
            && t'.gammaSend == Introduced(heard)
            && (forall o: U64, p :: p in RouteAt(t'.gammaRoute, o) <==> HandedOver(heard, o, p))
            && t'.gammaAgree == RouteAt(t'.gammaRoute, steps[0].randomQuorum)
            && (forall o: U64 ::
                  var succ := if o == t'.onidEmulPrev then Successors(heard, o) else [];
                  RouteAt(t'.gammaRoutePrev, o) == succ
                  && RouteAt(t'.gammaAgreePrev, o) == RouteAt(After(t, steps[0], d).gammaAgreePrev, o) + succ)
            && t'.gammaReceive == t.gammaReceive
  {
    PeriodGathers(t, steps, d);
    PeriodKeepsUse(t, steps, d);
    ReceiveNeverChanges(t, steps + [s], d);
    assert (steps + [s])[..|steps|] == steps;
    hide After, Heard, HandedOver, Filter, Reconfigures, OnePeriod;
    RotationUses(AfterAll(t, steps, d), s, d);
  }

  /** The update in the round after a reconfiguration adds the own quorum's list to the lists kept for
      previous quorums; no other update before the next changes them. */
  lemma PreviousLists(t: Tables, s: Step, d: nat)
    requires d <= 64 && !Reconfigures(s, d)
    ensures forall o: U64 :: RouteAt(After(t, s, d).gammaRoutePrev, o) == RouteAt(t.gammaRoutePrev, o)
              + if s.round % ((d + 7) / 2) == 2 && o == t.onidEmul then RouteAt(t.gammaRoute, o) else []
  {
    StagedPreviousLists(t, s, d);
    AbsorbingKeepsUse(Staged(t, s.round, s.randomQuorum, d), s.setS);
    SendingKeepsUse(Prepared(t, s.round, s.setS, s.randomQuorum, d), s, d);
    hide Staged, AbsorbedAll, AfterSending;
  }

  lemma StagedPreviousLists(t: Tables, s: Step, d: nat)
    requires !Reconfigures(s, d)
    ensures forall o: U64 :: RouteAt(Staged(t, s.round, s.randomQuorum, d).gammaRoutePrev, o)
              == RouteAt(t.gammaRoutePrev, o)
                 + if s.round % ((d + 7) / 2) == 2 && o == t.onidEmul then RouteAt(t.gammaRoute, o) else []
  {
    hide Rotated;
    HandOverPhases(d);
  }

  // ---------------------------------------------------------------- what is sent

  /** `x` is put in the queue for onid `o`: a request to emulate the quorum just drawn, a request passed
      on, or word of a request to the neighbourhood. */
  ghost predicate QueuedFor(round: U64, setS: seq<OverlayMessage>, randomQuorum: U64, own: Peer, onidEmul: U64, d: nat,
                            o: U64, x: OverlayMessage)
  {
    || (round % ((d + 7) / 2) == 1 && o == randomQuorum && x == OverlayMessage(0, randomQuorum, own, map[], []))
    || QueuedForHeard(setS, onidEmul, d, o, x)
  }

  ghost predicate QueuedForHeard(setS: seq<OverlayMessage>, onidEmul: U64, d: nat, o: U64, x: OverlayMessage) {
    exists m :: m in setS && QueuedForOne(m, onidEmul, d, o, x)
  }

  ghost predicate QueuedForOne(m: OverlayMessage, onidEmul: U64, d: nat, o: U64, x: OverlayMessage) {
    m.t == 0 && ((o == m.onid && m.onid != onidEmul && x == m)
                 || (o in Neighborhood(onidEmul, d) && x == OverlayMessage(1, m.onid, m.peer, map[], [])))
  }

  lemma {:induction false} QueuedIff(q: Queue, onidEmul: U64, setS: seq<OverlayMessage>, d: nat, o: U64,
                                     x: OverlayMessage)
    requires d <= 64
    ensures x in QueueAt(QueuedAll(q, onidEmul, setS, d), o) <==>
              x in QueueAt(q, o) || QueuedForHeard(setS, onidEmul, d, o, x)
  {
    hide Queued, QueuedForOne;
    if setS != [] {
      var n := |setS| - 1;
      QueuedIff(q, onidEmul, setS[..n], d, o, x);
      QueuedOne(QueuedAll(q, onidEmul, setS[..n], d), onidEmul, setS[n], d, o, x);
      assert setS == setS[..n] + [setS[n]];
      assert forall m :: m in setS <==> m in setS[..n] || m == setS[n];
    }
  }

  lemma QueuedOne(q: Queue, onidEmul: U64, m: OverlayMessage, d: nat, o: U64, x: OverlayMessage)
    requires d <= 64
    ensures x in QueueAt(Queued(q, onidEmul, m, d), o) <==> x in QueueAt(q, o) || QueuedForOne(m, onidEmul, d, o, x)
  {
    if m.t == EMULATE_REQUEST {
      hide Neighborhood, EnqueueEach;
      NeighborhoodInRange(onidEmul, d);
      EnqueueEachKeeps(if m.onid != onidEmul then Enqueue(q, m.onid, m) else q, Neighborhood(onidEmul, d),
                       EmulateRequestReceived(m.onid, m.peer), o, x);
    }
  }

  lemma InitiallyQueued(round: U64, own: Peer, randomQuorum: U64, d: nat, o: U64, x: OverlayMessage)
    ensures x in QueueAt(InitialQueue(round, own, randomQuorum, d), o) <==>
              round % ((d + 7) / 2) == 1 && o == randomQuorum && x == OverlayMessage(0, randomQuorum, own, map[], [])
  {
  }

  lemma OutQueueIff(t: Tables, round: U64, setS: seq<OverlayMessage>, randomQuorum: U64, own: Peer, d: nat,
                    o: U64, x: OverlayMessage)
    requires d <= 64
    ensures x in QueueAt(OutQueue(t, round, setS, randomQuorum, own, d), o) <==>
              QueuedFor(round, setS, randomQuorum, own, Prepared(t, round, setS, randomQuorum, d).onidEmul, d, o, x)
  {
    hide QueuedAll, InitialQueue, QueuedForHeard, Staged, AbsorbedAll;
    var staged := Staged(t, round, randomQuorum, d);
    AbsorbingKeepsUse(staged, setS);
    QueuedIff(InitialQueue(round, own, randomQuorum, d), staged.onidEmul, setS, d, o, x);
    InitiallyQueued(round, own, randomQuorum, d, o, x);
  }

  lemma HandedIff(ready: Tables, round: U64, own: Peer, order: seq<U64>, d: nat, i: Peer, x: OverlayMessage)
    requires d <= 64
    ensures var t' := AfterSending(ready, round, order, d);
            Entry(i, x) in HandOverEntries(ready, round, own, d) <==>
              round % ((d + 7) / 2) == d + 2 && i in RouteAt(t'.gammaRouteSucc, t'.onidEmul)
              && x == OverlayMessage(2, 0, Peer(0, Uri(0, 0, 0, 0, 0)), t'.gammaRouteSucc, t'.gammaReceive)
  {
    hide TouchAll, HopsOf;
    HandOverPhases(d);
    var t' := AfterSending(ready, round, order, d);
    if round % ((d + 7) / 2) == d + 2 {
      var peers := RouteAt(ready.gammaRouteSucc, ready.onidEmul);
      var m := HandOver(t'.gammaRouteSucc, t'.gammaReceive);
      assert HandOverEntries(ready, round, own, d) == ToEach(m, peers);
      if x == m && i in peers {
        var k :| 0 <= k < |peers| && peers[k] == i;
        assert ToEach(m, peers)[k] == Entry(i, x);
      }
    }
  }

  lemma ForwardedIff(t: Tables, round: U64, setS: seq<OverlayMessage>, randomQuorum: U64, own: Peer, d: nat,
                     order: seq<U64>, i: Peer, x: OverlayMessage)
    requires d <= 64 && Elements(order) == OutQueue(t, round, setS, randomQuorum, own, d).Keys
    ensures var ready := Prepared(t, round, setS, randomQuorum, d);
            var q, t' := OutQueue(t, round, setS, randomQuorum, own, d), AfterSending(ready, round, order, d);
            Entry(i, x) in ForwardEntries(order, q, Sending(ready, round, d), d) <==>
              exists o: U64 :: QueuedFor(round, setS, randomQuorum, own, t'.onidEmul, d, o, x)
                               && i in RouteAt(t'.gammaRoute, NextHop(t'.onidEmul, o, d))
  {
    hide *;
    var ready, q := Prepared(t, round, setS, randomQuorum, d), OutQueue(t, round, setS, randomQuorum, own, d);
    var t' := AfterSending(ready, round, order, d);
    ForwardedTo(order, q, Sending(ready, round, d), d, Entry(i, x));
    SameRoute(ready, round, order, d);
    forall o: U64
      ensures o in order && x in QueueAt(q, o) <==> QueuedFor(round, setS, randomQuorum, own, t'.onidEmul, d, o, x)
    {
      OutQueueIff(t, round, setS, randomQuorum, own, d, o, x);
      InQueue(q, o, x, order);
    }
  }

  lemma InQueue(q: Queue, o: U64, x: OverlayMessage, order: seq<U64>)
    requires Elements(order) == q.Keys
    ensures x in QueueAt(q, o) ==> o in order
  {
    assert o in order <==> o in Elements(order);
  }

  lemma SameRoute(ready: Tables, round: U64, order: seq<U64>, d: nat)
    requires d <= 64
    ensures var t', sending := AfterSending(ready, round, order, d), Sending(ready, round, d);
            && t'.onidEmul == sending.onidEmul == ready.onidEmul
            && forall o: int :: RouteAt(t'.gammaRoute, o) == RouteAt(sending.gammaRoute, o)
  {
    SendingKeepsUse(ready, Step(round, [], 0, order), d);
    hide TouchAll, HopsOf;
    var t', sending := AfterSending(ready, round, order, d), Sending(ready, round, d);
    forall o: int ensures RouteAt(t'.gammaRoute, o) == RouteAt(sending.gammaRoute, o) {
      if 0 <= o < TWO_64 { assert RouteAt(t'.gammaRoute, o as U64) == RouteAt(ready.gammaRoute, o as U64); }
    }
  }

  /** An update sends `x` to peer `i` iff, in phase d + 2, it is the hand-over of the successor table and
      `i` a successor for the client's quorum, or it is queued for some onid and `i` is listed for the
      quorum next on the way there. No introduction is ever sent. */
  lemma SentIff(t: Tables, round: U64, setS: seq<OverlayMessage>, randomQuorum: U64, own: Peer, d: nat,
                t': Tables, ov: OverlayResult, order: seq<U64>, i: Peer, x: OverlayMessage)
    requires d <= 64 && IsUpdateOf(t, round, setS, randomQuorum, own, d, t', ov, order)
    ensures i in ov.structure && x in ov.structure[i] <==>
              || (round % ((d + 7) / 2) == d + 2 && i in RouteAt(t'.gammaRouteSucc, t'.onidEmul)
                  && x == OverlayMessage(2, 0, Peer(0, Uri(0, 0, 0, 0, 0)), t'.gammaRouteSucc, t'.gammaReceive))
              || exists o: U64 :: QueuedFor(round, setS, randomQuorum, own, t'.onidEmul, d, o, x)
                                  && i in RouteAt(t'.gammaRoute, NextHop(t'.onidEmul, o, d))
  {
    hide *;
    UpdateSends(t, round, setS, randomQuorum, own, d, t', ov, order);
    var ready, q := Prepared(t, round, setS, randomQuorum, d), OutQueue(t, round, setS, randomQuorum, own, d);
    var handed := HandOverEntries(ready, round, own, d);
    var forwarded := ForwardEntries(order, q, Sending(ready, round, d), d);
    FilledMembers(handed + forwarded, i, x);
    HandedIff(ready, round, own, order, d, i, x);
    ForwardedIff(t, round, setS, randomQuorum, own, d, order, i, x);
    AtIff(ov.structure, i, x);
  }

  lemma UpdateSends(t: Tables, round: U64, setS: seq<OverlayMessage>, randomQuorum: U64, own: Peer, d: nat,
                    t': Tables, ov: OverlayResult, order: seq<U64>)
    requires d <= 64 && IsUpdateOf(t, round, setS, randomQuorum, own, d, t', ov, order)
    ensures var ready := Prepared(t, round, setS, randomQuorum, d);
            var q := OutQueue(t, round, setS, randomQuorum, own, d);
            && Elements(order) == q.Keys && t' == AfterSending(ready, round, order, d)
            && ov.structure == Filled(HandOverEntries(ready, round, own, d)
                                      + ForwardEntries(order, q, Sending(ready, round, d), d))
  {
    hide Prepared, OutQueue, AfterSending, HandOverEntries, ForwardEntries, Filled, ResultRoute;
  }

  lemma AtIff<T>(m: map<Peer, seq<T>>, i: Peer, x: T)
    ensures x in At(m, i) <==> i in m && x in m[i]
  {
  }

  // ---------------------------------------------------------------- which onids have an entry

  ghost predicate NoEmptyQueue(q: Queue) { forall o :: o in q ==> q[o] != [] }

  lemma {:induction false} EnqueueEachNotEmpty(q: Queue, onids: seq<nat>, m: OverlayMessage)
    requires NoEmptyQueue(q) && forall k :: 0 <= k < |onids| ==> onids[k] < TWO_64
    ensures NoEmptyQueue(EnqueueEach(q, onids, m))
  {
    if onids != [] { EnqueueEachNotEmpty(q, onids[..|onids| - 1], m); }
  }

  lemma {:induction false} QueuedNotEmpty(q: Queue, onidEmul: U64, setS: seq<OverlayMessage>, d: nat)
    requires d <= 64 && NoEmptyQueue(q)
    ensures NoEmptyQueue(QueuedAll(q, onidEmul, setS, d))
  {
    hide Neighborhood, EnqueueEach, NoEmptyQueue;
    if setS != [] {
      var n := |setS| - 1;
      QueuedNotEmpty(q, onidEmul, setS[..n], d);
      QueuedOneNotEmpty(QueuedAll(q, onidEmul, setS[..n], d), onidEmul, setS[n], d);
    }
  }

  lemma QueuedOneNotEmpty(q: Queue, onidEmul: U64, m: OverlayMessage, d: nat)
    requires d <= 64 && NoEmptyQueue(q)
    ensures NoEmptyQueue(Queued(q, onidEmul, m, d))
  {
    if m.t == EMULATE_REQUEST {
      hide Neighborhood, EnqueueEach;
      NeighborhoodInRange(onidEmul, d);
      EnqueueEachNotEmpty(if m.onid != onidEmul then Enqueue(q, m.onid, m) else q, Neighborhood(onidEmul, d),
                          EmulateRequestReceived(m.onid, m.peer));
    }
  }

  lemma {:induction false} TouchedKeys(m: Table, onids: seq<U64>, o: U64)
    ensures o in TouchAll(m, onids) <==> o in m || o in onids
  {
    if onids != [] {
      var n := |onids| - 1;
      TouchedKeys(m, onids[..n], o);
      assert onids == onids[..n] + [onids[n]];
    }
  }

  /** Something is queued for an onid on whose way `o` comes next. */
  ghost predicate OnTheWay(round: U64, setS: seq<OverlayMessage>, randomQuorum: U64, own: Peer, onidEmul: U64, d: nat,
                           o: U64)
  {
    exists q: U64, x :: QueuedFor(round, setS, randomQuorum, own, onidEmul, d, q, x) && NextHop(onidEmul, q, d) == o
  }

  lemma OnTheWayIff(t: Tables, round: U64, setS: seq<OverlayMessage>, randomQuorum: U64, own: Peer, d: nat,
                    order: seq<U64>, o: U64)
    requires d <= 64 && Elements(order) == OutQueue(t, round, setS, randomQuorum, own, d).Keys
    ensures var onidEmul := Prepared(t, round, setS, randomQuorum, d).onidEmul;
            o in HopsOf(order, onidEmul, d) <==> OnTheWay(round, setS, randomQuorum, own, onidEmul, d, o)
  {
    hide Prepared, Staged, QueuedAll, NextHop, QueuedFor;
    var q := OutQueue(t, round, setS, randomQuorum, own, d);
    var onidEmul := Prepared(t, round, setS, randomQuorum, d).onidEmul;
    QueuedNotEmpty(InitialQueue(round, own, randomQuorum, d), Staged(t, round, randomQuorum, d).onidEmul, setS, d);
    if o in HopsOf(order, onidEmul, d) {
      var k :| 0 <= k < |order| && HopsOf(order, onidEmul, d)[k] == o;
      assert order[k] in Elements(order) && q[order[k]] != [];
      var x := q[order[k]][0];
      OutQueueIff(t, round, setS, randomQuorum, own, d, order[k], x);
    }
    if OnTheWay(round, setS, randomQuorum, own, onidEmul, d, o) {
      var p: U64, x :| QueuedFor(round, setS, randomQuorum, own, onidEmul, d, p, x) && NextHop(onidEmul, p, d) == o;
      OutQueueIff(t, round, setS, randomQuorum, own, d, p, x);
      assert p in Elements(order);
      var k :| 0 <= k < |order| && order[k] == p;
      assert HopsOf(order, onidEmul, d)[k] == o;
    }
  }

  /** The onids that have an entry after an update, if only an empty one: those that had one before - in
      the table that comes into use, at a reconfiguration - the own one in the first two rounds of a period,
      and every next hop of something queued. The table returned has one more for every list that is not
      empty among those kept for previous quorums. */
  lemma KnownOnids(t: Tables, round: U64, setS: seq<OverlayMessage>, randomQuorum: U64, own: Peer, d: nat,
                   t': Tables, ov: OverlayResult, order: seq<U64>, o: U64)
    requires d <= 64 && IsUpdateOf(t, round, setS, randomQuorum, own, d, t', ov, order)
    ensures o in t'.gammaRoute <==>
              || (if round % ((d + 7) / 2) == 1 then o in t.gammaRouteNew || o == t.onidEmulNew
                  else o in t.gammaRoute || (round % ((d + 7) / 2) == 2 && o == t.onidEmul))
              || OnTheWay(round, setS, randomQuorum, own, t'.onidEmul, d, o)
    ensures o in ov.gammaRoute <==>
              o in t'.gammaRoute || RouteAt(t'.gammaAgreePrev, o) != [] || RouteAt(t'.gammaRoutePrev, o) != []
  {
    hide *;
    var ready := Prepared(t, round, setS, randomQuorum, d);
    UpdateSends(t, round, setS, randomQuorum, own, d, t', ov, order);
    PreparedKeys(t, round, setS, randomQuorum, d, o);
    SentKeys(ready, round, order, d, o);
    OnTheWayIff(t, round, setS, randomQuorum, own, d, order, o);
    ReturnedKeys(t, round, setS, randomQuorum, own, d, t', ov, order, o);
  }

  lemma SentKeys(ready: Tables, round: U64, order: seq<U64>, d: nat, o: U64)
    requires d <= 64
    ensures var t' := AfterSending(ready, round, order, d);
            t'.onidEmul == ready.onidEmul
            && (o in t'.gammaRoute <==> o in ready.gammaRoute || o in HopsOf(order, ready.onidEmul, d))
  {
    hide TouchAll, HopsOf;
    TouchedKeys(ready.gammaRoute, HopsOf(order, ready.onidEmul, d), o);
  }

  lemma PreparedKeys(t: Tables, round: U64, setS: seq<OverlayMessage>, randomQuorum: U64, d: nat, o: U64)
    ensures o in Prepared(t, round, setS, randomQuorum, d).gammaRoute <==>
              if round % ((d + 7) / 2) == 1 then o in t.gammaRouteNew || o == t.onidEmulNew
              else o in t.gammaRoute || (round % ((d + 7) / 2) == 2 && o == t.onidEmul)
  {
    HandOverPhases(d);
    AbsorbingKeepsLists(Staged(t, round, randomQuorum, d), setS);
    hide AbsorbedAll;
  }

  lemma ReturnedKeys(t: Tables, round: U64, setS: seq<OverlayMessage>, randomQuorum: U64, own: Peer, d: nat,
                     t': Tables, ov: OverlayResult, order: seq<U64>, o: U64)
    requires d <= 64 && IsUpdateOf(t, round, setS, randomQuorum, own, d, t', ov, order)
    ensures o in ov.gammaRoute <==>
              o in t'.gammaRoute || RouteAt(t'.gammaAgreePrev, o) != [] || RouteAt(t'.gammaRoutePrev, o) != []
  {
    hide Prepared, OutQueue, AfterSending, HandOverEntries, ForwardEntries, Filled, MergeList;
  }
}

/** Whole runs of a client: the outgoing queue, the inboxes and the agreement table moving together
    under every interleaving of calls with a clock that does not go back. */
module ClientRun {
  import opened Bits
  import opened Options
  import opened Ordering
  import opened Outbound
  import opened RoundWork
  import opened Rounds
  import opened Sequences
  import opened Structures
  import A = Agreement
  import I = Inboxes
  import Q = OutgoingQueue
  import T = AgreementTable

  /** What is fixed for a client. */
  datatype Client = Client(c: Config, own: Peer, onidRepr: U64, mCorrupt: nat) {
    ghost predicate Valid() { c.Valid() && 2 * c.dimension < 64 }
  }

  datatype State = State(queue: Q.State, inbox: I.State, agreement: A.State)

  const INITIAL := State(Q.INITIAL, I.INITIAL, A.INITIAL)

  /** A call; what the overlay returns in a round is not restricted. */
  datatype Event =
    | Generate
    | Send(now: U64, src: DecryptedPseudonym, m: MessageTuple)
    | TrafficIn(p: Packet)
    | TrafficOut(now: U64, gammaAgree: seq<Peer>)

  function InputOf(s: State, gammaAgree: seq<Peer>): A.Input {
    A.Input(gammaAgree, s.inbox.now.announce, s.inbox.now.agreement)
  }

  ghost function Round(k: Client, s: State, now: U64, gammaAgree: seq<Peer>): Option<State>
    requires k.Valid()
  {
    match A.Round(s.agreement, InputOf(s, gammaAgree), k.own, k.c.AgreementTime())
    case None => None
    case Some(a) => Some(State(s.queue.(h := Q.Out(k.c, s.queue.h), clock := now), I.EndRound(s.inbox), a))
  }

  predicate ClockForward(k: Client, s: State, now: U64) {
    s.queue.clock <= now && Q.ClockInRange(k.c, now)
  }

  /** The effect of a call; None when the clock goes back or overflows or the client aborts. */
  ghost function Apply(k: Client, s: State, e: Event): Option<State>
    requires k.Valid()
  {
    match e
    case Generate => Some(s.(queue := Q.Generate(k.c, s.queue, k.onidRepr, k.own)))
    case Send(now, src, m) =>
      if ClockForward(k, s, now) then Some(s.(queue := Q.Send(k.c, s.queue, now, src, m).(clock := now))) else None
    case TrafficIn(p) =>
      (match I.Apply(k.own, k.mCorrupt, s.inbox, I.PacketEvent(p))
       case None => None
       case Some(i) => Some(s.(inbox := i)))
    case TrafficOut(now, gammaAgree) =>
      if !ClockForward(k, s, now) then None
      else
        match Q.Admit(k.c, s.queue.Cur(), now)
        case Skipped => Some(s.(queue := s.queue.(clock := now)))
        case Aborted => None
        case Admitted => Round(k, s, now, gammaAgree)
  }

  ghost function Run(k: Client, events: seq<Event>): Option<State>
    requires k.Valid()
  {
    if events == [] then Some(INITIAL)
    else
      match Run(k, events[..|events| - 1])
      case None => None
      case Some(s) => Apply(k, s, events[|events| - 1])
  }

  // ---------------------------------------------------------------- the parts move together

  /** Every message announced in a round's input has been taken up one round earlier by the counter. */
  ghost predicate TakenUp(s: State) {
    forall r, m :: 0 <= r < |s.inbox.consumed| && m in s.inbox.consumed[r].announce ==>
      A.Birth(m, r - 1) in s.agreement.births
  }

  ghost predicate Invariant(k: Client, s: State)
    requires k.Valid()
  {
    && Q.Invariant(k.c, s.queue)
    && I.Invariant(k.mCorrupt, s.inbox)
    && A.Invariant(s.agreement, k.c.AgreementTime())
    && |s.queue.h.released| == |s.inbox.consumed| == |s.agreement.gamma|
    && TakenUp(s)
  }

  lemma QueueCall(k: Client, s: State, e: Q.Event)
    requires k.Valid() && Invariant(k, s) && Q.Apply(k.c, s.queue, e).Some?
    requires !e.OutEvent? || Q.Admit(k.c, s.queue.Cur(), e.now) == Q.Skipped
    ensures Invariant(k, s.(queue := Q.Apply(k.c, s.queue, e).value))
  {
    Q.ApplyKeepsInvariant(k.c, s.queue, e);
    QueueCallLength(k.c, s.queue, e);
    hide Q.Invariant, I.Invariant, A.Invariant, Q.Apply;
  }

  lemma QueueCallLength(c: Config, q: Q.State, e: Q.Event)
    requires c.Valid() && Q.Apply(c, q, e).Some?
    requires !e.OutEvent? || Q.Admit(c, q.Cur(), e.now) == Q.Skipped
    ensures Q.Apply(c, q, e).value.h.released == q.h.released
  {
    hide Q.Accepts, Q.ClockInRange;
  }

  lemma PacketCall(k: Client, s: State, p: Packet)
    requires k.Valid() && Invariant(k, s) && I.Receive(k.own, s.inbox, p).Accepted?
    ensures Invariant(k, s.(inbox := I.Accept(k.mCorrupt, s.inbox, I.Receive(k.own, s.inbox, p).slot, p)))
  {
    I.AcceptKeepsInvariant(k.own, k.mCorrupt, s.inbox, p);
    hide Q.Invariant, I.Invariant, A.Invariant, I.Contribute;
  }

  lemma PresentAnnounce(a: A.State, i: A.Input, L: nat, j: nat)
    requires A.Present(a, i, L).Some? && j < |i.announces|
    ensures |a.tuples| + j < |A.Present(a, i, L).value|
    ensures var t := A.Present(a, i, L).value[|a.tuples| + j];
            t.message == i.announces[j] && t.round == 0
  {
    hide A.Joined;
    var history := A.PushFront(a.history, i.gammaAgree, L);
    var started := A.Started(i.announces, history[1]);
    A.JoinedShape(a.tuples + started, i.agreements, history, L);
    assert A.Present(a, i, L).value[|a.tuples| + j] == (a.tuples + started)[|a.tuples| + j] == started[j];
  }

  /** A round takes up everything announced in its input. */
  lemma RoundTakesUp(a: A.State, i: A.Input, own: Peer, L: nat, m: MessageTuple)
    requires A.Round(a, i, own, L).Some? && m in i.announces
    ensures A.Birth(m, a.Cur()) in A.Round(a, i, own, L).value.births
  {
    hide A.Round, A.Present, A.NewBirths;
    var j :| 0 <= j < |i.announces| && i.announces[j] == m;
    A.PresentIfRound(a, i, own, L);
    PresentAnnounce(a, i, L, j);
    RoundBirths(a, i, own, L);
    NewBirthAt(a, i, own, L, j);
    assert A.Round(a, i, own, L).value.births[|a.births| + j] == A.NewBirths(a, i, own, L)[j];
  }

  lemma RoundBirths(a: A.State, i: A.Input, own: Peer, L: nat)
    requires A.Round(a, i, own, L).Some? && |a.tuples| <= |A.Present(a, i, L).value|
    ensures A.Round(a, i, own, L).value.births == a.births + A.NewBirths(a, i, own, L)
  {
    hide A.Present, A.AdvanceAll, A.Remaining, A.Finals, A.PushFront;
  }

  lemma NewBirthAt(a: A.State, i: A.Input, own: Peer, L: nat, j: nat)
    requires A.Present(a, i, L).Some? && |a.tuples| + j < |A.Present(a, i, L).value|
    requires A.Present(a, i, L).value[|a.tuples| + j].round == 0
    ensures j < |A.NewBirths(a, i, own, L)|
    ensures A.NewBirths(a, i, own, L)[j] == A.Birth(A.Present(a, i, L).value[|a.tuples| + j].message, a.Cur())
  {
    hide A.Present, A.UpdatedKnown, A.HeardAbout;
    var advanced := A.AdvanceAll(A.Present(a, i, L).value, own, i.agreements);
    assert advanced[|a.tuples|..][j] == advanced[|a.tuples| + j];
  }

  lemma RoundKeepsBirths(a: A.State, i: A.Input, own: Peer, L: nat)
    requires A.Round(a, i, own, L).Some?
    ensures forall b :: b in a.births ==> b in A.Round(a, i, own, L).value.births
    ensures |A.Round(a, i, own, L).value.gamma| == |a.gamma| + 1
  {
    hide A.Present;
  }

  lemma RoundCall(k: Client, s: State, now: U64, gammaAgree: seq<Peer>)
    requires k.Valid() && Invariant(k, s) && ClockForward(k, s, now)
    requires Q.Admit(k.c, s.queue.Cur(), now) == Q.Admitted && Round(k, s, now, gammaAgree).Some?
    ensures Invariant(k, Round(k, s, now, gammaAgree).value)
  {
    hide Q.Invariant, I.Invariant, A.Invariant, Q.Admit, Q.ClockInRange, A.Round, Q.Popped;
    var L := k.c.AgreementTime();
    var i := InputOf(s, gammaAgree);
    Q.OutKeepsInvariant(k.c, s.queue, now);
    I.EndRoundKeepsInvariant(k.mCorrupt, s.inbox);
    A.RoundKeepsInvariant(s.agreement, i, k.own, L);
    RoundKeepsBirths(s.agreement, i, k.own, L);
    var s' := Round(k, s, now, gammaAgree).value;
    forall r, m | 0 <= r < |s'.inbox.consumed| && m in s'.inbox.consumed[r].announce
      ensures A.Birth(m, r - 1) in s'.agreement.births
    {
      if r == |s.inbox.consumed| { RoundTakesUp(s.agreement, i, k.own, L, m); }
    }
  }

  lemma ApplyKeepsInvariant(k: Client, s: State, e: Event)
    requires k.Valid() && Invariant(k, s) && Apply(k, s, e).Some?
    ensures Invariant(k, Apply(k, s, e).value)
  {
    hide Invariant, Round, Q.Admit, Q.Send, Q.Generate, I.Accept, I.Receive;
    match e
    case Generate => QueueCall(k, s, Q.GenerateEvent(k.onidRepr, k.own));
    case Send(now, src, m) => QueueCall(k, s, Q.SendEvent(now, src, m));
    case TrafficIn(p) =>
      if I.Receive(k.own, s.inbox, p).Accepted? { PacketCall(k, s, p); }
    case TrafficOut(now, gammaAgree) =>
      match Q.Admit(k.c, s.queue.Cur(), now)
      case Skipped => QueueCall(k, s, Q.OutEvent(now));
      case Aborted =>
      case Admitted => RoundCall(k, s, now, gammaAgree);
  }

  lemma InitialInvariant(k: Client)
    requires k.Valid()
    ensures Invariant(k, INITIAL)
  {
    Q.RunKeepsInvariant(k.c, []);
    A.InitialInvariant(k.c.AgreementTime());
    I.RunKeepsInvariant(k.own, k.mCorrupt, []);
    hide Q.Invariant, I.Invariant, A.Invariant;
  }

  /** Over every run all three invariants hold together, in the same round. */
  lemma {:induction false} RunKeepsInvariant(k: Client, events: seq<Event>)
    requires k.Valid() && Run(k, events).Some?
    ensures Invariant(k, Run(k, events).value)
  {
    hide Invariant, Apply;
    if events == [] {
      InitialInvariant(k);
    } else {
      RunKeepsInvariant(k, events[..|events| - 1]);
      ApplyKeepsInvariant(k, Run(k, events[..|events| - 1]).value, events[|events| - 1]);
    }
  }

  // ---------------------------------------------------------------- the runs of the parts

  /** The call carries out a round. */
  ghost predicate IsRound(k: Client, s: State, e: Event)
    requires k.Valid()
  {
    e.TrafficOut? && Q.Admit(k.c, s.queue.Cur(), e.now) == Q.Admitted
  }

  ghost function QueueEvents(k: Client, e: Event): seq<Q.Event> {
    match e
    case Generate => [Q.GenerateEvent(k.onidRepr, k.own)]
    case Send(now, src, m) => [Q.SendEvent(now, src, m)]
    case TrafficIn(_) => []
    case TrafficOut(now, _) => [Q.OutEvent(now)]
  }

  ghost function InboxEvents(k: Client, s: State, e: Event): seq<I.Event>
    requires k.Valid()
  {
    if e.TrafficIn? then [I.PacketEvent(e.p)] else if IsRound(k, s, e) then [I.RoundEvent] else []
  }

  ghost function AgreementInputs(k: Client, s: State, e: Event): seq<A.Input>
    requires k.Valid()
  {
    if IsRound(k, s, e) then [InputOf(s, e.gammaAgree)] else []
  }

  /** The runs of the three parts that lie in a run of the client. */
  datatype Parts = Parts(queue: seq<Q.Event>, inbox: seq<I.Event>, agreement: seq<A.Input>)

  ghost function PartsOf(k: Client, events: seq<Event>): Parts
    requires k.Valid() && Run(k, events).Some?
  {
    if events == [] then Parts([], [], [])
    else
      var n := |events| - 1;
      var before, s, e := PartsOf(k, events[..n]), Run(k, events[..n]).value, events[n];
      Parts(before.queue + QueueEvents(k, e), before.inbox + InboxEvents(k, s, e),
            before.agreement + AgreementInputs(k, s, e))
  }

  ghost predicate InRunsOf(k: Client, p: Parts, s: State)
    requires k.Valid()
  {
    && Q.Run(k.c, p.queue) == Some(s.queue)
    && I.Run(k.own, k.mCorrupt, p.inbox) == Some(s.inbox)
    && A.Run(p.agreement, k.own, k.c.AgreementTime()) == Some(s.agreement)
  }

  lemma ExtendRuns(k: Client, p: Parts, s: State)
    requires k.Valid() && InRunsOf(k, p, s)
    ensures forall e :: Q.Run(k.c, p.queue + [e]) == Q.Apply(k.c, s.queue, e)
    ensures forall e :: I.Run(k.own, k.mCorrupt, p.inbox + [e]) == I.Apply(k.own, k.mCorrupt, s.inbox, e)
    ensures forall i :: A.Run(p.agreement + [i], k.own, k.c.AgreementTime())
                     == A.Round(s.agreement, i, k.own, k.c.AgreementTime())
  {
    hide Q.Apply, I.Apply, A.Round;
    forall e: Q.Event ensures (p.queue + [e])[..|p.queue|] == p.queue {}
    forall e: I.Event ensures (p.inbox + [e])[..|p.inbox|] == p.inbox {}
    forall i: A.Input ensures (p.agreement + [i])[..|p.agreement|] == p.agreement {}
  }

  lemma PartsStep(k: Client, p: Parts, s: State, e: Event)
    requires k.Valid() && InRunsOf(k, p, s) && Apply(k, s, e).Some?
    ensures InRunsOf(k, Parts(p.queue + QueueEvents(k, e), p.inbox + InboxEvents(k, s, e),
                              p.agreement + AgreementInputs(k, s, e)), Apply(k, s, e).value)
  {
    hide *;
    ExtendRuns(k, p, s);
    QueueOf(k, s, e);
    InboxOf(k, s, e);
    AgreementOf(k, s, e);
    StillInRuns(k, p, s, QueueEvents(k, e), InboxEvents(k, s, e), AgreementInputs(k, s, e), Apply(k, s, e).value);
  }

  /** At most one event is added to each run, and it leads to the state of the part. */
  lemma StillInRuns(k: Client, p: Parts, s: State, q: seq<Q.Event>, i: seq<I.Event>, a: seq<A.Input>, s': State)
    requires k.Valid() && InRunsOf(k, p, s)
    requires if q == [] then s'.queue == s.queue else |q| == 1 && Q.Run(k.c, p.queue + [q[0]]) == Some(s'.queue)
    requires if i == [] then s'.inbox == s.inbox
             else |i| == 1 && I.Run(k.own, k.mCorrupt, p.inbox + [i[0]]) == Some(s'.inbox)
    requires if a == [] then s'.agreement == s.agreement
             else |a| == 1 && A.Run(p.agreement + [a[0]], k.own, k.c.AgreementTime()) == Some(s'.agreement)
    ensures InRunsOf(k, Parts(p.queue + q, p.inbox + i, p.agreement + a), s')
  {
    hide Q.Run, I.Run, A.Run;
    assert p.queue + [] == p.queue && p.inbox + [] == p.inbox && p.agreement + [] == p.agreement;
    assert q != [] ==> q == [q[0]];
    assert i != [] ==> i == [i[0]];
    assert a != [] ==> a == [a[0]];
  }

  lemma QueueOf(k: Client, s: State, e: Event)
    requires k.Valid() && Apply(k, s, e).Some?
    ensures var q, s' := QueueEvents(k, e), Apply(k, s, e).value;
            if q == [] then s'.queue == s.queue else |q| == 1 && Q.Apply(k.c, s.queue, q[0]) == Some(s'.queue)
  {
    hide Q.Send, Q.Generate, Q.Admit, Q.Out, Q.ClockInRange, I.Receive, I.Accept, A.Round;
  }

  lemma InboxOf(k: Client, s: State, e: Event)
    requires k.Valid() && Apply(k, s, e).Some?
    ensures var i, s' := InboxEvents(k, s, e), Apply(k, s, e).value;
            if i == [] then s'.inbox == s.inbox
            else |i| == 1 && I.Apply(k.own, k.mCorrupt, s.inbox, i[0]) == Some(s'.inbox)
  {
    hide Q.Send, Q.Generate, Q.Admit, Q.Out, Q.ClockInRange, I.Receive, I.Accept, I.EndRound, A.Round;
  }

  lemma AgreementOf(k: Client, s: State, e: Event)
    requires k.Valid() && Apply(k, s, e).Some?
    ensures var a, s' := AgreementInputs(k, s, e), Apply(k, s, e).value;
            if a == [] then s'.agreement == s.agreement
            else |a| == 1 && A.Round(s.agreement, a[0], k.own, k.c.AgreementTime()) == Some(s'.agreement)
  {
    hide Q.Send, Q.Generate, Q.Admit, Q.Out, Q.ClockInRange, I.Receive, I.Accept, I.EndRound, A.Round;
  }

  /** A run of the client is a run of the queue, one of the inboxes and one of the agreement table, so that
      what is proved of every run of a part holds of the client. */
  lemma {:induction false} RunOfParts(k: Client, events: seq<Event>)
    requires k.Valid() && Run(k, events).Some?
    ensures InRunsOf(k, PartsOf(k, events), Run(k, events).value)
  {
    hide InRunsOf, Apply, QueueEvents, InboxEvents, AgreementInputs;
    if events == [] {
      NoCalls(k);
    } else {
      RunOfParts(k, events[..|events| - 1]);
      PartsStep(k, PartsOf(k, events[..|events| - 1]), Run(k, events[..|events| - 1]).value, events[|events| - 1]);
    }
  }

  lemma NoCalls(k: Client)
    requires k.Valid()
    ensures InRunsOf(k, Parts([], [], []), INITIAL)
  {
  }

  // ---------------------------------------------------------------- theorems across the parts

  /** Every message announced in a packet accepted under tag r is finalized - and so injected - in
      round r + L - 1, exactly L agreement rounds after it was sent, whatever else the client
      received. Round 0 consumes what was accepted for the round before it. */
  lemma AnnouncedIsFinalized(k: Client, events: seq<Event>, r: int, p: Packet, m: MessageTuple)
    requires k.Valid() && Run(k, events).Some?
    requires var s := Run(k, events).value;
             -1 <= r && r + k.c.AgreementTime() - 1 <= s.inbox.Cur() && p in I.At(s.inbox.log, r) && m in p.announce
    ensures var s := Run(k, events).value;
            && 0 <= r + k.c.AgreementTime() - 1 < |s.agreement.finals|
            && m in s.agreement.finals[r + k.c.AgreementTime() - 1]
  {
    RunKeepsInvariant(k, events);
    var s := Run(k, events).value;
    var L := k.c.AgreementTime();
    hide Run, Q.Invariant, I.At, I.Collected, A.TupleInvariant, Filter;
    ConsumedAnnounces(k, s, r, p, m);
    assert A.Birth(m, r) in s.agreement.births;
    FinalizedAt(s.agreement, L, m, r);
  }

  /** What the input of round r + 1 announces is what the packets accepted under tag r announce. */
  lemma ConsumedAnnounces(k: Client, s: State, r: int, p: Packet, m: MessageTuple)
    requires k.Valid() && I.Invariant(k.mCorrupt, s.inbox)
    requires -1 <= r && r + 1 < |s.inbox.consumed| && p in I.At(s.inbox.log, r) && m in p.announce
    ensures m in s.inbox.consumed[r + 1].announce
  {
    hide I.At, I.Collected, I.Batched, I.BatchesAt, I.SlotInvariant;
    var ps := I.At(s.inbox.log, r);
    assert s.inbox.consumed[r + 1] == I.Collected(k.mCorrupt, I.At(s.inbox.log, r + 1 - 1));
    I.CollectedSections(k.mCorrupt, ps);
    ConcatMember((p: Packet) => p.announce, ps, p, m);
  }

  lemma {:induction false} ConcatMember<T>(f: Packet -> seq<T>, ps: seq<Packet>, p: Packet, x: T)
    requires p in ps && x in f(p)
    ensures x in I.Concat(f, ps)
  {
    var n := |ps| - 1;
    if p in ps[..n] { ConcatMember(f, ps[..n], p, x); } else { assert ps == ps[..n] + [ps[n]]; }
  }

  lemma FinalizedAt(a: A.State, L: nat, m: MessageTuple, born: int)
    requires A.Invariant(a, L) && A.Birth(m, born) in a.births && 0 <= born + L - 1 < |a.gamma|
    ensures born + L - 1 < |a.finals| && m in a.finals[born + L - 1]
  {
    hide Filter, A.HistoryInvariant, A.TupleInvariant;
    var r := born + L - 1;
    var bs := Filter(A.BornAt(r - L + 1), a.births);
    FilterMembers(A.BornAt(born), a.births);
    assert a.finals[r] == Map(A.MessageOf, bs);
    var i :| 0 <= i < |bs| && bs[i] == A.Birth(m, born);
    assert a.finals[r][i] == m;
  }

  /** What the inputs of the rounds have reported with a counter below L - 1 has been taken up. */
  ghost predicate HeardBorn(s: State, L: nat) {
    forall r, a :: 0 <= r < |s.inbox.consumed| && a in s.inbox.consumed[r].agreement && a.l < L - 1 ==>
      T.BornWithin(s.agreement.births, a.m, r - L, r)
  }

  lemma RoundKeepsHeard(k: Client, s: State, now: U64, gammaAgree: seq<Peer>)
    requires k.Valid() && Invariant(k, s) && Round(k, s, now, gammaAgree).Some?
    requires HeardBorn(s, k.c.AgreementTime())
    ensures HeardBorn(Round(k, s, now, gammaAgree).value, k.c.AgreementTime())
  {
    hide Q.Invariant, I.Invariant, A.Invariant, A.Round, T.BornWithin;
    var L := k.c.AgreementTime();
    var i := InputOf(s, gammaAgree);
    RoundKeepsBirths(s.agreement, i, k.own, L);
    var s' := Round(k, s, now, gammaAgree).value;
    assert s'.inbox.consumed == s.inbox.consumed + [s.inbox.now] && i.agreements == s.inbox.now.agreement;
    hide Round;
    forall r, a | 0 <= r < |s'.inbox.consumed| && a in s'.inbox.consumed[r].agreement && a.l < L - 1
      ensures T.BornWithin(s'.agreement.births, a.m, r - L, r)
    {
      if r == |s.inbox.consumed| {
        T.HeardIsBorn(s.agreement, i, k.own, L, a);
      } else {
        BornStays(s.agreement.births, s'.agreement.births, a.m, r - L, r);
      }
    }
  }

  lemma BornStays(before: seq<A.Birth>, after: seq<A.Birth>, m: MessageTuple, lo: int, hi: int)
    requires T.BornWithin(before, m, lo, hi) && forall b :: b in before ==> b in after
    ensures T.BornWithin(after, m, lo, hi)
  {
  }

  lemma {:induction false} RunKeepsHeard(k: Client, events: seq<Event>)
    requires k.Valid() && Run(k, events).Some?
    ensures HeardBorn(Run(k, events).value, k.c.AgreementTime())
  {
    hide Invariant, HeardBorn, Apply;
    if events == [] {
      NothingHeard(k.c.AgreementTime());
    } else {
      RunKeepsHeard(k, events[..|events| - 1]);
      RunKeepsInvariant(k, events[..|events| - 1]);
      ApplyKeepsHeard(k, Run(k, events[..|events| - 1]).value, events[|events| - 1]);
    }
  }

  lemma NothingHeard(L: nat)
    ensures HeardBorn(INITIAL, L)
  {
  }

  lemma ApplyKeepsHeard(k: Client, s: State, e: Event)
    requires k.Valid() && Invariant(k, s) && HeardBorn(s, k.c.AgreementTime()) && Apply(k, s, e).Some?
    ensures HeardBorn(Apply(k, s, e).value, k.c.AgreementTime())
  {
    hide Invariant, Round, Q.Admit, Q.Send, Q.Generate, I.Receive, T.BornWithin, I.Contribute;
    if e.TrafficOut? && ClockForward(k, s, e.now) && Q.Admit(k.c, s.queue.Cur(), e.now) == Q.Admitted {
      RoundKeepsHeard(k, s, e.now, e.gammaAgree);
    }
  }

  /** Every message reported with a counter below L - 1 in a packet accepted under tag r is finalized in
      one of the rounds r to r + L. */
  lemma HeardIsFinalized(k: Client, events: seq<Event>, r: int, p: Packet, a: AgreementTuple)
    requires k.Valid() && Run(k, events).Some?
    requires var s := Run(k, events).value;
             && -1 <= r && r + k.c.AgreementTime() <= s.inbox.Cur() && p in I.At(s.inbox.log, r)
             && a in p.agreement && a.l < k.c.AgreementTime() - 1
    ensures var finals := Run(k, events).value.agreement.finals;
            exists q :: 0 <= q < |finals| && r <= q <= r + k.c.AgreementTime() && a.m in finals[q]
  {
    RunKeepsInvariant(k, events);
    RunKeepsHeard(k, events);
    var s := Run(k, events).value;
    var L := k.c.AgreementTime();
    hide Run, Q.Invariant, I.At, I.Collected, A.TupleInvariant, Filter, A.HistoryInvariant;
    ConsumedReports(k, s, r, p, a);
    var b :| b in s.agreement.births && b.m == a.m && r + 1 - L <= b.born <= r + 1 && 0 <= b.born;
    FinalizedAt(s.agreement, L, a.m, b.born);
  }

  lemma ConsumedReports(k: Client, s: State, r: int, p: Packet, a: AgreementTuple)
    requires k.Valid() && I.Invariant(k.mCorrupt, s.inbox)
    requires -1 <= r && r + 1 < |s.inbox.consumed| && p in I.At(s.inbox.log, r) && a in p.agreement
    ensures a in s.inbox.consumed[r + 1].agreement
  {
    hide I.At, I.Collected, I.Batched, I.BatchesAt, I.SlotInvariant;
    var ps := I.At(s.inbox.log, r);
    assert s.inbox.consumed[r + 1] == I.Collected(k.mCorrupt, I.At(s.inbox.log, r + 1 - 1));
    I.CollectedSections(k.mCorrupt, ps);
    ConcatMember((p: Packet) => p.agreement, ps, p, a);
  }

  lemma AnnounceBound(c: Config, q: Q.State, r: nat)
    requires c.Valid() && Q.Invariant(c, q) && r < |q.h.released|
    ensures |q.h.released[r]| <= c.Quota() * c.kAMax
  {
    hide Q.RateInvariant, Q.Labelled, Q.BoundInvariant, Q.BlockInvariant, Q.InTime, Q.ReleaseInvariant;
    Q.RoundBound(c, q, r);
  }

  /** In every run, with a gamma_send that repeats no peer, the assert on the announce bound fails only
      when k_send is 0 and there is a message to announce. */
  lemma AnnounceAssertIff(k: Client, events: seq<Event>, s: Setting, tr: Trace)
    requires k.Valid() && Run(k, events).Some? && s.c == k.c && Distinct(s.ov.gammaSend)
    requires var released := Run(k, events).value.queue.h.released;
             released != [] && released[|released| - 1] == multiset(tr.popped)
    ensures Fits(MapsOf(s, tr).announce, s.ov.gammaSend, LimitsOf(s.c, s.maxRouting, s.ov).announce) <==>
              k.c.kSend > 0 || tr.popped == [] || s.ov.gammaSend == []
  {
    var released := Run(k, events).value.queue.h.released;
    RunAnnounces(k, events, |released| - 1);
    Size(tr.popped);
    Q.WithinBoundIff(k.c, |tr.popped|);
    hide *;
    AnnounceFitsIff(s, tr);
  }

  lemma RunAnnounces(k: Client, events: seq<Event>, r: nat)
    requires k.Valid() && Run(k, events).Some? && r < |Run(k, events).value.queue.h.released|
    ensures |Run(k, events).value.queue.h.released[r]| <= k.c.Quota() * k.c.kAMax
  {
    RunKeepsInvariant(k, events);
    hide Run, Q.Invariant, I.Invariant, A.Invariant;
    AnnounceBound(k.c, Run(k, events).value.queue, r);
  }

  lemma Size(popped: seq<MessageTuple>)
    ensures |multiset(popped)| == |popped|
  {
  }
}

/** The rate-limited queue of outgoing messages, as a state machine over whole runs.

    Beside the fields of the client the state keeps a history: `log` lists every message ever
    accepted and `released[r]` is what left the queue in round r, so |released| - 1 is the
    current round; `clock` is the time of the last call. */
module OutgoingQueue {
  import opened Bits
  import opened Options
  import opened Structures
  import opened Rounds

  /** A message accepted from local pseudonym `src` when `at` was the last round carried out;
      `key` is the counter it was counted under and `target` the round to announce it in. */
  datatype Entry = Entry(src: nat, m: MessageTuple, key: U64, target: int, at: int)

  datatype History = History(
    queue: multiset<MessageTuple>,
    log: seq<Entry>,
    released: seq<multiset<MessageTuple>>)
  {
    function Cur(): int { |released| - 1 }
  }

  datatype State = State(pseudonyms: seq<DecryptedPseudonym>, counters: seq<map<U64, nat>>, h: History, clock: nat) {
    function Cur(): int { h.Cur() }
  }

  const INITIAL := State([], [], History(multiset{}, [], []), 0)

  // ---------------------------------------------------------------- arithmetic of the source

  /** How long before its delivery time a message has to be handed in. */
  function Lead(c: Config): nat {
    Product(c.AgreementTime() + c.RoutingTime() + 4, 4 * c.kDelta)
  }

  /** The lateness check; the subtraction is unsigned and wraps for small `tDst`. */
  predicate TooLate(c: Config, now: U64, tDst: U64) {
    now > (tDst - Lead(c)) % TWO_64
  }

  /** The key under which the per-round counters count: the round number after conversion to a
      32-bit int and back to 64 bits. */
  function CounterKey(c: Config, tDst: U64): U64
    requires c.Valid()
  {
    var low := c.RoundOf(tDst) % TWO_32;
    if low < 0x8000_0000 then low else low + TWO_64 - TWO_32
  }

  function Lookup(counter: map<U64, nat>, key: U64): nat {
    if key in counter then counter[key] else 0
  }

  predicate LimitReached(c: Config, counter: map<U64, nat>, key: U64) {
    key in counter && counter[key] >= c.kSend
  }

  function Increment(counter: map<U64, nat>, key: U64): map<U64, nat> {
    counter[key := Lookup(counter, key) + 1]
  }

  /** `l * 4 * kDelta` as a 64-bit number. */
  function WindowStart(c: Config, l: nat): U64 {
    Product(l, 4 * c.kDelta) % TWO_64
  }

  /** `is_due`, in 64-bit arithmetic. */
  predicate IsDue(c: Config, m: MessageTuple, cur: nat) {
    var lDelivered := cur + c.Delay();
    WindowStart(c, lDelivered) <= m.tDst < WindowStart(c, lDelivered + 1)
  }

  /** The round in which a message is to be announced. */
  function Target(c: Config, m: MessageTuple): int
    requires c.Valid()
  {
    c.RoundOf(m.tDst) - c.Delay()
  }

  /** The clock is at least one message lead away from overflowing. */
  predicate ClockInRange(c: Config, now: nat) {
    now + Lead(c) < TWO_64
  }

  // ---------------------------------------------------------------- the operations

  function Generate(c: Config, s: State, onidRepr: U64, own: Peer): State {
    if |s.pseudonyms| >= c.kAMax then s
    else s.(pseudonyms := s.pseudonyms + [DecryptedPseudonym(onidRepr, own, |s.pseudonyms| % 0x100)],
            counters := s.counters + [map[]])
  }

  predicate Accepts(c: Config, s: State, now: U64, src: DecryptedPseudonym, m: MessageTuple)
    requires c.Valid()
  {
    && src in s.pseudonyms
    && !TooLate(c, now, m.tDst)
    && src.localNum < |s.counters|
    && !LimitReached(c, s.counters[src.localNum], CounterKey(c, m.tDst))
  }

  function LogEntry(c: Config, h: History, src: nat, m: MessageTuple): Entry
    requires c.Valid()
  {
    Entry(src, m, CounterKey(c, m.tDst), Target(c, m), h.Cur())
  }

  function Logged(c: Config, h: History, src: nat, m: MessageTuple): History
    requires c.Valid()
  {
    h.(queue := h.queue + multiset{m}, log := h.log + [LogEntry(c, h, src, m)])
  }

  function Send(c: Config, s: State, now: U64, src: DecryptedPseudonym, m: MessageTuple): State
    requires c.Valid()
  {
    if !Accepts(c, s, now, src, m) then s
    else
      var i := src.localNum;
      s.(counters := s.counters[i := Increment(s.counters[i], CounterKey(c, m.tDst))],
         h := Logged(c, s.h, i, m))
  }

  /** The messages of `q` with a delivery time below `hi`. */
  ghost function Below(q: multiset<MessageTuple>, hi: nat): (b: multiset<MessageTuple>)
    ensures forall m :: b[m] == if m.tDst < hi then q[m] else 0
    decreases |q|
  {
    if q == multiset{} then multiset{}
    else
      var m :| m in q;
      Below(q - multiset{m}, hi) + (if m.tDst < hi then multiset{m} else multiset{})
  }

  ghost predicate Overdue(c: Config, q: multiset<MessageTuple>, cur: nat) {
    exists m :: m in q && m.tDst < WindowStart(c, cur + c.Delay())
  }

  /** What popping while the head is due takes out of the queue in round `cur`: nothing when a
      message is overdue, since it stays at the head, and else all due messages. */
  ghost function Popped(c: Config, q: multiset<MessageTuple>, cur: nat): multiset<MessageTuple> {
    if Overdue(c, q, cur) then multiset{}
    else Below(q, WindowStart(c, cur + c.Delay() + 1))
  }

  /** Round admission: a round is carried out only in its first subround, once, and directly
      after the round before it. */
  datatype Admission = Skipped | Aborted | Admitted

  function Admit(c: Config, cur: int, now: U64): Admission
    requires c.Valid()
  {
    var subround := c.SubroundOf(now);
    if subround % 4 != 0 || subround / 4 == cur then Skipped
    else if cur != subround / 4 - 1 then Aborted
    else Admitted
  }

  ghost function Out(c: Config, h: History): History {
    var popped := Popped(c, h.queue, |h.released|);
    h.(queue := h.queue - popped, released := h.released + [popped])
  }

  // ---------------------------------------------------------------- runs

  datatype Event =
    | GenerateEvent(onidRepr: U64, own: Peer)
    | SendEvent(now: U64, src: DecryptedPseudonym, m: MessageTuple)
    | OutEvent(now: U64)

  /** The effect of one call; None when the clock goes back or overflows, or the round is aborted. */
  ghost function Apply(c: Config, s: State, e: Event): Option<State>
    requires c.Valid()
  {
    match e
    case GenerateEvent(onidRepr, own) => Some(Generate(c, s, onidRepr, own))
    case SendEvent(now, src, m) =>
      if now < s.clock || !ClockInRange(c, now) then None
      else Some(Send(c, s, now, src, m).(clock := now))
    case OutEvent(now) =>
      if now < s.clock || !ClockInRange(c, now) then None
      else
        match Admit(c, s.Cur(), now)
        case Skipped => Some(s.(clock := now))
        case Aborted => None
        case Admitted => Some(s.(h := Out(c, s.h), clock := now))
  }

  ghost function RunFrom(c: Config, s: State, events: seq<Event>): Option<State>
    requires c.Valid()
  {
    if events == [] then Some(s)
    else
      match RunFrom(c, s, events[..|events| - 1])
      case None => None
      case Some(s') => Apply(c, s', events[|events| - 1])
  }

  ghost function Run(c: Config, events: seq<Event>): Option<State>
    requires c.Valid()
  {
    RunFrom(c, INITIAL, events)
  }

  // ---------------------------------------------------------------- the rate limit

  /** How many messages local pseudonym `src` has ever queued under counter key `key`. */
  function QueuedFor(log: seq<Entry>, src: nat, key: U64): nat
  {
    if log == [] then 0
    else
      var e := log[|log| - 1];
      QueuedFor(log[..|log| - 1], src, key) + (if e.src == src && e.key == key then 1 else 0)
  }

  ghost predicate RateInvariant(c: Config, s: State) {
    && |s.counters| == |s.pseudonyms| <= c.kAMax
    && (forall i :: 0 <= i < |s.pseudonyms| ==> s.pseudonyms[i].localNum == i % 0x100)
    && (forall i, key :: 0 <= i < |s.counters| ==>
          Lookup(s.counters[i], key) == QueuedFor(s.h.log, i, key) <= c.Quota())
    && (forall e :: e in s.h.log ==> e.src < |s.pseudonyms|)
  }

  lemma QueuedForStep(log: seq<Entry>, e: Entry, src: nat, key: U64)
    ensures QueuedFor(log + [e], src, key)
         == QueuedFor(log, src, key) + (if e.src == src && e.key == key then 1 else 0)
  {
    assert (log + [e])[..|log|] == log;
  }

  lemma {:induction false} NothingQueuedFor(log: seq<Entry>, src: nat, key: U64)
    requires forall e :: e in log ==> e.src < src
    ensures QueuedFor(log, src, key) == 0
  {
    if log != [] { NothingQueuedFor(log[..|log| - 1], src, key); }
  }

  lemma GenerateKeepsRate(c: Config, s: State, onidRepr: U64, own: Peer)
    requires c.Valid() && RateInvariant(c, s)
    ensures RateInvariant(c, Generate(c, s, onidRepr, own))
  {
    var s' := Generate(c, s, onidRepr, own);
    forall i, key | 0 <= i < |s'.counters|
      ensures Lookup(s'.counters[i], key) == QueuedFor(s'.h.log, i, key) <= c.Quota()
    {
      if i == |s.counters| { NothingQueuedFor(s.h.log, i, key); }
    }
  }

  lemma SendKeepsRate(c: Config, s: State, now: U64, src: DecryptedPseudonym, m: MessageTuple)
    requires c.Valid() && RateInvariant(c, s)
    ensures RateInvariant(c, Send(c, s, now, src, m))
  {
    if Accepts(c, s, now, src, m) {
      var s' := Send(c, s, now, src, m);
      forall i, key | 0 <= i < |s'.counters|
        ensures Lookup(s'.counters[i], key) == QueuedFor(s'.h.log, i, key) <= c.Quota()
      {
        QueuedForStep(s.h.log, LogEntry(c, s.h, src.localNum, m), i, key);
        assert Lookup(s.counters[i], key) == QueuedFor(s.h.log, i, key);
      }
    }
  }

  // ---------------------------------------------------------------- release in time

  /** The messages of the log that belong to round `r`. */
  function DueIn(log: seq<Entry>, r: int): seq<MessageTuple>
  {
    if log == [] then []
    else
      var e := log[|log| - 1];
      var rest := DueIn(log[..|log| - 1], r);
      if e.target == r then rest + [e.m] else rest
  }

  /** The messages of the log that belong to rounds after `cur`. */
  function Pending(log: seq<Entry>, cur: int): seq<MessageTuple>
  {
    if log == [] then []
    else
      var e := log[|log| - 1];
      var rest := Pending(log[..|log| - 1], cur);
      if e.target > cur then rest + [e.m] else rest
  }

  /** Every message was accepted before the round it belongs to. */
  ghost predicate InTime(log: seq<Entry>)
  {
    forall e :: e in log ==> e.target > e.at
  }

  /** The clock and the history fit together. */
  ghost predicate ClockInvariant(c: Config, h: History, clock: nat)
    requires c.Valid()
  {
    && (h.Cur() >= 0 ==> h.Cur() <= c.RoundOf(clock))
    && (forall e :: e in h.log ==> -1 <= e.at <= h.Cur())
  }

  /** As long as everything was accepted in time, each round has released exactly its messages
      and the queue holds exactly those of later rounds. */
  ghost predicate ReleaseInvariant(h: History) {
    && h.queue == multiset(Pending(h.log, h.Cur()))
    && (forall r :: 0 <= r < |h.released| ==> h.released[r] == multiset(DueIn(h.log, r)))
  }

  lemma DueWindow(c: Config, m: MessageTuple, cur: nat, clock: nat)
    requires c.Valid() && cur <= c.RoundOf(clock) && ClockInRange(c, clock)
    ensures DueAt(c, m, cur)
    ensures IsDue(c, m, cur) <==> Target(c, m) == cur
  {
    NoOverflow(c, cur, clock);
    BeforeRound(c, m.tDst, cur + c.Delay());
    BeforeRound(c, m.tDst, cur + c.Delay() + 1);
  }

  lemma NoOverflow(c: Config, cur: nat, clock: nat)
    requires c.Valid() && cur <= c.RoundOf(clock) && ClockInRange(c, clock)
    ensures WindowStart(c, cur + c.Delay()) == Product(cur + c.Delay(), c.Span())
    ensures WindowStart(c, cur + c.Delay() + 1) == Product(cur + c.Delay() + 1, c.Span())
  {
    BeforeRound(c, clock, cur);
    ProductPlus(cur, c.Delay() + 1, c.Span());
    assert cur + (c.Delay() + 1) == cur + c.Delay() + 1;
  }

  /** The target recorded with a message is the round it belongs to. */
  ghost predicate Labelled(c: Config, log: seq<Entry>)
    requires c.Valid()
  {
    forall e :: e in log ==> e.target == Target(c, e.m) && e.key == CounterKey(c, e.m.tDst)
  }

  lemma {:induction false} PendingMembers(c: Config, log: seq<Entry>, cur: int)
    requires c.Valid() && Labelled(c, log)
    ensures forall m :: m in multiset(Pending(log, cur)) ==> Target(c, m) > cur
  {
    if log != [] {
      assert log[|log| - 1] in log;
      PendingMembers(c, log[..|log| - 1], cur);
    }
  }

  lemma {:induction false} DueMembers(c: Config, log: seq<Entry>, r: int)
    requires c.Valid() && Labelled(c, log)
    ensures forall m :: m in multiset(DueIn(log, r)) ==> Target(c, m) == r
  {
    if log != [] {
      assert log[|log| - 1] in log;
      DueMembers(c, log[..|log| - 1], r);
    }
  }

  lemma {:induction false} PendingSplits(log: seq<Entry>, cur: int)
    ensures multiset(Pending(log, cur - 1)) == multiset(DueIn(log, cur)) + multiset(Pending(log, cur))
  {
    if log != [] { PendingSplits(log[..|log| - 1], cur); }
  }

  /** The window test of round `cur` sorts messages by the round they belong to. */
  ghost predicate DueAt(c: Config, m: MessageTuple, cur: nat)
    requires c.Valid()
  {
    && (m.tDst < WindowStart(c, cur + c.Delay()) <==> Target(c, m) < cur)
    && (m.tDst < WindowStart(c, cur + c.Delay() + 1) <==> Target(c, m) <= cur)
  }

  lemma OverdueByTarget(c: Config, q: multiset<MessageTuple>, cur: nat, clock: nat)
    requires c.Valid() && cur <= c.RoundOf(clock) && ClockInRange(c, clock)
    ensures Overdue(c, q, cur) <==> exists x :: x in q && Target(c, x) < cur
  {
    if Overdue(c, q, cur) {
      var m :| m in q && m.tDst < WindowStart(c, cur + c.Delay());
      DueWindow(c, m, cur, clock);
    }
    if exists x :: x in q && Target(c, x) < cur {
      var x :| x in q && Target(c, x) < cur;
      DueWindow(c, x, cur, clock);
    }
  }

  /** What a round pops, in terms of the rounds messages belong to. */
  lemma PoppedByTarget(c: Config, q: multiset<MessageTuple>, cur: nat, clock: nat)
    requires c.Valid() && cur <= c.RoundOf(clock) && ClockInRange(c, clock)
    ensures (exists x :: x in q && Target(c, x) < cur) ==> Popped(c, q, cur) == multiset{}
    ensures !(exists x :: x in q && Target(c, x) < cur) ==>
              forall m :: Popped(c, q, cur)[m] == if Target(c, m) != cur then 0 else q[m]
  {
    OverdueByTarget(c, q, cur, clock);
    if !Overdue(c, q, cur) {
      forall m ensures Popped(c, q, cur)[m] == if Target(c, m) != cur then 0 else q[m] {
        DueWindow(c, m, cur, clock);
        assert m in q ==> Target(c, m) >= cur;
      }
    }
  }

  lemma SplitByTarget(c: Config, q: multiset<MessageTuple>, popped: multiset<MessageTuple>,
                      due: multiset<MessageTuple>, later: multiset<MessageTuple>, cur: int)
    requires c.Valid() && q == due + later
    requires forall m :: m in due ==> Target(c, m) == cur
    requires forall m :: m in later ==> Target(c, m) > cur
    requires forall m :: popped[m] == if Target(c, m) != cur then 0 else q[m]
    ensures popped == due && q - popped == later
  {
    forall m ensures popped[m] == due[m] {
      if Target(c, m) == cur { assert m !in later; } else { assert m !in due; }
    }
  }

  lemma PoppedIsDue(c: Config, h: History, clock: nat)
    requires c.Valid() && |h.released| <= c.RoundOf(clock) && ClockInRange(c, clock)
    requires Labelled(c, h.log) && h.queue == multiset(Pending(h.log, h.Cur()))
    ensures Popped(c, h.queue, |h.released|) == multiset(DueIn(h.log, |h.released|))
    ensures h.queue - Popped(c, h.queue, |h.released|) == multiset(Pending(h.log, |h.released|))
  {
    var cur := |h.released|;
    PendingMembers(c, h.log, cur);
    DueMembers(c, h.log, cur);
    PendingSplits(h.log, cur);
    PendingMembers(c, h.log, cur - 1);
    PoppedByTarget(c, h.queue, cur, clock);
    SplitByTarget(c, h.queue, Popped(c, h.queue, cur),
                  multiset(DueIn(h.log, cur)), multiset(Pending(h.log, cur)), cur);
  }

  lemma ReleaseExtends(h: History, popped: multiset<MessageTuple>, rest: multiset<MessageTuple>)
    requires ReleaseInvariant(h)
    requires popped == multiset(DueIn(h.log, |h.released|))
    requires rest == multiset(Pending(h.log, |h.released|))
    ensures ReleaseInvariant(h.(queue := rest, released := h.released + [popped]))
  {
    hide DueIn, Pending;
  }

  /** A round after in-time acceptances pops exactly the messages that belong to it. */
  lemma OutKeepsRelease(c: Config, h: History, clock: nat)
    requires c.Valid() && |h.released| <= c.RoundOf(clock) && ClockInRange(c, clock)
    requires Labelled(c, h.log) && ReleaseInvariant(h)
    ensures ReleaseInvariant(Out(c, h))
  {
    PoppedIsDue(c, h, clock);
    var popped := Popped(c, h.queue, |h.released|);
    ReleaseExtends(h, popped, h.queue - popped);
  }

  /** The unsigned lateness check of a message handed in early enough really is one: what it lets
      through belongs to a later round. Below the lead time it lets everything through. */
  lemma LatenessCheck(c: Config, now: U64, tDst: U64)
    requires c.Valid() && ClockInRange(c, now)
    ensures tDst >= Lead(c) ==> (TooLate(c, now, tDst) <==> now + Lead(c) > tDst)
    ensures tDst < Lead(c) ==> !TooLate(c, now, tDst)
    ensures tDst >= Lead(c) && !TooLate(c, now, tDst) ==> c.RoundOf(tDst) - c.Delay() > c.RoundOf(now)
  {
    if tDst >= Lead(c) && !TooLate(c, now, tDst) {
      RoundShift(c, now, c.Delay() + 1);
      RoundMonotone(c, now + Lead(c), tDst);
    }
  }

  lemma LoggingKeepsRelease(c: Config, h: History, src: nat, m: MessageTuple)
    requires c.Valid() && (InTime(h.log) ==> ReleaseInvariant(h))
    ensures InTime(Logged(c, h, src, m).log) ==> ReleaseInvariant(Logged(c, h, src, m))
  {
    var e := LogEntry(c, h, src, m);
    assert e in h.log + [e];
    if InTime(h.log + [e]) {
      assert forall x :: x in h.log ==> x in h.log + [e];
      assert (h.log + [e])[..|h.log|] == h.log;
      assert Pending(h.log + [e], h.Cur()) == Pending(h.log, h.Cur()) + [m];
    }
  }

  // ---------------------------------------------------------------- messages handed in too late

  /** The check a caller could make: the message is early enough, or nothing has been sent yet and
      it belongs to round 0. */
  ghost predicate HandedInEarly(c: Config, e: Entry) {
    e.m.tDst >= Lead(c) || (e.at == -1 && e.m.tDst >= Product(c.Delay(), c.Span()))
  }

  lemma EarlyIffInTime(c: Config, e: Entry, now: U64)
    requires c.Valid() && ClockInRange(c, now)
    requires -1 <= e.at <= c.RoundOf(now) && e.target == Target(c, e.m) && !TooLate(c, now, e.m.tDst)
    ensures HandedInEarly(c, e) <==> e.target > e.at
  {
    LatenessCheck(c, now, e.m.tDst);
    BeforeRound(c, e.m.tDst, c.Delay() + 1);
    BeforeRound(c, e.m.tDst, c.Delay());
  }

  /** An overdue message stays in the queue, and nothing has left the queue since it came. */
  ghost predicate Blocked(h: History, e: Entry) {
    e.m in h.queue && forall r :: 0 <= r < |h.released| && e.at < r ==> h.released[r] == multiset{}
  }

  ghost predicate BlockInvariant(c: Config, h: History) {
    forall e :: e in h.log ==> (HandedInEarly(c, e) <==> e.target > e.at) && (e.target <= e.at ==> Blocked(h, e))
  }

  lemma LoggingKeepsBlocks(c: Config, h: History, src: nat, m: MessageTuple, now: U64)
    requires c.Valid() && BlockInvariant(c, h) && !TooLate(c, now, m.tDst)
    requires h.Cur() <= c.RoundOf(now) && ClockInRange(c, now)
    ensures BlockInvariant(c, Logged(c, h, src, m))
  {
    var h' := Logged(c, h, src, m);
    EarlyIffInTime(c, LogEntry(c, h, src, m), now);
    forall x | x in h'.log
      ensures (HandedInEarly(c, x) <==> x.target > x.at) && (x.target <= x.at ==> Blocked(h', x))
    {
      if x in h.log && x.target <= x.at { assert Blocked(h, x); }
    }
  }

  lemma OutKeepsBlocks(c: Config, h: History, clock: nat)
    requires c.Valid() && |h.released| <= c.RoundOf(clock) && ClockInRange(c, clock)
    requires Labelled(c, h.log) && BlockInvariant(c, h) && ClockInvariant(c, h, clock)
    ensures BlockInvariant(c, Out(c, h))
  {
    var cur := |h.released|;
    var popped := Popped(c, h.queue, cur);
    if exists e :: e in h.log && e.target <= e.at {
      var e :| e in h.log && e.target <= e.at;
      assert Blocked(h, e);
      assert e.m in h.queue && Target(c, e.m) < cur;
      PoppedByTarget(c, h.queue, cur, clock);
    }
    NothingPopped(c, h, popped);
  }

  lemma NothingPopped(c: Config, h: History, popped: multiset<MessageTuple>)
    requires BlockInvariant(c, h)
    requires (exists e :: e in h.log && e.target <= e.at) ==> popped == multiset{}
    ensures BlockInvariant(c, h.(queue := h.queue - popped, released := h.released + [popped]))
  {
    var h' := h.(queue := h.queue - popped, released := h.released + [popped]);
    forall e | e in h'.log
      ensures (HandedInEarly(c, e) <==> e.target > e.at) && (e.target <= e.at ==> Blocked(h', e))
    {
      if e.target <= e.at { assert Blocked(h, e); }
    }
  }

  // ---------------------------------------------------------------- the announce bound

  function Messages(log: seq<Entry>): seq<MessageTuple> {
    if log == [] then [] else Messages(log[..|log| - 1]) + [log[|log| - 1].m]
  }

  /** In whatever order messages came, no round releases more than it was sent. */
  ghost predicate BoundInvariant(h: History) {
    && h.queue <= multiset(Messages(h.log))
    && forall r :: 0 <= r < |h.released| ==> h.released[r] <= multiset(DueIn(h.log, r))
  }

  lemma {:induction false} DueInIsFilter(c: Config, log: seq<Entry>, r: int, m: MessageTuple)
    requires c.Valid() && Labelled(c, log)
    ensures multiset(DueIn(log, r))[m] == if Target(c, m) == r then multiset(Messages(log))[m] else 0
  {
    if log != [] {
      assert log[|log| - 1] in log;
      DueInIsFilter(c, log[..|log| - 1], r, m);
    }
  }

  lemma PoppedWithinDue(c: Config, h: History, clock: nat)
    requires c.Valid() && |h.released| <= c.RoundOf(clock) && ClockInRange(c, clock)
    requires Labelled(c, h.log) && h.queue <= multiset(Messages(h.log))
    ensures Popped(c, h.queue, |h.released|) <= multiset(DueIn(h.log, |h.released|))
  {
    var cur := |h.released|;
    PoppedByTarget(c, h.queue, cur, clock);
    forall m ensures Popped(c, h.queue, cur)[m] <= multiset(DueIn(h.log, cur))[m] {
      DueInIsFilter(c, h.log, cur, m);
    }
  }

  lemma LoggingKeepsBound(c: Config, h: History, src: nat, m: MessageTuple)
    requires c.Valid() && BoundInvariant(h)
    ensures BoundInvariant(Logged(c, h, src, m))
  {
    assert (h.log + [LogEntry(c, h, src, m)])[..|h.log|] == h.log;
  }

  lemma OutKeepsBound(c: Config, h: History, clock: nat)
    requires c.Valid() && |h.released| <= c.RoundOf(clock) && ClockInRange(c, clock)
    requires Labelled(c, h.log) && BoundInvariant(h)
    ensures BoundInvariant(Out(c, h))
  {
    PoppedWithinDue(c, h, clock);
  }

  /** The messages queued under one counter key by the first `n` pseudonyms together. */
  function QueuedByAll(log: seq<Entry>, n: nat, key: U64): nat {
    if n == 0 then 0 else QueuedByAll(log, n - 1, key) + QueuedFor(log, n - 1, key)
  }

  lemma {:induction false} QueuedByAllStep(log: seq<Entry>, e: Entry, n: nat, key: U64)
    ensures QueuedByAll(log + [e], n, key)
         == QueuedByAll(log, n, key) + (if e.src < n && e.key == key then 1 else 0)
  {
    if n > 0 {
      QueuedByAllStep(log, e, n - 1, key);
      QueuedForStep(log, e, n - 1, key);
    }
  }

  lemma {:induction false} DueInCounted(c: Config, log: seq<Entry>, r: int, n: nat, key: U64)
    requires c.Valid() && Labelled(c, log)
    requires forall e :: e in log ==> e.src < n && (e.target == r ==> e.key == key)
    ensures |DueIn(log, r)| <= QueuedByAll(log, n, key)
  {
    if log != [] {
      var e := log[|log| - 1];
      assert e in log && log == log[..|log| - 1] + [e];
      DueInCounted(c, log[..|log| - 1], r, n, key);
      QueuedByAllStep(log[..|log| - 1], e, n, key);
    }
  }

  lemma {:induction false} QueuedByAllBounded(c: Config, s: State, n: nat, key: U64)
    requires RateInvariant(c, s) && n <= |s.counters|
    ensures QueuedByAll(s.h.log, n, key) <= Product(n, c.Quota())
  {
    if n > 0 {
      assert Lookup(s.counters[n - 1], key) <= c.Quota();
      QueuedByAllBounded(c, s, n - 1, key);
    }
  }

  /** All messages of one round are counted under one key. */
  lemma SameKey(c: Config, a: MessageTuple, b: MessageTuple)
    requires c.Valid() && Target(c, a) == Target(c, b)
    ensures CounterKey(c, a.tDst) == CounterKey(c, b.tDst)
  {
  }

  lemma RoundBound(c: Config, s: State, r: nat)
    requires c.Valid() && RateInvariant(c, s) && Labelled(c, s.h.log) && BoundInvariant(s.h) && r < |s.h.released|
    ensures |s.h.released[r]| <= c.Quota() * c.kAMax
  {
    var due := DueIn(s.h.log, r);
    SubMultisetSize(s.h.released[r], multiset(due));
    if exists e :: e in s.h.log && e.target == r {
      var e :| e in s.h.log && e.target == r;
      forall x | x in s.h.log && x.target == r ensures x.key == e.key { SameKey(c, x.m, e.m); }
      DueInCounted(c, s.h.log, r, |s.pseudonyms|, e.key);
      QueuedByAllBounded(c, s, |s.pseudonyms|, e.key);
    } else {
      DueInCounted(c, s.h.log, r, |s.pseudonyms|, 0);
      QueuedByAllBounded(c, s, |s.pseudonyms|, 0);
    }
    ProductPlus(|s.pseudonyms|, c.kAMax - |s.pseudonyms|, c.Quota());
    ProductIsMultiplication(c.kAMax, c.Quota());
  }

  lemma SubMultisetSize(a: multiset<MessageTuple>, b: multiset<MessageTuple>)
    requires a <= b
    ensures |a| <= |b|
  {
    assert b == a + (b - a);
  }

  // ---------------------------------------------------------------- theorems about runs

  ghost predicate HistoryInvariant(c: Config, h: History)
    requires c.Valid()
  {
    && Labelled(c, h.log)
    && BlockInvariant(c, h)
    && BoundInvariant(h)
    && (InTime(h.log) ==> ReleaseInvariant(h))
  }

  /** What every call keeps. */
  ghost predicate Invariant(c: Config, s: State)
    requires c.Valid()
  {
    RateInvariant(c, s) && ClockInvariant(c, s.h, s.clock) && HistoryInvariant(c, s.h)
  }

  lemma LoggingKeepsHistory(c: Config, h: History, src: nat, m: MessageTuple, now: U64)
    requires c.Valid() && HistoryInvariant(c, h) && ClockInvariant(c, h, now)
    requires !TooLate(c, now, m.tDst) && ClockInRange(c, now)
    ensures HistoryInvariant(c, Logged(c, h, src, m))
  {
    LoggingKeepsRelease(c, h, src, m);
    LoggingKeepsBlocks(c, h, src, m, now);
    LoggingKeepsBound(c, h, src, m);
  }

  lemma OutKeepsHistory(c: Config, h: History, now: U64)
    requires c.Valid() && HistoryInvariant(c, h) && ClockInvariant(c, h, now)
    requires |h.released| <= c.RoundOf(now) && ClockInRange(c, now)
    ensures HistoryInvariant(c, Out(c, h))
  {
    if InTime(h.log) { OutKeepsRelease(c, h, now); }
    OutKeepsBlocks(c, h, now);
    OutKeepsBound(c, h, now);
  }

  lemma SendKeepsInvariant(c: Config, s: State, now: U64, src: DecryptedPseudonym, m: MessageTuple)
    requires c.Valid() && Invariant(c, s) && s.clock <= now && ClockInRange(c, now)
    ensures Invariant(c, Send(c, s, now, src, m).(clock := now))
  {
    RoundMonotone(c, s.clock, now);
    SendKeepsRate(c, s, now, src, m);
    if Accepts(c, s, now, src, m) { LoggingKeepsHistory(c, s.h, src.localNum, m, now); }
  }

  lemma OutKeepsInvariant(c: Config, s: State, now: U64)
    requires c.Valid() && Invariant(c, s) && s.clock <= now && ClockInRange(c, now)
    requires Admit(c, s.Cur(), now) == Admitted
    ensures Invariant(c, s.(h := Out(c, s.h), clock := now))
  {
    RoundMonotone(c, s.clock, now);
    RoundOfSubround(c, now);
    OutKeepsHistory(c, s.h, now);
  }

  lemma ApplyKeepsInvariant(c: Config, s: State, e: Event)
    requires c.Valid() && Invariant(c, s) && Apply(c, s, e).Some?
    ensures Invariant(c, Apply(c, s, e).value)
  {
    match e
    case GenerateEvent(onidRepr, own) => GenerateKeepsRate(c, s, onidRepr, own);
    case SendEvent(now, src, m) => SendKeepsInvariant(c, s, now, src, m);
    case OutEvent(now) =>
      if Admit(c, s.Cur(), now) == Admitted {
        OutKeepsInvariant(c, s, now);
      } else {
        RoundMonotone(c, s.clock, now);
      }
  }

  lemma {:induction false} RunKeepsInvariant(c: Config, events: seq<Event>)
    requires c.Valid() && Run(c, events).Some?
    ensures Invariant(c, Run(c, events).value)
  {
    if events != [] {
      RunKeepsInvariant(c, events[..|events| - 1]);
      ApplyKeepsInvariant(c, Run(c, events[..|events| - 1]).value, events[|events| - 1]);
    }
  }

  /** In every run: each round has released exactly the messages that belong to it, and the queue
      holds exactly those of later rounds, if and only if every accepted message was handed in
      early enough. */
  lemma ReleasedOnTimeIff(c: Config, events: seq<Event>)
    requires c.Valid() && Run(c, events).Some?
    ensures var h := Run(c, events).value.h;
            ReleaseInvariant(h) <==> forall e :: e in h.log ==> HandedInEarly(c, e)
  {
    RunKeepsInvariant(c, events);
    var h := Run(c, events).value.h;
    if e :| e in h.log && !HandedInEarly(c, e) {
      assert Blocked(h, e);
      PendingMembers(c, h.log, h.Cur());
      assert e.m !in multiset(Pending(h.log, h.Cur()));
    }
  }

  /** Otherwise the message stays at the head for ever and blocks the queue: no round carried out
      after it was accepted releases anything. */
  lemma LateMessageBlocksQueue(c: Config, events: seq<Event>, e: Entry)
    requires c.Valid() && Run(c, events).Some?
    requires e in Run(c, events).value.h.log && !HandedInEarly(c, e)
    ensures Blocked(Run(c, events).value.h, e)
  {
    RunKeepsInvariant(c, events);
  }

  /** In every run: the counters count what was queued and respect the quota - k_send, or 1 when that
      is 0 - and no round announces more than quota * A_max messages. */
  lemma RateLimit(c: Config, events: seq<Event>)
    requires c.Valid() && Run(c, events).Some?
    ensures var s := Run(c, events).value;
            && |s.pseudonyms| <= c.kAMax
            && (forall i, key :: 0 <= i < |s.counters| ==>
                  Lookup(s.counters[i], key) == QueuedFor(s.h.log, i, key) <= c.Quota())
            && (forall r :: 0 <= r < |s.h.released| ==> |s.h.released[r]| <= c.Quota() * c.kAMax)
  {
    RunKeepsInvariant(c, events);
    var s := Run(c, events).value;
    forall r | 0 <= r < |s.h.released| ensures |s.h.released[r]| <= c.Quota() * c.kAMax {
      RoundBound(c, s, r);
    }
  }

  // ---------------------------------------------------------------- draining the queue

  lemma {:induction false} Earliest(q: multiset<MessageTuple>) returns (m: MessageTuple)
    requires q != multiset{}
    ensures m in q && forall x :: x in q ==> m.tDst <= x.tDst
    decreases |q|
  {
    m :| m in q;
    var rest := q - multiset{m};
    assert q == rest + multiset{m};
    if rest != multiset{} {
      var n := Earliest(rest);
      if n.tDst < m.tDst { m := n; }
    }
  }

  /** What was popped is in the order of delivery times, before everything left. */
  ghost predicate LeastFirst(popped: seq<MessageTuple>, rest: multiset<MessageTuple>) {
    && (forall i, j :: 0 <= i < j < |popped| ==> popped[i].tDst <= popped[j].tDst)
    && (forall i, x :: 0 <= i < |popped| && x in rest ==> popped[i].tDst <= x.tDst)
  }

  lemma NothingPoppedYet(q: multiset<MessageTuple>)
    ensures LeastFirst([], q)
  {
  }

  lemma PopLeast(popped: seq<MessageTuple>, rest: multiset<MessageTuple>, top: MessageTuple)
    requires LeastFirst(popped, rest) && top in rest && forall x :: x in rest ==> top.tDst <= x.tDst
    ensures LeastFirst(popped + [top], rest - multiset{top})
  {
  }

  /** Pops while the head is due. The head of the priority queue is some message with the least
      delivery time. */
  method PopDue(c: Config, queue: multiset<MessageTuple>, cur: nat)
    returns (rest: multiset<MessageTuple>, popped: seq<MessageTuple>)
    ensures multiset(popped) == Popped(c, queue, cur)
    ensures rest == queue - Popped(c, queue, cur)
    ensures LeastFirst(popped, rest)
  {
    rest, popped := queue, [];
    hide LeastFirst;
    NothingPoppedYet(queue);
    while rest != multiset{}
      invariant queue == rest + multiset(popped)
      invariant forall m :: m in popped ==> IsDue(c, m, cur)
      invariant LeastFirst(popped, rest)
      invariant popped != [] ==> forall m :: m in rest ==> WindowStart(c, cur + c.Delay()) <= m.tDst
      decreases |rest|
    {
      ghost var least := Earliest(rest);
      var top :| top in rest && forall x :: x in rest ==> top.tDst <= x.tDst;
      if !IsDue(c, top, cur) {
        break;
      }
      PopLeast(popped, rest, top);
      rest := rest - multiset{top};
      popped := popped + [top];
    }
    PoppedWhileDue(c, queue, rest, popped, cur);
  }

  lemma SplitAt(queue: multiset<MessageTuple>, rest: multiset<MessageTuple>, popped: seq<MessageTuple>, hi: nat)
    requires queue == rest + multiset(popped)
    requires forall m :: m in popped ==> m.tDst < hi
    requires forall m :: m in rest ==> hi <= m.tDst
    ensures multiset(popped) == Below(queue, hi)
  {
    forall m ensures multiset(popped)[m] == Below(queue, hi)[m] {
      if m.tDst < hi { assert m !in rest; } else { assert m !in popped; }
    }
  }

  lemma PoppedWhileDue(c: Config, queue: multiset<MessageTuple>, rest: multiset<MessageTuple>,
                       popped: seq<MessageTuple>, cur: nat)
    requires queue == rest + multiset(popped)
    requires forall m :: m in popped ==> IsDue(c, m, cur)
    requires popped != [] ==> forall m :: m in rest ==> WindowStart(c, cur + c.Delay()) <= m.tDst
    requires rest != multiset{} ==>
               exists top :: top in rest && !IsDue(c, top, cur) && forall x :: x in rest ==> top.tDst <= x.tDst
    ensures multiset(popped) == Popped(c, queue, cur) && rest == queue - Popped(c, queue, cur)
  {
    hide WindowStart, Below;
    if popped == [] {
      if !Overdue(c, queue, cur) {
        SplitAt(queue, rest, popped, WindowStart(c, cur + c.Delay() + 1));
      }
    } else {
      forall m | m in queue ensures WindowStart(c, cur + c.Delay()) <= m.tDst {
        if m !in rest { assert m in multiset(popped) && IsDue(c, m, cur); }
      }
      SplitAt(queue, rest, popped, WindowStart(c, cur + c.Delay() + 1));
    }
  }

  lemma WithinBoundIff(c: Config, n: nat)
    requires n <= c.Quota() * c.kAMax
    ensures n <= c.kSend * c.kAMax <==> c.kSend > 0 || n == 0
  {
  }

  /** What leaves the queue in a round of a run keeps within the announce bound k_send * A_max, unless
      k_send is 0: then it does iff it is nothing. */
  lemma AnnounceWithinBoundIff(c: Config, events: seq<Event>, r: nat, popped: seq<MessageTuple>)
    requires c.Valid() && Run(c, events).Some? && r < |Run(c, events).value.h.released|
    requires multiset(popped) == Run(c, events).value.h.released[r]
    ensures |popped| <= c.kSend * c.kAMax <==> c.kSend > 0 || popped == []
  {
    hide Run;
    RateLimit(c, events);
    assert |multiset(popped)| == |popped|;
    WithinBoundIff(c, |popped|);
  }

  function FirstPseudonym(onidRepr: U64, own: Peer): DecryptedPseudonym { DecryptedPseudonym(onidRepr, own, 0) }

  /** A run of two calls: a pseudonym is generated and a message is sent from it at time 0. */
  function FirstMessage(onidRepr: U64, own: Peer, m: MessageTuple): seq<Event> {
    [GenerateEvent(onidRepr, own), SendEvent(0, FirstPseudonym(onidRepr, own), m)]
  }

  lemma FirstMessageRun(c: Config, onidRepr: U64, own: Peer, m: MessageTuple)
    requires c.Valid() && c.kAMax > 0 && ClockInRange(c, 0) && !TooLate(c, 0, m.tDst)
    ensures Run(c, FirstMessage(onidRepr, own, m)).Some?
    ensures var s, key := Run(c, FirstMessage(onidRepr, own, m)).value, CounterKey(c, m.tDst);
            && s.h.log == [Entry(0, m, key, Target(c, m), -1)]
            && |s.counters| == 1 && Lookup(s.counters[0], key) == 1
  {
    hide TooLate, CounterKey, Target, ClockInRange;
    var events := FirstMessage(onidRepr, own, m);
    assert events[..1] == [events[0]] && events[..1][..0] == [];
    assert RunFrom(c, INITIAL, []) == Some(INITIAL);
    assert RunFrom(c, INITIAL, events[..1]) == Some(Generate(c, INITIAL, onidRepr, own));
  }

  /** The limit k_send = 0 does not hold back the first message of a round. */
  lemma ZeroLimitExceeded(onidRepr: U64, own: Peer, m: MessageTuple)
    requires m.tDst == 1000
    ensures var c := Config(3, 3, 0, 2, 1);
            Run(c, FirstMessage(onidRepr, own, m)).Some?
            && var counters := Run(c, FirstMessage(onidRepr, own, m)).value.counters;
               |counters| == 1 && Lookup(counters[0], CounterKey(c, 1000)) > c.kSend
  {
    var c := Config(3, 3, 0, 2, 1);
    ProductIsMultiplication(17, 12);
    FirstMessageRun(c, onidRepr, own, m);
  }

  /** A message for time 2 sent at time 0 is accepted in the default configuration, although it would
      have to be handed in 204 time units ahead. */
  lemma LateMessageAccepted(c: Config, onidRepr: U64, own: Peer, m: MessageTuple)
    requires c == Config(3, 3, 1, 2, 1) && m.tDst == 2
    ensures Lead(c) == 204 && Run(c, FirstMessage(onidRepr, own, m)).Some?
    ensures var log := Run(c, FirstMessage(onidRepr, own, m)).value.h.log;
            |log| == 1 && log[0].m == m && !HandedInEarly(c, log[0])
  {
    ProductIsMultiplication(17, 12);
    ProductIsMultiplication(c.Delay(), c.Span());
    FirstMessageRun(c, onidRepr, own, m);
  }
}

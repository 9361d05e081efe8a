/** What each call does to the outgoing queue in every run, in plain numbers: times, windows and counts are
    written out, with division and remainder on the time itself. */
module QueueCalls {
  import opened Bits
  import opened OutgoingQueue
  import opened Options
  import opened Rounds
  import opened Sequences
  import opened Structures

  lemma RunExtends(c: Config, events: seq<Event>, e: Event)
    requires c.Valid() && Run(c, events).Some?
    ensures Run(c, events + [e]) == Apply(c, Run(c, events).value, e)
  {
    assert (events + [e])[..|events|] == events;
    hide Apply;
  }

  // ---------------------------------------------------------------- counting

  /** The delivery times fall into rounds with the same number modulo 2^32. */
  predicate SameRound(c: Config, t: U64, u: U64)
    requires c.Valid()
  {
    t / (4 * c.kDelta) % TWO_32 == u / (4 * c.kDelta) % TWO_32
  }

  /** How many messages pseudonym `src` has queued that count as of the round of `tDst`. */
  function QueuedThen(c: Config, log: seq<Entry>, src: nat, tDst: U64): nat
    requires c.Valid()
  {
    |Filter((e: Entry) => e.src == src && SameRound(c, e.m.tDst, tDst), log)|
  }

  lemma KeyIff(c: Config, t: U64, u: U64)
    requires c.Valid()
    ensures CounterKey(c, t) == CounterKey(c, u) <==> SameRound(c, t, u)
  {
    QuotientIsDivision(t, 4 * c.kDelta);
    QuotientIsDivision(u, 4 * c.kDelta);
  }

  lemma {:induction false} CountIs(c: Config, log: seq<Entry>, src: nat, tDst: U64)
    requires c.Valid() && Labelled(c, log)
    ensures QueuedFor(log, src, CounterKey(c, tDst)) == QueuedThen(c, log, src, tDst)
  {
    if log != [] {
      var n := |log| - 1;
      assert log[n] in log;
      CountIs(c, log[..n], src, tDst);
      KeyIff(c, log[n].m.tDst, tDst);
      hide SameRound, CounterKey;
    }
  }

  /** A counter exists only once it counts. */
  ghost predicate NoZeroCounter(s: State) {
    forall i, key :: 0 <= i < |s.counters| && key in s.counters[i] ==> s.counters[i][key] > 0
  }

  lemma {:induction false} CountersPositive(c: Config, events: seq<Event>)
    requires c.Valid() && Run(c, events).Some?
    ensures NoZeroCounter(Run(c, events).value)
  {
    if events != [] {
      CountersPositive(c, events[..|events| - 1]);
      StepCountersPositive(c, Run(c, events[..|events| - 1]).value, events[|events| - 1]);
    }
  }

  lemma StepCountersPositive(c: Config, s: State, e: Event)
    requires c.Valid() && NoZeroCounter(s) && Apply(c, s, e).Some?
    ensures NoZeroCounter(Apply(c, s, e).value)
  {
    hide Out, Admit, CounterKey, TooLate, ClockInRange;
  }

  /** The limit is reached when as many as k_send have been queued; with k_send = 0, when one has. */
  lemma LimitIff(c: Config, s: State, src: nat, tDst: U64)
    requires c.Valid() && Invariant(c, s) && NoZeroCounter(s) && src < |s.counters|
    ensures LimitReached(c, s.counters[src], CounterKey(c, tDst)) <==>
              QueuedThen(c, s.h.log, src, tDst) >= if c.kSend == 0 then 1 else c.kSend
  {
    CountIs(c, s.h.log, src, tDst);
    hide QueuedThen, CounterKey, HistoryInvariant, ClockInvariant;
    var key := CounterKey(c, tDst);
    assert Lookup(s.counters[src], key) == QueuedFor(s.h.log, src, key);
  }

  // ---------------------------------------------------------------- send_message

  lemma LeadIs(c: Config)
    ensures Lead(c) == (3 * c.dimension + 8) * (4 * c.kDelta)
  {
    ProductIsMultiplication(c.AgreementTime() + c.RoutingTime() + 4, 4 * c.kDelta);
  }

  lemma AcceptsIff(c: Config, s: State, now: U64, src: DecryptedPseudonym, m: MessageTuple)
    requires c.Valid() && Invariant(c, s) && NoZeroCounter(s)
    requires now + (3 * c.dimension + 8) * (4 * c.kDelta) < TWO_64
    ensures Accepts(c, s, now, src, m) <==>
              && src in s.pseudonyms
              && (m.tDst < (3 * c.dimension + 8) * (4 * c.kDelta)
                  || now + (3 * c.dimension + 8) * (4 * c.kDelta) <= m.tDst)
              && QueuedThen(c, s.h.log, src.localNum, m.tDst) < if c.kSend == 0 then 1 else c.kSend
  {
    LeadIs(c);
    LatenessCheck(c, now, m.tDst);
    if src in s.pseudonyms {
      OwnCounter(c, s, src);
      LimitIff(c, s, src.localNum, m.tDst);
    }
    hide Lead, TooLate, LimitReached, QueuedThen, CounterKey, Invariant;
  }

  lemma OwnCounter(c: Config, s: State, src: DecryptedPseudonym)
    requires RateInvariant(c, s) && src in s.pseudonyms
    ensures src.localNum < |s.counters|
  {
    hide QueuedFor;
  }

  /** In every run, for every message handed in next: it is queued and logged iff the source is a
      pseudonym of the client, it is not handed in less than the lead time ahead - which only delivery times
      of at least the lead are checked for - and the pseudonym has queued fewer than its quota for rounds
      with the same number modulo 2^32. Otherwise nothing changes. */
  lemma SentIff(c: Config, events: seq<Event>, now: U64, src: DecryptedPseudonym, m: MessageTuple)
    requires c.Valid() && Run(c, events).Some? && Run(c, events).value.clock <= now
    requires now + (3 * c.dimension + 8) * (4 * c.kDelta) < TWO_64
    ensures var s, next := Run(c, events).value, Run(c, events + [SendEvent(now, src, m)]);
            var lead := (3 * c.dimension + 8) * (4 * c.kDelta);
            && next.Some? && next.value.pseudonyms == s.pseudonyms && next.value.h.released == s.h.released
            && next.value.clock == now
            && if src in s.pseudonyms && (m.tDst < lead || now + lead <= m.tDst)
                  && QueuedThen(c, s.h.log, src.localNum, m.tDst) < (if c.kSend == 0 then 1 else c.kSend)
               then next.value.h.queue == s.h.queue + multiset{m}
                    && |next.value.h.log| == |s.h.log| + 1 && next.value.h.log[..|s.h.log|] == s.h.log
                    && var e := next.value.h.log[|s.h.log|]; e.src == src.localNum && e.m == m && e.at == s.Cur()
               else next.value.h == s.h
  {
    RunKeepsInvariant(c, events);
    CountersPositive(c, events);
    RunExtends(c, events, SendEvent(now, src, m));
    hide *;
    AcceptsIff(c, Run(c, events).value, now, src, m);
    LeadIs(c);
    SendDone(c, Run(c, events).value, now, src, m);
  }

  lemma SendDone(c: Config, s: State, now: U64, src: DecryptedPseudonym, m: MessageTuple)
    requires c.Valid() && s.clock <= now && now + Lead(c) < TWO_64
    ensures var next := Apply(c, s, SendEvent(now, src, m));
            && next.Some? && next.value.pseudonyms == s.pseudonyms && next.value.h.released == s.h.released
            && next.value.clock == now
            && if Accepts(c, s, now, src, m)
               then next.value.h.queue == s.h.queue + multiset{m}
                    && |next.value.h.log| == |s.h.log| + 1 && next.value.h.log[..|s.h.log|] == s.h.log
                    && var e := next.value.h.log[|s.h.log|]; e.src == src.localNum && e.m == m && e.at == s.Cur()
               else next.value.h == s.h
  {
    hide Lead, TooLate, LimitReached, CounterKey;
  }

  // ---------------------------------------------------------------- generate_pseudonym

  /** In every run: one more pseudonym, numbered by a byte, as long as there are fewer than A_max; none of
      the earlier ones, and nothing in the queue, changes. */
  lemma GeneratedIff(c: Config, events: seq<Event>, onidRepr: U64, own: Peer)
    requires c.Valid() && Run(c, events).Some?
    ensures var s, next := Run(c, events).value, Run(c, events + [GenerateEvent(onidRepr, own)]);
            && next.Some? && next.value.h == s.h && next.value.clock == s.clock
            && next.value.pseudonyms == s.pseudonyms
                 + if |s.pseudonyms| < c.kAMax then [DecryptedPseudonym(onidRepr, own, |s.pseudonyms| % 0x100)] else []
  {
    RunExtends(c, events, GenerateEvent(onidRepr, own));
    hide Run;
  }

  // ---------------------------------------------------------------- traffic_out

  /** Round `n` releases nothing if a message is overdue, that is addressed to before round n + 3d + 7, and
      otherwise every message addressed to before round n + 3d + 8. */
  ghost predicate ReleasedIn(c: Config, n: nat, before: multiset<MessageTuple>, released: multiset<MessageTuple>,
                             after: multiset<MessageTuple>)
  {
    var overdue := exists x :: x in before && x.tDst < (n + 3 * c.dimension + 7) * (4 * c.kDelta);
    forall m: MessageTuple ::
      && released[m] == (if !overdue && m.tDst < (n + 3 * c.dimension + 8) * (4 * c.kDelta) then before[m] else 0)
      && after[m] == before[m] - released[m]
  }

  lemma AdmitIff(c: Config, cur: int, now: U64)
    requires c.Valid()
    ensures var n := now / (4 * c.kDelta);
            Admit(c, cur, now) ==
              if now % (4 * c.kDelta) >= c.kDelta || n == cur then Skipped
              else if n == cur + 1 then Admitted else Aborted
  {
    QuotientIsDivision(now, c.kDelta);
    SubroundOfTime(now, c.kDelta);
  }

  lemma SubroundOfTime(now: nat, k: nat)
    requires k > 0
    ensures now / k / 4 == now / (4 * k)
    ensures now / k % 4 == 0 <==> now % (4 * k) < k
  {
    var q, r := now / k, now % k;
    assert now == k * q + r;
    assert k * q == (4 * k) * (q / 4) + k * (q % 4);
    SmallMultiple(k, q % 4, r);
    DivUnique(now, 4 * k, q / 4, k * (q % 4) + r);
  }

  lemma SmallMultiple(k: nat, i: nat, r: nat)
    requires k > 0 && i < 4 && r < k
    ensures 0 <= k * i + r < 4 * k
    ensures k * i + r < k <==> i == 0
  {
    if i == 1 { assert k * i == k; } else if i == 2 { assert k * i == 2 * k; } else if i == 3 { assert k * i == 3 * k; }
  }

  /** In every run, for every call of traffic_out: it is skipped outside the first quarter of a round and in
      a round already carried out, fails when a round has been missed, and else carries out the next round
      and releases what is due in it. */
  lemma RoundIff(c: Config, events: seq<Event>, now: U64, n: nat)
    requires c.Valid() && Run(c, events).Some? && Run(c, events).value.clock <= now && n == now / (4 * c.kDelta)
    requires now + (3 * c.dimension + 8) * (4 * c.kDelta) < TWO_64
    ensures var s, next := Run(c, events).value, Run(c, events + [OutEvent(now)]);
            if now % (4 * c.kDelta) >= c.kDelta || n == s.Cur() then next == Some(s.(clock := now))
            else if n != s.Cur() + 1 then next.None?
            else
              && next.Some? && next.value.pseudonyms == s.pseudonyms && next.value.h.log == s.h.log
              && |next.value.h.released| == |s.h.released| + 1
              && next.value.h.released[..|s.h.released|] == s.h.released
              && ReleasedIn(c, n, s.h.queue, next.value.h.released[|s.h.released|], next.value.h.queue)
  {
    hide *;
    RunExtends(c, events, OutEvent(now));
    LeadIs(c);
    RoundStep(c, Run(c, events).value, now, n);
  }

  lemma RoundStep(c: Config, s: State, now: U64, n: nat)
    requires c.Valid() && s.clock <= now && now + Lead(c) < TWO_64 && n == now / (4 * c.kDelta)
    ensures var next := Apply(c, s, OutEvent(now));
            if now % (4 * c.kDelta) >= c.kDelta || n == s.Cur() then next == Some(s.(clock := now))
            else if n != s.Cur() + 1 then next.None?
            else
              && next.Some? && next.value.pseudonyms == s.pseudonyms && next.value.h.log == s.h.log
              && |next.value.h.released| == |s.h.released| + 1
              && next.value.h.released[..|s.h.released|] == s.h.released
              && ReleasedIn(c, n, s.h.queue, next.value.h.released[|s.h.released|], next.value.h.queue)
  {
    AdmitIff(c, s.Cur(), now);
    PoppedIn(c, s.h.queue, n, now);
    OutApplied(c, s, now);
    hide Lead, Admit, Popped, ReleasedIn, Apply;
    assert n == s.Cur() + 1 ==> n == |s.h.released|;
  }

  lemma OutApplied(c: Config, s: State, now: U64)
    requires c.Valid() && s.clock <= now && now + Lead(c) < TWO_64
    ensures var next := Apply(c, s, OutEvent(now));
            match Admit(c, s.Cur(), now)
            case Skipped => next == Some(s.(clock := now))
            case Aborted => next.None?
            case Admitted =>
              var popped := Popped(c, s.h.queue, |s.h.released|);
              && next.Some? && next.value.pseudonyms == s.pseudonyms && next.value.h.log == s.h.log
              && |next.value.h.released| == |s.h.released| + 1
              && next.value.h.released[..|s.h.released|] == s.h.released
              && next.value.h.released[|s.h.released|] == popped && next.value.h.queue == s.h.queue - popped
  {
    hide Lead, Admit, Popped;
  }

  lemma PoppedIn(c: Config, queue: multiset<MessageTuple>, n: nat, now: U64)
    requires c.Valid() && n == now / (4 * c.kDelta) && now + Lead(c) < TWO_64
    ensures ReleasedIn(c, n, queue, Popped(c, queue, n), queue - Popped(c, queue, n))
  {
    WindowsOf(c, n, now);
    hide *;
    PoppedBelow(c, queue, n, (n + 3 * c.dimension + 7) * (4 * c.kDelta), (n + 3 * c.dimension + 8) * (4 * c.kDelta));
  }

  lemma PoppedBelow(c: Config, queue: multiset<MessageTuple>, n: nat, lo: nat, hi: nat)
    requires WindowStart(c, n + c.Delay()) == lo && WindowStart(c, n + c.Delay() + 1) == hi
    requires lo == (n + 3 * c.dimension + 7) * (4 * c.kDelta) && hi == (n + 3 * c.dimension + 8) * (4 * c.kDelta)
    ensures ReleasedIn(c, n, queue, Popped(c, queue, n), queue - Popped(c, queue, n))
  {
    hide WindowStart;
  }

  lemma WindowsOf(c: Config, n: nat, now: U64)
    requires c.Valid() && n == now / (4 * c.kDelta) && now + Lead(c) < TWO_64
    ensures WindowStart(c, n + c.Delay()) == (n + 3 * c.dimension + 7) * (4 * c.kDelta)
    ensures WindowStart(c, n + c.Delay() + 1) == (n + 3 * c.dimension + 8) * (4 * c.kDelta)
  {
    QuotientIsDivision(now, 4 * c.kDelta);
    NoOverflow(c, n, now);
    ProductIsMultiplication(n + c.Delay(), c.Span());
    ProductIsMultiplication(n + c.Delay() + 1, c.Span());
    hide WindowStart, Product, Lead;
  }

  // ---------------------------------------------------------------- the log

  /** In every run: a message of the log belongs to the round its delivery time falls into, less
      3d + 7. */
  lemma TargetOfLogged(c: Config, events: seq<Event>, e: Entry)
    requires c.Valid() && Run(c, events).Some? && e in Run(c, events).value.h.log
    ensures e.target == e.m.tDst / (4 * c.kDelta) - (3 * c.dimension + 7)
  {
    RunKeepsInvariant(c, events);
    QuotientIsDivision(e.m.tDst, 4 * c.kDelta);
    hide Run, RateInvariant, BlockInvariant, BoundInvariant, ReleaseInvariant, ClockInvariant;
  }
}

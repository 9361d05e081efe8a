/** The agreement scheme and the table of agreement tuples a client takes part in.

    Every tuple lives for a fixed number of rounds L. The history of the state keeps the gamma_agree
    of each round, the tuples ever created with the round they were born in (current round minus
    counter), and the messages finalized in each round. */
module Agreement {
  import opened Bits
  import opened Options
  import opened Ordering
  import opened Sequences
  import opened Structures

  // ---------------------------------------------------------------- the scheme

  /** `set_s_i_` after one update: initialised on the first call, merged with what was heard later. */
  function UpdatedKnown(aware: bool, known: set<Peer>, own: Peer, sM: seq<Peer>): set<Peer> {
    var started := if aware then known + {own} else known;
    if started == {} then {own} else started + Elements(sM)
  }

  /** The nodes announced in one update. */
  function Announced(aware: bool, known: set<Peer>, own: Peer): seq<Peer> {
    if aware || known == {} then [own] else []
  }

  datatype SchemePair = SchemePair(receiver: Peer, awareNode: Peer)

  function PairsOf(announced: seq<Peer>): Peer -> seq<SchemePair> {
    (id: Peer) => seq(|announced|, i requires 0 <= i < |announced| => SchemePair(id, announced[i]))
  }

  function Pairs(participants: seq<Peer>, announced: seq<Peer>): seq<SchemePair> {
    FlatMap(PairsOf(announced), participants)
  }

  lemma {:induction false} PairsMembers(participants: seq<Peer>, announced: seq<Peer>)
    ensures forall i, x :: SchemePair(i, x) in Pairs(participants, announced) <==> i in participants && x in announced
  {
    if participants != [] {
      var n := |participants| - 1;
      PairsMembers(participants[..n], announced);
      assert participants == participants[..n] + [participants[n]];
      forall x ensures SchemePair(participants[n], x) in PairsOf(announced)(participants[n]) <==> x in announced {
        if x in announced {
          var k :| 0 <= k < |announced| && announced[k] == x;
          assert PairsOf(announced)(participants[n])[k] == SchemePair(participants[n], x);
        }
      }
    }
  }

  class DistributedAgreementScheme {
    var setSI: set<Peer>

    constructor (known: set<Peer>)
      ensures setSI == known
    {
      setSI := known;
    }

    method Update(aware: bool, participatingNodes: seq<Peer>, ownId: Peer, sM: seq<Peer>)
      returns (result: seq<SchemePair>)
      modifies this
      ensures setSI == UpdatedKnown(aware, old(setSI), ownId, sM)
      ensures result == Pairs(participatingNodes, Announced(aware, old(setSI), ownId))
      ensures forall x :: x in setSI <==>
                || x in old(setSI) || (x == ownId && (aware || old(setSI) == {}))
                || (x in sM && (aware || old(setSI) != {}))
      ensures forall i, x :: SchemePair(i, x) in result <==>
                i in participatingNodes && x == ownId && (aware || old(setSI) == {})
    {
      var sOut := [];
      if aware {
        setSI := setSI + {ownId};
        sOut := sOut + [ownId];
      }
      if setSI == {} {
        setSI := setSI + {ownId};
        sOut := sOut + [ownId];
      } else if sM != [] {
        setSI := setSI + Elements(sM);
      }
      assert sOut == Announced(aware, old(setSI), ownId);
      result := [];
      for i := 0 to |participatingNodes|
        invariant result == Pairs(participatingNodes[..i], sOut)
      {
        var id := participatingNodes[i];
        ghost var before := result;
        for j := 0 to |sOut|
          invariant result == before + PairsOf(sOut)(id)[..j]
        {
          result := result + [SchemePair(id, sOut[j])];
        }
        assert participatingNodes[..i + 1][..i] == participatingNodes[..i];
      }
      assert participatingNodes[..|participatingNodes|] == participatingNodes;
      PairsMembers(participatingNodes, sOut);
    }

    method Finalize(ownId: Peer, sM: seq<Peer>, t: nat) returns (v: bool)
      modifies this
      ensures setSI == old(setSI) + Elements(sM) + {ownId}
      ensures v <==> |old(setSI) + Elements(sM) + {ownId}| > t
      ensures t == 0 ==> v
    {
      setSI := setSI + Elements(sM);
      setSI := setSI + {ownId};
      v := |setSI| >= t + 1;
      assert ownId in setSI;
    }
  }

  // ---------------------------------------------------------------- the tuple table

  datatype LocalTuple = LocalTuple(message: MessageTuple, aware: bool, known: set<Peer>,
                                   participants: seq<Peer>, round: U64)

  /** What other participants have said about `m`. */
  function HeardAbout(m: MessageTuple, ags: seq<AgreementTuple>): seq<Peer> {
    Map((a: AgreementTuple) => a.s, Filter((a: AgreementTuple) => a.m == m, ags))
  }

  /** Announced messages start an agreement; it runs among last round's participants. */
  function Started(announces: seq<MessageTuple>, previous: seq<Peer>): seq<LocalTuple> {
    Map((m: MessageTuple) => LocalTuple(m, true, {}, previous, 0), announces)
  }

  predicate Knows(tuples: seq<LocalTuple>, m: MessageTuple) {
    exists i :: 0 <= i < |tuples| && tuples[i].message == m
  }

  /** Joining the agreements heard of but not yet taken part in; `agreement.l - 1` is unsigned.
      None when the history does not reach back far enough, where the source's `at` throws. */
  function Joined(tuples: seq<LocalTuple>, ags: seq<AgreementTuple>, history: seq<seq<Peer>>, L: nat)
    : Option<seq<LocalTuple>>
  {
    if ags == [] then Some(tuples)
    else
      match Joined(tuples, ags[..|ags| - 1], history, L)
      case None => None
      case Some(before) =>
        var a := ags[|ags| - 1];
        if a.l >= L - 1 || Knows(before, a.m) then Some(before)
        else if a.l >= |history| then None
        else Some(before + [LocalTuple(a.m, false, {}, history[a.l], (a.l - 1) % TWO_64)])
  }

  function Advanced(t: LocalTuple, own: Peer, ags: seq<AgreementTuple>): LocalTuple {
    t.(known := UpdatedKnown(t.aware, t.known, own, HeardAbout(t.message, ags)),
       aware := false, round := (t.round + 1) % TWO_64)
  }

  datatype Send = Send(receiver: Peer, tuple: AgreementTuple)

  /** What updating `t` sends; the counter sent along is one ahead of the advanced counter. */
  function Sends(t: LocalTuple, own: Peer): seq<Send> {
    var l := ((t.round + 1) % TWO_64 + 1) % TWO_64;
    Map((p: SchemePair) => Send(p.receiver, AgreementTuple(t.message, p.awareNode, l)),
        Pairs(t.participants, Announced(t.aware, t.known, own)))
  }

  function Finals(tuples: seq<LocalTuple>, L: nat): seq<MessageTuple> {
    Map((t: LocalTuple) => t.message, Filter((t: LocalTuple) => t.round == L - 1, tuples))
  }

  function Remaining(tuples: seq<LocalTuple>, L: nat): seq<LocalTuple> {
    Filter((t: LocalTuple) => t.round != L, tuples)
  }

  function PushFront(history: seq<seq<Peer>>, gammaAgree: seq<Peer>, L: nat): seq<seq<Peer>> {
    var pushed := [gammaAgree] + history;
    if |pushed| > L then pushed[..|pushed| - 1] else pushed
  }

  // ---------------------------------------------------------------- one round

  datatype Birth = Birth(m: MessageTuple, born: int)

  datatype State = State(
    history: seq<seq<Peer>>,
    tuples: seq<LocalTuple>,
    gamma: seq<seq<Peer>>,
    births: seq<Birth>,
    finals: seq<seq<MessageTuple>>)
  {
    function Cur(): int { |gamma| - 1 }
  }

  const INITIAL := State([], [], [], [], [])

  datatype Input = Input(gammaAgree: seq<Peer>, announces: seq<MessageTuple>, agreements: seq<AgreementTuple>)

  function BirthOf(cur: int): LocalTuple -> Birth {
    (t: LocalTuple) => Birth(t.message, cur - t.round)
  }

  /** All tuples of the round before their update, or None when the round throws. */
  function Present(s: State, i: Input, L: nat): Option<seq<LocalTuple>> {
    var history := PushFront(s.history, i.gammaAgree, L);
    if i.announces != [] && |history| < 2 then None
    else
      Joined(s.tuples + (if i.announces == [] then [] else Started(i.announces, history[1])), i.agreements, history, L)
  }

  function Round(s: State, i: Input, own: Peer, L: nat): Option<State> {
    match Present(s, i, L)
    case None => None
    case Some(present) =>
      var advanced := AdvanceAll(present, own, i.agreements);
      Some(State(
        PushFront(s.history, i.gammaAgree, L),
        Remaining(advanced, L),
        s.gamma + [i.gammaAgree],
        s.births + (if |present| < |s.tuples| then [] else Map(BirthOf(s.Cur() + 1), advanced[|s.tuples|..])),
        s.finals + [Finals(advanced, L)]))
  }

  function RoundSends(s: State, i: Input, own: Peer, L: nat): seq<Send> {
    match Present(s, i, L)
    case None => []
    case Some(present) => FlatMap(SendsOf(own), present)
  }

  function Run(inputs: seq<Input>, own: Peer, L: nat): Option<State> {
    if inputs == [] then Some(INITIAL)
    else
      match Run(inputs[..|inputs| - 1], own, L)
      case None => None
      case Some(s) => Round(s, inputs[|inputs| - 1], own, L)
  }

  // ---------------------------------------------------------------- invariants

  /** The deque holds the participants of the last min(cur + 1, L) rounds, newest first. */
  ghost predicate HistoryInvariant(s: State, L: nat) {
    && |s.history| == (if |s.gamma| < L then |s.gamma| else L)
    && forall k :: 0 <= k < |s.history| ==> s.history[k] == s.gamma[|s.gamma| - 1 - k]
  }

  /** A tuple of round `cur` between calls: it has spoken, its counter is below L, and it runs
      among the participants of the round it was born in. */
  ghost predicate TupleInvariant(t: LocalTuple, gamma: seq<seq<Peer>>, L: nat) {
    && !t.aware && t.known != {}
    && t.round < L
    && 0 <= |gamma| - 1 - t.round
    && t.participants == gamma[|gamma| - 1 - t.round]
  }

  function Alive(cur: int, L: nat): Birth -> bool {
    (b: Birth) => b.born + L > cur
  }

  function BornAt(r: int): Birth -> bool {
    (b: Birth) => b.born == r
  }

  function MessageOf(b: Birth): MessageTuple { b.m }

  ghost predicate Invariant(s: State, L: nat) {
    && HistoryInvariant(s, L)
    && (forall t :: t in s.tuples ==> TupleInvariant(t, s.gamma, L))
    && Map(BirthOf(s.Cur()), s.tuples) == Filter(Alive(s.Cur(), L), s.births)
    && |s.finals| == |s.gamma|
    && (forall r :: 0 <= r < |s.finals| ==> s.finals[r] == Map(MessageOf, Filter(BornAt(r - L + 1), s.births)))
  }

  /** A tuple just created: it will come out of its first update with counter `l`, and runs among
      the participants of `l` rounds ago. */
  ghost predicate FreshAt(t: LocalTuple, history: seq<seq<Peer>>, L: nat, l: nat) {
    && l < |history| && l <= L - 1
    && t.known == {} && t.participants == history[l] && t.round == (l - 1) % TWO_64
  }

  ghost predicate Fresh(t: LocalTuple, history: seq<seq<Peer>>, L: nat) {
    exists l: nat :: FreshAt(t, history, L, l)
  }

  lemma {:induction false} JoinedShape(tuples: seq<LocalTuple>, ags: seq<AgreementTuple>, history: seq<seq<Peer>>,
                                       L: nat)
    requires Joined(tuples, ags, history, L).Some?
    ensures var r := Joined(tuples, ags, history, L).value;
            && tuples <= r
            && forall i :: |tuples| <= i < |r| ==> Fresh(r[i], history, L)
  {
    if ags != [] {
      JoinedShape(tuples, ags[..|ags| - 1], history, L);
      var before := Joined(tuples, ags[..|ags| - 1], history, L).value;
      var a := ags[|ags| - 1];
      if a.l < L - 1 && !Knows(before, a.m) {
        assert FreshAt(LocalTuple(a.m, false, {}, history[a.l], (a.l - 1) % TWO_64), history, L, a.l);
      }
    }
  }

  /** A round starts from the old tuples, in order, followed by fresh ones. */
  lemma PresentShape(s: State, i: Input, L: nat)
    requires L >= 2 && Present(s, i, L).Some?
    ensures var present := Present(s, i, L).value;
            && s.tuples <= present
            && forall k :: |s.tuples| <= k < |present| ==> Fresh(present[k], PushFront(s.history, i.gammaAgree, L), L)
  {
    hide Joined;
    var history := PushFront(s.history, i.gammaAgree, L);
    var started := if i.announces == [] then [] else Started(i.announces, history[1]);
    JoinedShape(s.tuples + started, i.agreements, history, L);
    var present := Present(s, i, L).value;
    forall k | |s.tuples| <= k < |present| ensures Fresh(present[k], history, L) {
      if k < |s.tuples + started| {
        assert present[k] == (s.tuples + started)[k] == started[k - |s.tuples|];
        assert FreshAt(present[k], history, L, 1);
      }
    }
  }

  lemma HistoryKept(s: State, gammaAgree: seq<Peer>, L: nat)
    requires HistoryInvariant(s, L) && L > 0
    ensures var h, gamma := PushFront(s.history, gammaAgree, L), s.gamma + [gammaAgree];
            && |h| == (if |gamma| < L then |gamma| else L)
            && forall k :: 0 <= k < |h| ==> h[k] == gamma[|gamma| - 1 - k]
  {
  }

  /** What an update leaves: counters advanced by one, births unchanged. */
  ghost predicate AdvancedInvariant(t: LocalTuple, gamma: seq<seq<Peer>>, L: nat) {
    && !t.aware && t.known != {}
    && t.round <= L
    && (t.round < L ==> 0 <= |gamma| - 1 - t.round && t.participants == gamma[|gamma| - 1 - t.round])
  }

  lemma OldAdvances(t: LocalTuple, s: State, i: Input, own: Peer, L: nat)
    requires TupleInvariant(t, s.gamma, L) && L < TWO_64
    ensures AdvancedInvariant(Advanced(t, own, i.agreements), s.gamma + [i.gammaAgree], L)
    ensures Advanced(t, own, i.agreements).round == t.round + 1
  {
  }

  lemma FreshAdvances(t: LocalTuple, s: State, i: Input, own: Peer, L: nat)
    requires HistoryInvariant(s, L) && 2 <= L < TWO_64
    requires Fresh(t, PushFront(s.history, i.gammaAgree, L), L)
    ensures AdvancedInvariant(Advanced(t, own, i.agreements), s.gamma + [i.gammaAgree], L)
    ensures Advanced(t, own, i.agreements).round <= L - 1
  {
    hide PushFront, HeardAbout;
    var l: nat :| FreshAt(t, PushFront(s.history, i.gammaAgree, L), L, l);
    HistoryKept(s, i.gammaAgree, L);
    assert ((l - 1) % TWO_64 + 1) % TWO_64 == l;
  }

  function AdvanceAll(present: seq<LocalTuple>, own: Peer, ags: seq<AgreementTuple>): seq<LocalTuple> {
    Map((t: LocalTuple) => Advanced(t, own, ags), present)
  }

  function NewBirths(s: State, i: Input, own: Peer, L: nat): seq<Birth>
    requires Present(s, i, L).Some? && |s.tuples| <= |Present(s, i, L).value|
  {
    Map(BirthOf(s.Cur() + 1), AdvanceAll(Present(s, i, L).value, own, i.agreements)[|s.tuples|..])
  }

  lemma AdvancedAt(s: State, i: Input, own: Peer, L: nat, k: nat)
    requires Invariant(s, L) && 2 <= L < TWO_64 && Present(s, i, L).Some? && k < |Present(s, i, L).value|
    ensures |s.tuples| <= |Present(s, i, L).value|
    ensures var t := Advanced(Present(s, i, L).value[k], own, i.agreements);
            && AdvancedInvariant(t, s.gamma + [i.gammaAgree], L)
            && (k < |s.tuples| ==> t.message == s.tuples[k].message && t.round == s.tuples[k].round + 1)
            && (k >= |s.tuples| ==> t.round <= L - 1)
  {
    hide Joined, PushFront, Filter, HistoryInvariant, AdvancedInvariant;
    PresentShape(s, i, L);
    var present := Present(s, i, L).value;
    if k < |s.tuples| {
      assert present[k] == s.tuples[k] && s.tuples[k] in s.tuples;
      OldAdvances(present[k], s, i, own, L);
    } else {
      FreshAdvances(present[k], s, i, own, L);
    }
  }

  /** All tuples after the update, and the births they account for. */
  lemma UpdateStep(s: State, i: Input, own: Peer, L: nat)
    requires Invariant(s, L) && 2 <= L < TWO_64 && Present(s, i, L).Some?
    ensures |s.tuples| <= |Present(s, i, L).value|
    ensures var advanced := AdvanceAll(Present(s, i, L).value, own, i.agreements);
            && (forall t :: t in advanced ==> AdvancedInvariant(t, s.gamma + [i.gammaAgree], L))
            && Map(BirthOf(s.Cur() + 1), advanced)
                 == Filter(Alive(s.Cur(), L), s.births) + NewBirths(s, i, own, L)
    ensures forall b :: b in NewBirths(s, i, own, L) ==> b.born + L > s.Cur() + 1
  {
    hide Present, Filter, AdvancedInvariant, Advanced;
    PresentLength(s, i, L);
    var present := Present(s, i, L).value;
    var advanced := AdvanceAll(present, own, i.agreements);
    forall k | 0 <= k < |present|
      ensures AdvancedInvariant(advanced[k], s.gamma + [i.gammaAgree], L)
      ensures k < |s.tuples| ==> BirthOf(s.Cur() + 1)(advanced[k]) == BirthOf(s.Cur())(s.tuples[k])
      ensures k >= |s.tuples| ==> advanced[k].round <= L - 1
    {
      AdvancedAt(s, i, own, L, k);
    }
    assert advanced == advanced[..|s.tuples|] + advanced[|s.tuples|..];
    MapConcat(BirthOf(s.Cur() + 1), advanced[..|s.tuples|], advanced[|s.tuples|..]);
    assert Map(BirthOf(s.Cur() + 1), advanced[..|s.tuples|]) == Map(BirthOf(s.Cur()), s.tuples);
  }

  lemma PresentLength(s: State, i: Input, L: nat)
    requires L >= 2 && Present(s, i, L).Some?
    ensures |s.tuples| <= |Present(s, i, L).value|
  {
    PresentShape(s, i, L);
  }

  lemma RemainingStep(advanced: seq<LocalTuple>, births: seq<Birth>, news: seq<Birth>, gamma: seq<seq<Peer>>,
                      cur: int, L: nat)
    requires forall t :: t in advanced ==> AdvancedInvariant(t, gamma, L)
    requires cur == |gamma| - 1
    requires Map(BirthOf(cur), advanced) == Filter(Alive(cur - 1, L), births) + news
    ensures forall t :: t in Remaining(advanced, L) ==> TupleInvariant(t, gamma, L)
    ensures Map(BirthOf(cur), Remaining(advanced, L)) == Filter(Alive(cur, L), births + news)
  {
    hide Filter;
    FilterMembers((t: LocalTuple) => t.round != L, advanced);
    FilterMap(BirthOf(cur), Alive(cur, L), (t: LocalTuple) => t.round != L, advanced);
    FilterConcat(Alive(cur, L), Filter(Alive(cur - 1, L), births), news);
    FilterTwice(Alive(cur, L), Alive(cur - 1, L), births);
    FilterConcat(Alive(cur, L), births, news);
  }

  lemma FinalsStep(advanced: seq<LocalTuple>, births: seq<Birth>, news: seq<Birth>, cur: int, L: nat)
    requires Map(BirthOf(cur), advanced) == Filter(Alive(cur - 1, L), births) + news
    ensures Finals(advanced, L) == Map(MessageOf, Filter(BornAt(cur - L + 1), births + news))
  {
    hide Filter;
    var last := (t: LocalTuple) => t.round == L - 1;
    FilterMap(BirthOf(cur), BornAt(cur - L + 1), last, advanced);
    FilterConcat(BornAt(cur - L + 1), Filter(Alive(cur - 1, L), births), news);
    FilterTwice(BornAt(cur - L + 1), Alive(cur - 1, L), births);
    FilterConcat(BornAt(cur - L + 1), births, news);
    var f := Filter(last, advanced);
    assert Map(MessageOf, Map(BirthOf(cur), f)) == Map((t: LocalTuple) => t.message, f);
  }

  lemma OldFinalsStay(births: seq<Birth>, news: seq<Birth>, r: int, cur: int, L: nat)
    requires r < cur && forall b :: b in news ==> b.born + L > cur
    ensures Filter(BornAt(r - L + 1), births + news) == Filter(BornAt(r - L + 1), births)
  {
    FilterConcat(BornAt(r - L + 1), births, news);
    FilterNone(BornAt(r - L + 1), news);
  }

  lemma RoundKeepsInvariant(s: State, i: Input, own: Peer, L: nat)
    requires Invariant(s, L) && 2 <= L < TWO_64 && Round(s, i, own, L).Some?
    ensures Invariant(Round(s, i, own, L).value, L)
  {
    hide Joined, PushFront, Filter, Present, Finals, Remaining;
    UpdateStep(s, i, own, L);
    HistoryKept(s, i.gammaAgree, L);
    var s' := Round(s, i, own, L).value;
    var advanced := AdvanceAll(Present(s, i, L).value, own, i.agreements);
    var news := NewBirths(s, i, own, L);
    RemainingStep(advanced, s.births, news, s'.gamma, s'.Cur(), L);
    FinalsStep(advanced, s.births, news, s'.Cur(), L);
    forall r | 0 <= r < |s.finals| ensures s'.finals[r] == Map(MessageOf, Filter(BornAt(r - L + 1), s'.births)) {
      OldFinalsStay(s.births, news, r, s'.Cur(), L);
    }
  }

  lemma GammaGrows(s: State, i: Input, own: Peer, L: nat)
    requires Round(s, i, own, L).Some?
    ensures Round(s, i, own, L).value.gamma == s.gamma + [i.gammaAgree]
  {
  }

  lemma InitialInvariant(L: nat)
    ensures Invariant(INITIAL, L)
  {
  }

  lemma {:induction false} RunKeepsInvariant(inputs: seq<Input>, own: Peer, L: nat)
    requires 2 <= L < TWO_64 && Run(inputs, own, L).Some?
    ensures Invariant(Run(inputs, own, L).value, L)
  {
    hide Round, Invariant;
    if inputs == [] {
      InitialInvariant(L);
    } else {
      RunKeepsInvariant(inputs[..|inputs| - 1], own, L);
      RoundKeepsInvariant(Run(inputs[..|inputs| - 1], own, L).value, inputs[|inputs| - 1], own, L);
    }
  }

  lemma {:induction false} RunGamma(inputs: seq<Input>, own: Peer, L: nat)
    requires Run(inputs, own, L).Some?
    ensures var gamma := Run(inputs, own, L).value.gamma;
            |gamma| == |inputs| && forall k :: 0 <= k < |inputs| ==> gamma[k] == inputs[k].gammaAgree
  {
    hide Round;
    if inputs != [] {
      var n := |inputs| - 1;
      RunGamma(inputs[..n], own, L);
      GammaGrows(Run(inputs[..n], own, L).value, inputs[n], own, L);
    }
  }

  // ---------------------------------------------------------------- theorems about runs

  /** In every run: each tuple is finalized in exactly one round, L - 1 rounds after the one it was
      born in, and leaves the table in the next; in between it is there, updated once a round. */
  lemma TupleLifecycle(inputs: seq<Input>, own: Peer, L: nat)
    requires 2 <= L < TWO_64 && Run(inputs, own, L).Some?
    ensures var s := Run(inputs, own, L).value;
            && |s.finals| == |inputs|
            && (forall r :: 0 <= r < |s.finals| ==>
                  s.finals[r] == Map(MessageOf, Filter(BornAt(r - L + 1), s.births)))
            && Map(BirthOf(s.Cur()), s.tuples) == Filter(Alive(s.Cur(), L), s.births)
  {
    hide Run, Filter;
    RunKeepsInvariant(inputs, own, L);
    RunGamma(inputs, own, L);
  }

  /** In every run: the deque holds the participants of the last min(cur_round + 1, L) rounds, and
      a tuple with counter l runs among the participants of round cur_round - l. */
  lemma Participants(inputs: seq<Input>, own: Peer, L: nat)
    requires 2 <= L < TWO_64 && Run(inputs, own, L).Some?
    ensures var s := Run(inputs, own, L).value;
            var cur := |inputs| - 1;
            && |s.history| == (if |inputs| < L then |inputs| else L)
            && (forall k :: 0 <= k < |s.history| ==> s.history[k] == inputs[cur - k].gammaAgree)
            && (forall t :: t in s.tuples ==>
                  t.round < L && t.round <= cur && t.participants == inputs[cur - t.round].gammaAgree)
  {
    hide Run, Filter;
    RunKeepsInvariant(inputs, own, L);
    RunGamma(inputs, own, L);
  }

  lemma FreshSpeaks(t: LocalTuple, own: Peer)
    requires t.known == {}
    ensures |Sends(t, own)| == |t.participants|
    ensures forall k :: 0 <= k < |t.participants| ==>
              Sends(t, own)[k] == Send(t.participants[k],
                                       AgreementTuple(t.message, own, ((t.round + 1) % TWO_64 + 1) % TWO_64))
  {
    PairsWithOne(t.participants, own);
  }

  lemma {:induction false} PairsWithOne(participants: seq<Peer>, own: Peer)
    ensures Pairs(participants, [own]) == Map((id: Peer) => SchemePair(id, own), participants)
  {
    if participants != [] {
      var n := |participants| - 1;
      PairsWithOne(participants[..n], own);
      assert PairsOf([own])(participants[n]) == [SchemePair(participants[n], own)];
      assert participants == participants[..n] + [participants[n]];
    }
  }

  lemma SilentAfterwards(t: LocalTuple, own: Peer)
    requires !t.aware && t.known != {}
    ensures Sends(t, own) == []
  {
    FlatMapEmpty(PairsOf([]), t.participants);
  }

  /** A node announces itself once for each agreement, in the round in which it takes the message
      up, to every participant: `FreshSpeaks` says what a new tuple sends, and no other sends. */
  lemma SpeaksOnce(s: State, i: Input, own: Peer, L: nat)
    requires Invariant(s, L) && L >= 2 && Present(s, i, L).Some?
    ensures |s.tuples| <= |Present(s, i, L).value|
    ensures RoundSends(s, i, own, L)
         == FlatMap(SendsOf(own), Present(s, i, L).value[|s.tuples|..])
    ensures forall k :: |s.tuples| <= k < |Present(s, i, L).value| ==> Present(s, i, L).value[k].known == {}
  {
    hide Joined, Filter, HistoryInvariant, Sends;
    PresentShape(s, i, L);
    var present := Present(s, i, L).value;
    var f := SendsOf(own);
    assert present == s.tuples + present[|s.tuples|..];
    FlatMapConcat(f, s.tuples, present[|s.tuples|..]);
    forall t | t in s.tuples ensures f(t) == [] { SilentAfterwards(t, own); }
    FlatMapEmpty(f, s.tuples);
  }

  // ---------------------------------------------------------------- two nodes

  /** The tuples a round has when it comes to the `k`-th agreement message of its input. */
  function TuplesBefore(s: State, i: Input, k: nat, L: nat): Option<seq<LocalTuple>>
    requires k <= |i.agreements| && (i.announces == [] || |PushFront(s.history, i.gammaAgree, L)| >= 2)
  {
    var history := PushFront(s.history, i.gammaAgree, L);
    var started := if i.announces == [] then [] else Started(i.announces, history[1]);
    Joined(s.tuples + started, i.agreements[..k], history, L)
  }

  lemma {:induction false} JoinedAt(tuples: seq<LocalTuple>, ags: seq<AgreementTuple>, k: nat, history: seq<seq<Peer>>,
                                    L: nat) returns (before: seq<LocalTuple>)
    requires Joined(tuples, ags, history, L).Some? && k < |ags| && ags[k].l < L - 1
    ensures Joined(tuples, ags[..k], history, L) == Some(before)
    ensures tuples <= before
    ensures var r, a := Joined(tuples, ags, history, L).value, ags[k];
            !Knows(before, a.m) ==>
              && a.l < |history| && |before| < |r|
              && r[|before|] == LocalTuple(a.m, false, {}, history[a.l], (a.l - 1) % TWO_64)
  {
    hide Knows;
    var n := |ags| - 1;
    if k == n {
      before := Joined(tuples, ags[..n], history, L).value;
      JoinedShape(tuples, ags[..n], history, L);
    } else {
      before := JoinedAt(tuples, ags[..n], k, history, L);
      assert ags[..n][..k] == ags[..k];
    }
  }

  /** What is sent comes from some tuple of the round, with the counter that tuple then has, plus
      one. */
  lemma SenderOf(s: State, i: Input, own: Peer, L: nat, x: Send) returns (k: nat)
    requires Invariant(s, L) && 2 <= L < TWO_64 - 1 && Present(s, i, L).Some? && x in RoundSends(s, i, own, L)
    ensures k < |Present(s, i, L).value|
    ensures var t := Advanced(Present(s, i, L).value[k], own, i.agreements);
            t.message == x.tuple.m && t.round + 1 == x.tuple.l
            && AdvancedInvariant(t, s.gamma + [i.gammaAgree], L)
  {
    hide Present, Invariant, AdvancedInvariant, FlatMap, UpdatedKnown, HeardAbout, Pairs, Announced;
    var present := Present(s, i, L).value;
    k := FlatMapMember(SendsOf(own), present, x);
    AdvancedAt(s, i, own, L, k);
    AdvancedRound(Advanced(present[k], own, i.agreements), s.gamma + [i.gammaAgree], L);
  }

  lemma AdvancedRound(t: LocalTuple, gamma: seq<seq<Peer>>, L: nat)
    requires AdvancedInvariant(t, gamma, L)
    ensures t.round <= L
    ensures t.round < L ==> 0 <= |gamma| - 1 - t.round && t.participants == gamma[|gamma| - 1 - t.round]
  {
  }

  /** A tuple whose agreement is not over stays in the table, and its birth is on record. */
  lemma StaysAlive(s: State, i: Input, own: Peer, L: nat, k: nat)
    requires Invariant(s, L) && 2 <= L < TWO_64 && Round(s, i, own, L).Some?
    requires k < |Present(s, i, L).value| && Advanced(Present(s, i, L).value[k], own, i.agreements).round < L
    ensures var s', t := Round(s, i, own, L).value, Advanced(Present(s, i, L).value[k], own, i.agreements);
            t in s'.tuples && Birth(t.message, s.Cur() + 1 - t.round) in s'.births
  {
    hide Present, Invariant, Finals, PushFront, HeardAbout, UpdatedKnown, Filter;
    GammaGrows(s, i, own, L);
    var present := Present(s, i, L).value;
    var s' := Round(s, i, own, L).value;
    var advanced := AdvanceAll(present, own, i.agreements);
    var t := advanced[k];
    FilterMembers((t: LocalTuple) => t.round != L, advanced);
    assert t in s'.tuples;
    RoundKeepsInvariant(s, i, own, L);
    BirthOnRecord(s', L, t);
  }

  lemma BirthOnRecord(s: State, L: nat, t: LocalTuple)
    requires Invariant(s, L) && t in s.tuples
    ensures BirthOf(s.Cur())(t) in s.births
  {
    hide Filter, HistoryInvariant, TupleInvariant;
    var k :| 0 <= k < |s.tuples| && s.tuples[k] == t;
    assert Map(BirthOf(s.Cur()), s.tuples)[k] == BirthOf(s.Cur())(t);
    FilterMembers(Alive(s.Cur(), L), s.births);
  }

  /** Counters on different nodes are not aligned. When what one node sends in a round makes another
      join, two rounds later, the birth of the joined tuple is one round after that of the sender's
      tuple - so it runs among the hearer's participants of that later round and, by
      `TupleLifecycle`, is finalized one round after the sender's. */
  lemma HeardOneRoundLater(a: State, i: Input, own: Peer, x: Send, b: State, j: Input, k: nat, hearer: Peer, L: nat)
    returns (t: LocalTuple, u: LocalTuple)
    requires 2 <= L < TWO_64 - 1 && Invariant(a, L) && Invariant(b, L) && b.Cur() == a.Cur() + 2
    requires Round(a, i, own, L).Some? && Round(b, j, hearer, L).Some?
    requires x in RoundSends(a, i, own, L)
    requires k < |j.agreements| && j.agreements[k] == x.tuple && x.tuple.l < L - 1
    requires TuplesBefore(b, j, k, L).Some? && !Knows(TuplesBefore(b, j, k, L).value, x.tuple.m)
    ensures t in Round(a, i, own, L).value.tuples && u in Round(b, j, hearer, L).value.tuples
    ensures t.message == u.message == x.tuple.m
    ensures var born, born' := a.Cur() + 1 - t.round, b.Cur() + 1 - u.round;
            && born' == born + 1
            && Birth(x.tuple.m, born) in Round(a, i, own, L).value.births
            && Birth(x.tuple.m, born') in Round(b, j, hearer, L).value.births
            && 0 <= born' < |b.gamma| + 1 && u.participants == (b.gamma + [j.gammaAgree])[born']
  {
    hide Invariant, Round, RoundSends, TuplesBefore, Knows;
    t := SenderSide(a, i, own, x, L);
    u := HearerSide(b, j, k, hearer, L);
  }

  lemma SenderSide(a: State, i: Input, own: Peer, x: Send, L: nat) returns (t: LocalTuple)
    requires 2 <= L < TWO_64 - 1 && Invariant(a, L) && Round(a, i, own, L).Some?
    requires x in RoundSends(a, i, own, L) && x.tuple.l < L - 1
    ensures t in Round(a, i, own, L).value.tuples && t.message == x.tuple.m && t.round + 1 == x.tuple.l
    ensures Birth(x.tuple.m, a.Cur() + 1 - t.round) in Round(a, i, own, L).value.births
  {
    hide Invariant, RoundSends, AdvancedInvariant, Advanced;
    var p := SenderOf(a, i, own, L, x);
    t := Advanced(Present(a, i, L).value[p], own, i.agreements);
    StaysAlive(a, i, own, L, p);
  }

  lemma HearerSide(b: State, j: Input, k: nat, hearer: Peer, L: nat) returns (u: LocalTuple)
    requires 2 <= L < TWO_64 && Invariant(b, L) && Round(b, j, hearer, L).Some?
    requires k < |j.agreements| && j.agreements[k].l < L - 1
    requires TuplesBefore(b, j, k, L).Some? && !Knows(TuplesBefore(b, j, k, L).value, j.agreements[k].m)
    ensures var x := j.agreements[k];
            && u in Round(b, j, hearer, L).value.tuples && u.message == x.m && u.round == x.l
            && Birth(x.m, b.Cur() + 1 - u.round) in Round(b, j, hearer, L).value.births
            && 0 <= b.Cur() + 1 - u.round && u.participants == (b.gamma + [j.gammaAgree])[b.Cur() + 1 - u.round]
  {
    hide Invariant, AdvancedInvariant, Advanced, TuplesBefore, Knows, Present, Round;
    PresentIfRound(b, j, hearer, L);
    var q := HearerOf(b, j, k, L);
    JoinedAdvances(Present(b, j, L).value[q], hearer, j.agreements, j.agreements[k].l);
    u := Advanced(Present(b, j, L).value[q], hearer, j.agreements);
    AdvancedAt(b, j, hearer, L, q);
    AdvancedRound(u, b.gamma + [j.gammaAgree], L);
    StaysAlive(b, j, hearer, L, q);
  }

  lemma PresentIfRound(s: State, i: Input, own: Peer, L: nat)
    requires Round(s, i, own, L).Some?
    ensures Present(s, i, L).Some?
  {
    hide Present;
  }

  lemma JoinedAdvances(p: LocalTuple, own: Peer, ags: seq<AgreementTuple>, l: nat)
    requires l < TWO_64 && p.round == (l - 1) % TWO_64
    ensures Advanced(p, own, ags).message == p.message && Advanced(p, own, ags).round == l
  {
  }

  lemma HearerOf(b: State, j: Input, k: nat, L: nat) returns (q: nat)
    requires Present(b, j, L).Some? && k < |j.agreements| && j.agreements[k].l < L - 1
    requires TuplesBefore(b, j, k, L).Some? && !Knows(TuplesBefore(b, j, k, L).value, j.agreements[k].m)
    ensures q < |Present(b, j, L).value|
    ensures var x, p := j.agreements[k], Present(b, j, L).value[q];
            p.message == x.m && p.round == (x.l - 1) % TWO_64
  {
    hide Knows, Joined;
    var history := PushFront(b.history, j.gammaAgree, L);
    var started := if j.announces == [] then [] else Started(j.announces, history[1]);
    var before := JoinedAt(b.tuples + started, j.agreements, k, history, L);
    q := |before|;
  }

  // ---------------------------------------------------------------- the loops of a round

  method Find(tuples: seq<LocalTuple>, m: MessageTuple) returns (found: bool)
    ensures found <==> Knows(tuples, m)
  {
    found := false;
    for k := 0 to |tuples|
      invariant !found && forall j :: 0 <= j < k ==> tuples[j].message != m
    {
      if tuples[k].message == m {
        return true;
      }
    }
  }

  /** Starts the announced agreements and joins the ones heard of; `ok` is false where `at` throws. */
  method StartAndJoin(s: State, i: Input, history: seq<seq<Peer>>, L: nat) returns (ok: bool, tuples: seq<LocalTuple>)
    requires history == PushFront(s.history, i.gammaAgree, L)
    ensures ok <==> Present(s, i, L).Some?
    ensures ok ==> tuples == Present(s, i, L).value
  {
    tuples := s.tuples;
    if i.announces != [] && |history| < 2 {
      return false, tuples;
    }
    for k := 0 to |i.announces|
      invariant tuples == s.tuples + (if k == 0 then [] else Started(i.announces[..k], history[1]))
    {
      tuples := tuples + [LocalTuple(i.announces[k], true, {}, history[1], 0)];
    }
    assert i.announces[..|i.announces|] == i.announces;
    ok, tuples := JoinAll(tuples, i.agreements, history, L);
  }

  method JoinAll(started: seq<LocalTuple>, ags: seq<AgreementTuple>, history: seq<seq<Peer>>, L: nat)
    returns (ok: bool, tuples: seq<LocalTuple>)
    ensures ok <==> Joined(started, ags, history, L).Some?
    ensures ok ==> tuples == Joined(started, ags, history, L).value
  {
    tuples := started;
    for k := 0 to |ags|
      invariant Joined(started, ags[..k], history, L) == Some(tuples)
    {
      var a := ags[k];
      JoinedStep(started, ags, k, history, L);
      if a.l < L - 1 {
        var found := Find(tuples, a.m);
        if !found {
          if a.l >= |history| {
            JoinedNone(started, ags, k + 1, history, L);
            return false, tuples;
          }
          tuples := tuples + [LocalTuple(a.m, false, {}, history[a.l], (a.l - 1) % TWO_64)];
        }
      }
    }
    assert ags[..|ags|] == ags;
    ok := true;
  }

  lemma JoinedStep(tuples: seq<LocalTuple>, ags: seq<AgreementTuple>, k: nat, history: seq<seq<Peer>>, L: nat)
    requires k < |ags|
    ensures ags[..k + 1][..k] == ags[..k]
  {
  }

  lemma {:induction false} JoinedNone(tuples: seq<LocalTuple>, ags: seq<AgreementTuple>, k: nat,
                                      history: seq<seq<Peer>>, L: nat)
    requires k <= |ags| && Joined(tuples, ags[..k], history, L).None?
    ensures Joined(tuples, ags, history, L).None?
    decreases |ags| - k
  {
    if k == |ags| {
      assert ags[..k] == ags;
    } else {
      assert ags[..k + 1][..k] == ags[..k];
      JoinedNone(tuples, ags, k + 1, history, L);
    }
  }

  method CollectHeard(m: MessageTuple, ags: seq<AgreementTuple>) returns (sM: seq<Peer>)
    ensures sM == HeardAbout(m, ags)
  {
    sM := [];
    for k := 0 to |ags|
      invariant sM == HeardAbout(m, ags[..k])
    {
      assert ags[..k + 1][..k] == ags[..k];
      if ags[k].m == m {
        sM := sM + [ags[k].s];
      }
    }
    assert ags[..|ags|] == ags;
  }

  method UpdateOne(t: LocalTuple, own: Peer, ags: seq<AgreementTuple>) returns (t': LocalTuple, out: seq<Send>)
    ensures t' == Advanced(t, own, ags) && out == Sends(t, own)
  {
    var sM := CollectHeard(t.message, ags);
    var scheme := new DistributedAgreementScheme(t.known);
    var pairs := scheme.Update(t.aware, t.participants, own, sM);
    t' := t.(known := scheme.setSI, aware := false, round := (t.round + 1) % TWO_64);
    out := [];
    for j := 0 to |pairs|
      invariant out == Sends(t, own)[..j]
    {
      out := out + [Send(pairs[j].receiver, AgreementTuple(t.message, pairs[j].awareNode, (t'.round + 1) % TWO_64))];
    }
  }

  function SendsOf(own: Peer): LocalTuple -> seq<Send> {
    (t: LocalTuple) => Sends(t, own)
  }

  /** Updates every tuple and collects what the updates send, in order. */
  method UpdateAll(tuples: seq<LocalTuple>, own: Peer, ags: seq<AgreementTuple>)
    returns (advanced: seq<LocalTuple>, sends: seq<Send>)
    ensures advanced == AdvanceAll(tuples, own, ags)
    ensures sends == FlatMap(SendsOf(own), tuples)
  {
    hide Sends, Advanced;
    advanced, sends := [], [];
    for k := 0 to |tuples|
      invariant advanced == AdvanceAll(tuples[..k], own, ags)
      invariant sends == FlatMap(SendsOf(own), tuples[..k])
    {
      assert tuples[..k + 1][..k] == tuples[..k];
      var t', out := UpdateOne(tuples[k], own, ags);
      advanced, sends := advanced + [t'], sends + out;
    }
    assert tuples[..|tuples|] == tuples;
  }

  /** The messages whose agreement ends in this round; with t = 0 every outcome is positive. */
  method FinalizeAll(advanced: seq<LocalTuple>, own: Peer, ags: seq<AgreementTuple>, L: nat)
    returns (finals: seq<MessageTuple>)
    ensures finals == Finals(advanced, L)
  {
    finals := [];
    for k := 0 to |advanced|
      invariant finals == Finals(advanced[..k], L)
    {
      var t := advanced[k];
      assert advanced[..k + 1][..k] == advanced[..k];
      if t.round == L - 1 {
        var sM := CollectHeard(t.message, ags);
        var scheme := new DistributedAgreementScheme(t.known);
        var v := scheme.Finalize(own, sM, 0);
        if v {
          finals := finals + [t.message];
        }
      }
    }
    assert advanced[..|advanced|] == advanced;
  }

  method RemoveFinished(advanced: seq<LocalTuple>, L: nat) returns (remaining: seq<LocalTuple>)
    ensures remaining == Remaining(advanced, L)
  {
    remaining := [];
    for k := 0 to |advanced|
      invariant remaining == Remaining(advanced[..k], L)
    {
      assert advanced[..k + 1][..k] == advanced[..k];
      if advanced[k].round != L {
        remaining := remaining + [advanced[k]];
      }
    }
    assert advanced[..|advanced|] == advanced;
  }

  /** The agreement part of one round, on the deque and the tuple table. `ok` is false where `at`
      throws. */
  method CarryOut(history: seq<seq<Peer>>, tuples: seq<LocalTuple>, i: Input, own: Peer, L: nat, ghost s: State)
    returns (ok: bool, history': seq<seq<Peer>>, tuples': seq<LocalTuple>, sends: seq<Send>, finals: seq<MessageTuple>)
    requires s.history == history && s.tuples == tuples
    ensures ok <==> Round(s, i, own, L).Some?
    ensures ok ==>
      && Round(s, i, own, L).value.history == history' && Round(s, i, own, L).value.tuples == tuples'
      && Round(s, i, own, L).value.finals == s.finals + [finals]
      && sends == RoundSends(s, i, own, L)
  {
    hide Joined, Started, PushFront, Advanced, Sends, Filter, FlatMap, Knows;
    history', tuples', sends, finals := PushFront(history, i.gammaAgree, L), tuples, [], [];
    var present, advanced;
    ok, present := StartAndJoin(State(history, tuples, [], [], []), i, history', L);
    if !ok {
      return;
    }
    assert Present(s, i, L) == Some(present);
    advanced, sends := UpdateAll(present, own, i.agreements);
    finals := FinalizeAll(advanced, own, i.agreements, L);
    tuples' := RemoveFinished(advanced, L);
  }
}

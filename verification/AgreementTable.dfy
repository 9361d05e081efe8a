/** Which messages the agreement table holds, and whom their tuples know: the table of a round and of a
    run in terms of the messages that came in. */
module AgreementTable {
  import opened Agreement
  import opened Bits
  import opened Options
  import opened Sequences
  import opened Structures

  // ---------------------------------------------------------------- one round

  /** No tuple from place `from` on has the message of a tuple before it. */
  ghost predicate NewOnes(tuples: seq<LocalTuple>, from: nat) {
    forall j, k :: 0 <= j < k < |tuples| && from <= k ==> tuples[j].message != tuples[k].message
  }

  /** Some tuple of the table is about `m`. */
  ghost predicate About(tuples: seq<LocalTuple>, m: MessageTuple) {
    exists t :: t in tuples && t.message == m
  }

  ghost predicate Heard(ags: seq<AgreementTuple>, m: MessageTuple, L: nat) {
    exists a :: a in ags && a.m == m && a.l < L - 1
  }

  lemma {:induction false} JoinedTable(tuples: seq<LocalTuple>, ags: seq<AgreementTuple>, history: seq<seq<Peer>>,
                                       L: nat)
    requires Joined(tuples, ags, history, L).Some?
    ensures var r := Joined(tuples, ags, history, L).value;
            && NewOnes(r, |tuples|)
            && (forall m :: About(r, m) <==> About(tuples, m) || Heard(ags, m, L))
            && tuples <= r
            && forall k :: |tuples| <= k < |r| ==> !r[k].aware && r[k].known == {}
  {
    if ags != [] {
      var n := |ags| - 1;
      JoinedTable(tuples, ags[..n], history, L);
      var before := Joined(tuples, ags[..n], history, L).value;
      var r := Joined(tuples, ags, history, L).value;
      OneMoreHeard(before, ags[..n], ags[n], r, history, L);
      assert ags == ags[..n] + [ags[n]];
      hide Joined;
      forall m ensures About(r, m) <==> About(tuples, m) || Heard(ags, m, L) {
        HeardStep(ags[..n], ags[n], m, L);
      }
    }
  }

  lemma HeardStep(ags: seq<AgreementTuple>, a: AgreementTuple, m: MessageTuple, L: nat)
    ensures Heard(ags + [a], m, L) <==> Heard(ags, m, L) || (a.m == m && a.l < L - 1)
  {
    if Heard(ags, m, L) {
      var x :| x in ags && x.m == m && x.l < L - 1;
      assert x in ags + [a];
    }
    assert a in ags + [a];
  }

  /** What one more agreement message does to the table. */
  lemma OneMoreHeard(before: seq<LocalTuple>, ags: seq<AgreementTuple>, a: AgreementTuple, r: seq<LocalTuple>,
                     history: seq<seq<Peer>>, L: nat)
    requires if a.l >= L - 1 || Knows(before, a.m) then r == before
             else a.l < |history| && r == before + [LocalTuple(a.m, false, {}, history[a.l], (a.l - 1) % TWO_64)]
    ensures before <= r && |r| <= |before| + 1
    ensures forall k :: |before| <= k < |r| ==> forall j :: 0 <= j < k ==> r[j].message != r[k].message
    ensures forall m :: About(r, m) <==> About(before, m) || (a.m == m && a.l < L - 1)
  {
    KnowsIsAbout(before, a.m);
    forall m ensures About(r, m) <==> About(before, m) || (a.m == m && a.l < L - 1) {
      if r != before {
        var t := r[|before|];
        assert r == before + [t] && t in r;
        if About(before, m) {
          var x :| x in before && x.message == m;
          assert x in r;
        }
      }
    }
  }

  lemma KnowsIsAbout(tuples: seq<LocalTuple>, m: MessageTuple)
    ensures Knows(tuples, m) <==> About(tuples, m)
  {
    if i :| 0 <= i < |tuples| && tuples[i].message == m { assert tuples[i] in tuples; }
  }

  /** The table of a round: the tuples it had, one more for every announcement, whether known or not,
      and after them one for every message heard of that none of the others is about - however often
      it is heard of. The node is aware of what was announced to it, and knows nobody else yet to be. */
  lemma TableOfRound(s: State, i: Input, L: nat)
    requires Present(s, i, L).Some?
    ensures var present, n := Present(s, i, L).value, |s.tuples| + |i.announces|;
            && n <= |present| && s.tuples <= present
            && (forall k :: |s.tuples| <= k < n ==>
                  present[k].message == i.announces[k - |s.tuples|] && present[k].aware && present[k].round == 0)
            && (forall k :: |s.tuples| <= k < |present| ==> present[k].known == {} && (k >= n ==> !present[k].aware))
            && NewOnes(present, n)
            && (forall m :: About(present, m) <==> About(s.tuples, m) || m in i.announces || Heard(i.agreements, m, L))
  {
    var history := PushFront(s.history, i.gammaAgree, L);
    var started := if i.announces == [] then [] else Started(i.announces, history[1]);
    var base := s.tuples + started;
    JoinedTable(base, i.agreements, history, L);
    assert Present(s, i, L) == Joined(base, i.agreements, history, L);
    hide Joined, Present;
    forall m ensures About(base, m) <==> About(s.tuples, m) || m in i.announces {
      AboutBase(s.tuples, i.announces, started, m);
    }
  }

  lemma AboutBase(tuples: seq<LocalTuple>, announces: seq<MessageTuple>, started: seq<LocalTuple>, m: MessageTuple)
    requires |started| == |announces| && forall k :: 0 <= k < |started| ==> started[k].message == announces[k]
    ensures About(tuples + started, m) <==> About(tuples, m) || m in announces
  {
    if m in announces {
      var k :| 0 <= k < |announces| && announces[k] == m;
      assert started[k] in tuples + started;
    }
    if About(tuples, m) {
      var t :| t in tuples && t.message == m;
      assert t in tuples + started;
    }
    if t :| t in started && t.message == m {
      var k :| 0 <= k < |started| && started[k] == t;
      assert announces[k] == m;
    }
  }

  /** The k-th report is about a message that has no tuple yet, started longer ago than the `n` rounds the
      deque reaches back. */
  ghost predicate TooFar(base: seq<LocalTuple>, ags: seq<AgreementTuple>, k: nat, n: nat, L: nat) {
    && k < |ags| && n <= ags[k].l < L - 1 && !About(base, ags[k].m)
    && forall j :: 0 <= j < k ==> ags[j].m != ags[k].m || ags[j].l >= L - 1
  }

  lemma {:induction false} JoinedNoneIff(base: seq<LocalTuple>, ags: seq<AgreementTuple>, history: seq<seq<Peer>>,
                                         L: nat)
    ensures Joined(base, ags, history, L).None? <==> exists k: nat :: TooFar(base, ags, k, |history|, L)
  {
    if ags != [] {
      var n := |ags| - 1;
      var front, a := ags[..n], ags[n];
      JoinedNoneIff(base, front, history, L);
      forall k: nat | k < n ensures TooFar(base, ags, k, |history|, L) <==> TooFar(base, front, k, |history|, L) {
        assert forall j :: 0 <= j <= k ==> ags[j] == front[j];
      }
      if Joined(base, front, history, L).Some? {
        JoinedTable(base, front, history, L);
        KnowsIsAbout(Joined(base, front, history, L).value, a.m);
        LastTooFar(base, ags, |history|, L);
      }
      hide TooFar, Knows, About, Heard;
      if k: nat :| TooFar(base, front, k, |history|, L) { TooFarWithin(base, front, k, |history|, L); }
      if k: nat :| TooFar(base, ags, k, |history|, L) { TooFarWithin(base, ags, k, |history|, L); }
    }
  }

  lemma TooFarWithin(base: seq<LocalTuple>, ags: seq<AgreementTuple>, k: nat, n: nat, L: nat)
    requires TooFar(base, ags, k, n, L)
    ensures k < |ags|
  {
  }

  lemma LastTooFar(base: seq<LocalTuple>, ags: seq<AgreementTuple>, n: nat, L: nat)
    requires ags != []
    ensures var k := |ags| - 1;
            TooFar(base, ags, k, n, L) <==>
              n <= ags[k].l < L - 1 && !About(base, ags[k].m) && !Heard(ags[..k], ags[k].m, L)
  {
    var k := |ags| - 1;
    if a :| a in ags[..k] && a.m == ags[k].m && a.l < L - 1 {
      var j :| 0 <= j < k && ags[..k][j] == a;
      assert ags[j] == a;
    }
    forall j | 0 <= j < k ensures ags[j] in ags[..k] { assert ags[j] == ags[..k][j]; }
  }

  /** The k-th report is the first in time about a message without a tuple and not just announced, and
      its counter reaches back behind round 0. */
  ghost predicate BehindStart(s: State, i: Input, k: nat, L: nat) {
    && k < |i.agreements| && |s.gamma| + 1 <= i.agreements[k].l < L - 1
    && !About(s.tuples, i.agreements[k].m) && i.agreements[k].m !in i.announces
    && forall j :: 0 <= j < k ==> i.agreements[j].m != i.agreements[k].m || i.agreements[j].l >= L - 1
  }

  /** When a round throws: something is announced in round 0, or there is such a report. */
  lemma RoundThrowsIff(s: State, i: Input, own: Peer, L: nat)
    requires Invariant(s, L) && L >= 2
    ensures Round(s, i, own, L).None? <==>
              (i.announces != [] && |s.gamma| == 0) || exists k: nat :: BehindStart(s, i, k, L)
  {
    HistoryKept(s, i.gammaAgree, L);
    var history := PushFront(s.history, i.gammaAgree, L);
    if i.announces == [] || |history| >= 2 {
      var started := if i.announces == [] then [] else Started(i.announces, history[1]);
      JoinedNoneIff(s.tuples + started, i.agreements, history, L);
      assert Round(s, i, own, L).None? <==> Joined(s.tuples + started, i.agreements, history, L).None?;
      forall k: nat ensures TooFar(s.tuples + started, i.agreements, k, |history|, L) <==> BehindStart(s, i, k, L) {
        if k < |i.agreements| { AboutBase(s.tuples, i.announces, started, i.agreements[k].m); }
      }
    }
  }

  /** Whom a tuple knows after an update: whom it knew, its own node when it starts or has known nobody,
      and - unless this is the first it does as a node that is not aware - everyone heard about its
      message. */
  lemma KnownAfterUpdate(t: LocalTuple, own: Peer, ags: seq<AgreementTuple>, x: Peer)
    ensures x in Advanced(t, own, ags).known <==>
              || x in t.known
              || (x == own && (t.aware || t.known == {}))
              || ((t.aware || t.known != {}) && exists a :: a in ags && a.m == t.message && a.s == x)
  {
    HeardMembers(t.message, ags, x);
    hide HeardAbout;
  }

  lemma HeardMembers(m: MessageTuple, ags: seq<AgreementTuple>, x: Peer)
    ensures x in HeardAbout(m, ags) <==> exists a :: a in ags && a.m == m && a.s == x
  {
    var about := Filter((a: AgreementTuple) => a.m == m, ags);
    FilterMembers((a: AgreementTuple) => a.m == m, ags);
    hide Filter;
    if x in HeardAbout(m, ags) {
      var k :| 0 <= k < |about| && about[k].s == x;
      assert about[k] in about;
    }
    if a :| a in ags && a.m == m && a.s == x {
      var k :| 0 <= k < |about| && about[k] == a;
      assert HeardAbout(m, ags)[k] == x;
    }
  }

  // ---------------------------------------------------------------- runs

  /** Equal messages at two places of the table. */
  ghost predicate Twice(tuples: seq<LocalTuple>, m: MessageTuple) {
    exists j, k :: 0 <= j < k < |tuples| && tuples[j].message == m && tuples[k].message == m
  }

  ghost predicate WasAnnounced(inputs: seq<Input>, m: MessageTuple) {
    exists r :: 0 <= r < |inputs| && m in inputs[r].announces
  }

  lemma {:induction false} TwiceInFilter(p: LocalTuple -> bool, tuples: seq<LocalTuple>, m: MessageTuple)
    requires Twice(Filter(p, tuples), m)
    ensures Twice(tuples, m)
  {
    var n := |tuples| - 1;
    var f := Filter(p, tuples);
    var j, k :| 0 <= j < k < |f| && f[j].message == m && f[k].message == m;
    FilterMembers(p, tuples[..n]);
    if p(tuples[n]) && k == |f| - 1 {
      var g := Filter(p, tuples[..n]);
      assert f == g + [tuples[n]];
      assert f[j] in g;
      var i :| 0 <= i < n && tuples[..n][i] == f[j];
      assert tuples[i].message == m && tuples[n].message == m;
    } else {
      var g := Filter(p, tuples[..n]);
      assert g[j] == f[j] && g[k] == f[k];
      TwiceInFilter(p, tuples[..n], m);
      var j', k' :| 0 <= j' < k' < n && tuples[..n][j'].message == m && tuples[..n][k'].message == m;
      assert tuples[j'].message == m && tuples[k'].message == m;
    }
  }

  /** Two tuples about one message after a round: there were two before, or it was announced now. */
  lemma TwiceAfterRound(s: State, i: Input, own: Peer, L: nat, m: MessageTuple)
    requires Round(s, i, own, L).Some? && Twice(Round(s, i, own, L).value.tuples, m)
    ensures Twice(s.tuples, m) || m in i.announces
  {
    PresentIfRound(s, i, own, L);
    TableOfRound(s, i, L);
    var present := Present(s, i, L).value;
    var advanced := AdvanceAll(present, own, i.agreements);
    assert Round(s, i, own, L).value.tuples == Filter((t: LocalTuple) => t.round != L, advanced);
    hide Present, Filter, Round;
    TwiceInFilter((t: LocalTuple) => t.round != L, advanced, m);
    var j, k :| 0 <= j < k < |advanced| && advanced[j].message == m && advanced[k].message == m;
    assert present[j].message == m && present[k].message == m;
    if k < |s.tuples| { assert s.tuples[j] == present[j] && s.tuples[k] == present[k]; }
  }

  /** In every run: two tuples are about one message only if it has been announced to the client; what
      is only heard of is taken up once, however many nodes report it. */
  lemma {:induction false} TwiceOnlyIfAnnounced(inputs: seq<Input>, own: Peer, L: nat, m: MessageTuple)
    requires Run(inputs, own, L).Some? && Twice(Run(inputs, own, L).value.tuples, m)
    ensures WasAnnounced(inputs, m)
  {
    hide Round;
    if inputs != [] {
      var n := |inputs| - 1;
      TwiceAfterRound(Run(inputs[..n], own, L).value, inputs[n], own, L, m);
      if m !in inputs[n].announces {
        TwiceOnlyIfAnnounced(inputs[..n], own, L, m);
        var r :| 0 <= r < n && m in inputs[..n][r].announces;
        assert m in inputs[r].announces;
      }
    }
  }

  // ---------------------------------------------------------------- births

  /** A tuple about `m` was born in one of the rounds from `lo` to `hi`. */
  ghost predicate BornWithin(births: seq<Birth>, m: MessageTuple, lo: int, hi: int) {
    exists b :: b in births && b.m == m && lo <= b.born <= hi && 0 <= b.born
  }

  lemma BirthAt(s: State, i: Input, own: Peer, L: nat, k: nat)
    requires Invariant(s, L) && 2 <= L < TWO_64 && Round(s, i, own, L).Some?
    requires Present(s, i, L).Some? && k < |Present(s, i, L).value|
    ensures BornWithin(Round(s, i, own, L).value.births, Present(s, i, L).value[k].message,
                       s.Cur() + 1 - L, s.Cur() + 1)
  {
    hide *;
    var present := Present(s, i, L).value;
    var b := BirthOf(s.Cur() + 1)(Advanced(present[k], own, i.agreements));
    BirthBounds(s, i, own, L, k);
    BirthListed(s, i, own, L, k);
    BornAtLeast(Round(s, i, own, L).value.births, b, s.Cur() + 1 - L, s.Cur() + 1);
  }

  lemma BornAtLeast(births: seq<Birth>, b: Birth, lo: int, hi: int)
    requires b in births && lo <= b.born <= hi && 0 <= b.born
    ensures BornWithin(births, b.m, lo, hi)
  {
  }

  lemma BirthBounds(s: State, i: Input, own: Peer, L: nat, k: nat)
    requires Invariant(s, L) && 2 <= L < TWO_64 && Present(s, i, L).Some? && k < |Present(s, i, L).value|
    ensures var b := BirthOf(s.Cur() + 1)(Advanced(Present(s, i, L).value[k], own, i.agreements));
            b.m == Present(s, i, L).value[k].message && s.Cur() + 1 - L <= b.born <= s.Cur() + 1 && 0 <= b.born
  {
    AdvancedAt(s, i, own, L, k);
    hide Present, HistoryInvariant, HeardAbout, Filter;
    if k < |s.tuples| { assert s.tuples[k] in s.tuples; }
  }

  lemma BirthListed(s: State, i: Input, own: Peer, L: nat, k: nat)
    requires Invariant(s, L) && 2 <= L < TWO_64 && Round(s, i, own, L).Some?
    requires Present(s, i, L).Some? && k < |Present(s, i, L).value|
    ensures BirthOf(s.Cur() + 1)(Advanced(Present(s, i, L).value[k], own, i.agreements))
            in Round(s, i, own, L).value.births
  {
    UpdateStep(s, i, own, L);
    BirthsOfRound(s, i, own, L);
    FilterMembers(Alive(s.Cur(), L), s.births);
    hide Filter, Present, Invariant, Round, NewBirths, BirthOf, Advanced, AdvancedInvariant;
    var advanced := AdvanceAll(Present(s, i, L).value, own, i.agreements);
    var b := Map(BirthOf(s.Cur() + 1), advanced)[k];
    assert b in Filter(Alive(s.Cur(), L), s.births) + NewBirths(s, i, own, L);
  }

  lemma BirthsOfRound(s: State, i: Input, own: Peer, L: nat)
    requires Round(s, i, own, L).Some? && Present(s, i, L).Some? && |s.tuples| <= |Present(s, i, L).value|
    ensures Round(s, i, own, L).value.births == s.births + NewBirths(s, i, own, L)
  {
    hide Present, AdvanceAll, Remaining, Finals, PushFront;
  }

  /** Whatever a round hears of in time has a tuple, born not more than L rounds before. */
  lemma HeardIsBorn(s: State, i: Input, own: Peer, L: nat, a: AgreementTuple)
    requires Invariant(s, L) && 2 <= L < TWO_64 && Round(s, i, own, L).Some?
    requires a in i.agreements && a.l < L - 1
    ensures BornWithin(Round(s, i, own, L).value.births, a.m, s.Cur() + 1 - L, s.Cur() + 1)
  {
    hide Invariant, Round, Present, BornWithin;
    PresentIfRound(s, i, own, L);
    TableOfRound(s, i, L);
    var present := Present(s, i, L).value;
    assert Heard(i.agreements, a.m, L);
    var t :| t in present && t.message == a.m;
    var k :| 0 <= k < |present| && present[k] == t;
    BirthAt(s, i, own, L, k);
  }
}

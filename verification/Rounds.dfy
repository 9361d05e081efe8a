/** The round model: time is cut into subrounds of length kDelta, four of which make a round. */
module Rounds {
  import Bits

  /** The parameters of the system; the repository fixes them in its configuration header. */
  datatype Config = Config(dimension: nat, kDelta: nat, kSend: nat, kRecv: nat, kAMax: nat) {
    ghost predicate Valid() { kDelta > 0 }

    function AgreementTime(): nat { dimension + 2 }

    function RoutingTime(): nat { 2 * dimension + 2 }

    /** Rounds between the one in which a message is announced and the one it is addressed to. */
    function Delay(): nat { AgreementTime() + RoutingTime() + 3 }

    /** How many messages a pseudonym can queue for a round: the check on k_send is made only when the
        counter exists, so that the first message always passes. */
    function Quota(): nat { if kSend == 0 then 1 else kSend }

    /** The length of a round. */
    function Span(): nat { 4 * kDelta }

    function RoundOf(t: nat): nat requires Valid() { Bits.Quotient(t, 4 * kDelta) }

    function SubroundOf(t: nat): nat requires Valid() { Bits.Quotient(t, kDelta) }
  }

  /** A subround number divided by four is the round number. */
  lemma RoundOfSubround(c: Config, t: nat)
    requires c.Valid()
    ensures c.SubroundOf(t) / 4 == c.RoundOf(t)
  {
    Bits.QuotientIsDivision(t, c.kDelta);
    Bits.QuotientIsDivision(t, 4 * c.kDelta);
    Bits.DivDiv(t, c.kDelta, 4);
  }

  /** Round l begins at time l * Span. */
  lemma BeforeRound(c: Config, t: nat, l: nat)
    requires c.Valid()
    ensures c.RoundOf(t) < l <==> t < Bits.Product(l, c.Span())
  {
    Bits.QuotientBelow(t, c.Span(), l);
  }

  lemma RoundMonotone(c: Config, t: nat, u: nat)
    requires c.Valid() && t <= u
    ensures c.RoundOf(t) <= c.RoundOf(u)
  {
    Bits.QuotientMonotone(t, u, c.Span());
  }

  lemma {:induction false} RoundShift(c: Config, t: nat, k: nat)
    requires c.Valid()
    ensures c.RoundOf(t + Bits.Product(k, c.Span())) == c.RoundOf(t) + k
    decreases k
  {
    if k > 0 { RoundShift(c, t, k - 1); }
  }
}

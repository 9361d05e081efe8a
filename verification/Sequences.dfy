/** Filtering and mapping sequences, as std::remove_if and range-based loops do. */
module Sequences {

  function Filter<T>(p: T -> bool, s: seq<T>): (r: seq<T>)
    ensures |r| <= |s|
  {
    if s == [] then []
    else
      var n := |s| - 1;
      if p(s[n]) then Filter(p, s[..n]) + [s[n]] else Filter(p, s[..n])
  }

  function Map<T, R>(f: T -> R, s: seq<T>): (r: seq<R>)
    ensures |r| == |s| && forall i :: 0 <= i < |s| ==> r[i] == f(s[i])
  {
    seq(|s|, i requires 0 <= i < |s| => f(s[i]))
  }

  function FlatMap<T, R>(f: T -> seq<R>, s: seq<T>): seq<R> {
    if s == [] then [] else FlatMap(f, s[..|s| - 1]) + f(s[|s| - 1])
  }

  lemma FilterStep<T>(p: T -> bool, s: seq<T>, x: T)
    ensures Filter(p, s + [x]) == if p(x) then Filter(p, s) + [x] else Filter(p, s)
  {
    assert (s + [x])[..|s|] == s;
  }

  lemma {:induction false} FilterConcat<T>(p: T -> bool, s: seq<T>, t: seq<T>)
    ensures Filter(p, s + t) == Filter(p, s) + Filter(p, t)
  {
    if t == [] {
      assert s + t == s;
    } else {
      assert (s + t)[..|s + t| - 1] == s + t[..|t| - 1];
      FilterConcat(p, s, t[..|t| - 1]);
    }
  }

  lemma {:induction false} FilterNone<T>(p: T -> bool, s: seq<T>)
    requires forall x :: x in s ==> !p(x)
    ensures Filter(p, s) == []
  {
    if s != [] {
      assert s[|s| - 1] in s;
      FilterNone(p, s[..|s| - 1]);
    }
  }

  lemma {:induction false} FilterTwice<T>(p: T -> bool, q: T -> bool, s: seq<T>)
    requires forall x :: x in s && p(x) ==> q(x)
    ensures Filter(p, Filter(q, s)) == Filter(p, s)
  {
    if s != [] {
      var n := |s| - 1;
      assert s[n] in s;
      FilterTwice(p, q, s[..n]);
      if q(s[n]) { FilterStep(p, Filter(q, s[..n]), s[n]); }
    }
  }

  lemma {:induction false} FilterMap<T, R>(f: T -> R, p: R -> bool, q: T -> bool, s: seq<T>)
    requires forall x :: x in s ==> q(x) == p(f(x))
    ensures Map(f, Filter(q, s)) == Filter(p, Map(f, s))
  {
    if s != [] {
      var n := |s| - 1;
      assert s[n] in s;
      FilterMap(f, p, q, s[..n]);
      assert Map(f, s) == Map(f, s[..n]) + [f(s[n])];
      FilterStep(p, Map(f, s[..n]), f(s[n]));
      if q(s[n]) {
        assert Map(f, Filter(q, s[..n]) + [s[n]]) == Map(f, Filter(q, s[..n])) + [f(s[n])];
      }
    }
  }

  lemma {:induction false} FilterMembers<T>(p: T -> bool, s: seq<T>)
    ensures forall x :: x in Filter(p, s) <==> x in s && p(x)
  {
    if s != [] {
      var n := |s| - 1;
      FilterMembers(p, s[..n]);
      assert s == s[..n] + [s[n]];
    }
  }

  lemma MapStep<T, R>(f: T -> R, s: seq<T>, x: T)
    ensures Map(f, s + [x]) == Map(f, s) + [f(x)]
  {
  }

  lemma MapConcat<T, R>(f: T -> R, s: seq<T>, t: seq<T>)
    ensures Map(f, s + t) == Map(f, s) + Map(f, t)
  {
  }

  lemma {:induction false} FlatMapConcat<T, R>(f: T -> seq<R>, s: seq<T>, t: seq<T>)
    ensures FlatMap(f, s + t) == FlatMap(f, s) + FlatMap(f, t)
  {
    if t == [] {
      assert s + t == s;
    } else {
      assert (s + t)[..|s + t| - 1] == s + t[..|t| - 1];
      FlatMapConcat(f, s, t[..|t| - 1]);
    }
  }

  lemma {:induction false} FlatMapEmpty<T, R>(f: T -> seq<R>, s: seq<T>)
    requires forall x :: x in s ==> f(x) == []
    ensures FlatMap(f, s) == []
  {
    if s != [] {
      assert s[|s| - 1] in s;
      FlatMapEmpty(f, s[..|s| - 1]);
    }
  }

  lemma {:induction false} FlatMapMember<T, R>(f: T -> seq<R>, s: seq<T>, y: R) returns (k: nat)
    requires y in FlatMap(f, s)
    ensures k < |s| && y in f(s[k])
  {
    var n := |s| - 1;
    if y in f(s[n]) { k := n; } else { k := FlatMapMember(f, s[..n], y); }
  }
}

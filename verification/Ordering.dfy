/** Strict weak orders, as `operator<` has to be one for std::map, std::set and std::sort. */
module Ordering {

  predicate Equiv<T>(less: (T, T) -> bool, a: T, b: T) {
    !less(a, b) && !less(b, a)
  }

  ghost predicate StrictWeakOrder<T(!new)>(less: (T, T) -> bool) {
    && (forall a :: !less(a, a))
    && (forall a, b, c :: less(a, b) && less(b, c) ==> less(a, c))
    && (forall a, b, c :: Equiv(less, a, b) && Equiv(less, b, c) ==> Equiv(less, a, c))
  }

  ghost predicate StrictTotalOrder<T(!new)>(less: (T, T) -> bool) {
    StrictWeakOrder(less) && forall a, b :: Equiv(less, a, b) ==> a == b
  }

  ghost predicate StrictlyAscending<T>(less: (T, T) -> bool, s: seq<T>) {
    forall i, j :: 0 <= i < j < |s| ==> less(s[i], s[j])
  }

  ghost predicate Distinct<T>(s: seq<T>) {
    forall i, j :: 0 <= i < j < |s| ==> s[i] != s[j]
  }

  function Elements<T>(s: seq<T>): set<T> {
    set x | x in s
  }

  /** An equivalent argument may replace another on either side of a comparison. */
  lemma EquivCongruent<T(!new)>(less: (T, T) -> bool, a: T, b: T, c: T)
    requires StrictWeakOrder(less) && Equiv(less, a, b)
    ensures less(a, c) == less(b, c)
    ensures less(c, a) == less(c, b)
    ensures Equiv(less, a, c) == Equiv(less, b, c)
  {
    assert Equiv(less, b, a);
    if Equiv(less, a, c) || Equiv(less, b, c) {
      assert Equiv(less, a, c) && Equiv(less, b, c);
    }
  }

  // ---------------------------------------------------------------- lexicographic order

  /** std::lexicographical_compare. */
  predicate Lex<T(!new)>(less: (T, T) -> bool, a: seq<T>, b: seq<T>) {
    if b == [] then false
    else if a == [] then true
    else if less(a[0], b[0]) then true
    else if less(b[0], a[0]) then false
    else Lex(less, a[1..], b[1..])
  }

  lemma {:induction false} LexEquiv<T(!new)>(less: (T, T) -> bool, a: seq<T>, b: seq<T>)
    ensures (!Lex(less, a, b) && !Lex(less, b, a))
       <==> |a| == |b| && forall i :: 0 <= i < |a| ==> Equiv(less, a[i], b[i])
  {
    if a == [] || b == [] {
    } else if less(a[0], b[0]) || less(b[0], a[0]) {
      assert !Equiv(less, a[0], b[0]);
      assert Lex(less, a, b) || Lex(less, b, a);
    } else {
      LexEquiv(less, a[1..], b[1..]);
      if |a| == |b| && forall i :: 0 <= i < |a[1..]| ==> Equiv(less, a[1..][i], b[1..][i]) {
        forall i | 0 <= i < |a| ensures Equiv(less, a[i], b[i]) {
          if i > 0 { assert Equiv(less, a[1..][i - 1], b[1..][i - 1]); }
        }
      }
    }
  }

  /** At place `k` the first list comes before the second: by its entry there, all before being equivalent,
      or because it ends there. */
  ghost predicate PrecedesAt<T(!new)>(less: (T, T) -> bool, a: seq<T>, b: seq<T>, k: nat) {
    && k <= |a| && k < |b| && (forall i :: 0 <= i < k ==> Equiv(less, a[i], b[i]))
    && (k == |a| || less(a[k], b[k]))
  }

  lemma {:induction false} LexIff<T(!new)>(less: (T, T) -> bool, a: seq<T>, b: seq<T>)
    ensures Lex(less, a, b) <==> exists k: nat :: PrecedesAt(less, a, b, k)
  {
    if a == [] && b != [] {
      assert PrecedesAt(less, a, b, 0);
    } else if b != [] {
      LexIff(less, a[1..], b[1..]);
      if less(a[0], b[0]) { assert PrecedesAt(less, a, b, 0); }
      if k: nat :| PrecedesAt(less, a[1..], b[1..], k) && Equiv(less, a[0], b[0]) {
        assert PrecedesAt(less, a, b, k + 1);
      }
      if k: nat :| PrecedesAt(less, a, b, k) && !less(a[0], b[0]) {
        assert k > 0 && PrecedesAt(less, a[1..], b[1..], k - 1);
      }
    }
  }

  lemma {:induction false} LexTransitive<T(!new)>(less: (T, T) -> bool, a: seq<T>, b: seq<T>, c: seq<T>)
    requires StrictWeakOrder(less)
    requires Lex(less, a, b) && Lex(less, b, c)
    ensures Lex(less, a, c)
  {
    if a != [] {
      if Equiv(less, a[0], b[0]) {
        EquivCongruent(less, a[0], b[0], c[0]);
        if Equiv(less, b[0], c[0]) {
          LexTransitive(less, a[1..], b[1..], c[1..]);
        }
      } else if Equiv(less, b[0], c[0]) {
        EquivCongruent(less, b[0], c[0], a[0]);
      }
    }
  }

  /** Vectors over a strictly weakly ordered element type are strictly weakly ordered. */
  lemma LexIsStrictWeakOrder<T(!new)>(less: (T, T) -> bool)
    requires StrictWeakOrder(less)
    ensures StrictWeakOrder((a: seq<T>, b: seq<T>) => Lex(less, a, b))
  {
    var lex := (a: seq<T>, b: seq<T>) => Lex(less, a, b);
    forall a ensures !lex(a, a) { LexEquiv(less, a, a); }
    forall a, b, c | lex(a, b) && lex(b, c) ensures lex(a, c) { LexTransitive(less, a, b, c); }
    forall a, b, c | Equiv(lex, a, b) && Equiv(lex, b, c) ensures Equiv(lex, a, c) {
      LexEquiv(less, a, b);
      LexEquiv(less, b, c);
      forall i | 0 <= i < |a| ensures Equiv(less, a[i], c[i]) {
        assert Equiv(less, a[i], b[i]) && Equiv(less, b[i], c[i]);
      }
      LexEquiv(less, a, c);
    }
  }

  // ---------------------------------------------------------------- iteration over ordered keys

  /** The keys of a std::map in the order in which a range-based for visits them. */
  method Ascending<K(!new, ==)>(keys: set<K>, less: (K, K) -> bool) returns (s: seq<K>)
    requires StrictTotalOrder(less)
    ensures StrictlyAscending(less, s) && Elements(s) == keys
    ensures Distinct(s)
  {
    s := [];
    var rest := keys;
    while rest != {}
      invariant StrictlyAscending(less, s)
      invariant Elements(s) + rest == keys
      invariant forall x, y :: x in s && y in rest ==> less(x, y)
      decreases rest
    {
      ghost var least := Minimum(rest, less);
      var m :| m in rest && forall x :: x in rest && x != m ==> less(m, x);
      s := s + [m];
      rest := rest - {m};
    }
    AscendingDistinct(less, s);
  }

  lemma AscendingDistinct<K(!new)>(less: (K, K) -> bool, s: seq<K>)
    requires StrictWeakOrder(less) && StrictlyAscending(less, s)
    ensures Distinct(s)
  {
    forall i, j | 0 <= i < j < |s| ensures s[i] != s[j] {
      assert less(s[i], s[j]);
    }
  }

  lemma {:induction false} Minimum<K(!new)>(keys: set<K>, less: (K, K) -> bool) returns (m: K)
    requires StrictTotalOrder(less) && keys != {}
    ensures m in keys && forall x :: x in keys && x != m ==> less(m, x)
  {
    m :| m in keys;
    var rest := keys - {m};
    assert forall x :: x in keys ==> x == m || x in rest;
    if rest != {} {
      var n := Minimum(rest, less);
      if !less(m, n) {
        assert less(n, m) by { assert !Equiv(less, m, n); }
        m := n;
      }
    }
  }

  /** A strictly ascending list is determined by its members. */
  lemma {:induction false} AscendingUnique<T(!new)>(less: (T, T) -> bool, r: seq<T>, s: seq<T>)
    requires StrictWeakOrder(less) && StrictlyAscending(less, r) && StrictlyAscending(less, s)
    requires forall x :: x in r <==> x in s
    ensures r == s
  {
    assert r != [] ==> r[0] in s;
    assert s != [] ==> s[0] in r;
    if r != [] && s != [] {
      var i :| 0 <= i < |s| && s[i] == r[0];
      var j :| 0 <= j < |r| && r[j] == s[0];
      assert r[0] == s[0];
      forall x ensures x in r[1..] <==> x in s[1..] {
        TailMember(less, r, x);
        TailMember(less, s, x);
      }
      AscendingUnique(less, r[1..], s[1..]);
    }
  }

  lemma TailMember<T(!new)>(less: (T, T) -> bool, s: seq<T>, x: T)
    requires StrictWeakOrder(less) && StrictlyAscending(less, s) && s != []
    ensures x in s[1..] <==> x in s && x != s[0]
  {
    if x in s[1..] {
      var i :| 0 <= i < |s[1..]| && s[1..][i] == x;
      assert less(s[0], s[i + 1]);
    }
  }

  // ---------------------------------------------------------------- std::sort

  ghost predicate Sorted<T>(less: (T, T) -> bool, s: seq<T>) {
    forall i, j :: 0 <= i < j < |s| ==> !less(s[j], s[i])
  }

  /** A sorted permutation of `s`; callers may rely on nothing more about equivalent elements. */
  method Sort<T(!new)>(s: seq<T>, less: (T, T) -> bool) returns (r: seq<T>)
    requires StrictWeakOrder(less)
    ensures Sorted(less, r) && multiset(r) == multiset(s) && |r| == |s|
  {
    r := [];
    for n := 0 to |s|
      invariant Sorted(less, r) && multiset(r) == multiset(s[..n]) && |r| == n
    {
      var pos := 0;
      while pos < |r| && !less(s[n], r[pos])
        invariant 0 <= pos <= |r|
        invariant forall i :: 0 <= i < pos ==> !less(s[n], r[i])
      {
        pos := pos + 1;
      }
      assert r == r[..pos] + r[pos..];
      assert s[..n + 1] == s[..n] + [s[n]];
      InsertSorted(less, r, s[n], pos);
      r := r[..pos] + [s[n]] + r[pos..];
    }
    assert s[..|s|] == s;
  }

  lemma InsertSorted<T(!new)>(less: (T, T) -> bool, r: seq<T>, x: T, pos: nat)
    requires StrictWeakOrder(less) && Sorted(less, r) && pos <= |r|
    requires forall i :: 0 <= i < pos ==> !less(x, r[i])
    requires pos < |r| ==> less(x, r[pos])
    ensures Sorted(less, r[..pos] + [x] + r[pos..])
  {
    assert forall i :: pos <= i < |r| ==> !less(r[i], x);
  }
}

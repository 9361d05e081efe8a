/** The quorum vote: the elements that occur more than m_corrupt times in a list of inputs. */
module QuorumVote {
  import opened Ordering
  import opened Structures

  /** How many entries of `vec` a std::map cannot tell apart from `x`. */
  function ClassCount<T(!new)>(less: (T, T) -> bool, vec: seq<T>, x: T): nat {
    if vec == [] then 0
    else ClassCount(less, vec[..|vec| - 1], x) + (if Equiv(less, vec[|vec| - 1], x) then 1 else 0)
  }

  /** `x` is the entry by which a std::map filled with `vec` represents its class. */
  ghost predicate FirstOfClass<T(!new)>(less: (T, T) -> bool, vec: seq<T>, x: T) {
    exists k :: 0 <= k < |vec| && vec[k] == x && forall j :: 0 <= j < k ==> !Equiv(less, vec[j], x)
  }

  ghost predicate Represented<T(!new)>(less: (T, T) -> bool, s: seq<T>, x: T) {
    exists i :: 0 <= i < |s| && Equiv(less, s[i], x)
  }

  /** What the vote is meant to return. */
  ghost predicate IsVote<T(!new)>(less: (T, T) -> bool, vec: seq<T>, mCorrupt: nat, result: seq<T>) {
    && StrictlyAscending(less, result)
    && (forall r :: r in result ==> FirstOfClass(less, vec, r) && ClassCount(less, vec, r) > mCorrupt)
    && (forall v :: v in vec && ClassCount(less, vec, v) > mCorrupt ==> Represented(less, result, v))
  }

  // ---------------------------------------------------------------- the counter map

  /** A std::map<T, int> as its list of nodes in key order. */
  datatype Node<T> = Node(key: T, count: nat)

  function Keys<T>(table: seq<Node<T>>): (s: seq<T>)
    ensures |s| == |table| && forall i :: 0 <= i < |s| ==> s[i] == table[i].key
  {
    seq(|table|, i requires 0 <= i < |table| => table[i].key)
  }

  ghost predicate NodeCounts<T(!new)>(less: (T, T) -> bool, vec: seq<T>, n: Node<T>) {
    FirstOfClass(less, vec, n.key) && n.count == ClassCount(less, vec, n.key)
  }

  ghost predicate Counts<T(!new)>(less: (T, T) -> bool, vec: seq<T>, table: seq<Node<T>>) {
    && StrictlyAscending(less, Keys(table))
    && (forall i :: 0 <= i < |table| ==> NodeCounts(less, vec, table[i]))
    && (forall v :: v in vec ==> Represented(less, Keys(table), v))
  }

  /** `elems_u_counter[x]++`, creating the node when the map has none equivalent to `x`. */
  method Increment<T(!new)>(less: (T, T) -> bool, table: seq<Node<T>>, x: T, ghost vec: seq<T>)
    returns (table': seq<Node<T>>)
    requires StrictWeakOrder(less) && Counts(less, vec, table)
    ensures Counts(less, vec + [x], table')
  {
    var pos := 0;
    while pos < |table| && less(table[pos].key, x)
      invariant 0 <= pos <= |table|
      invariant forall i :: 0 <= i < pos ==> less(table[i].key, x)
    {
      pos := pos + 1;
    }
    if pos < |table| && !less(x, table[pos].key) {
      table' := table[pos := Node(table[pos].key, table[pos].count + 1)];
      CountsAfterHit(less, table, x, vec, pos);
    } else {
      table' := table[..pos] + [Node(x, 1)] + table[pos..];
      InsertAscending(less, Keys(table), x, pos);
      NotRepresentedCountsZero(less, vec, Keys(table), x);
      CountsAfterMiss(less, table, x, vec, pos);
    }
  }

  lemma CountStep<T(!new)>(less: (T, T) -> bool, vec: seq<T>, x: T, y: T)
    ensures ClassCount(less, vec + [x], y) == ClassCount(less, vec, y) + (if Equiv(less, x, y) then 1 else 0)
  {
    assert (vec + [x])[..|vec|] == vec;
  }

  lemma FirstOfClassExtends<T(!new)>(less: (T, T) -> bool, vec: seq<T>, x: T, y: T)
    requires FirstOfClass(less, vec, y)
    ensures FirstOfClass(less, vec + [x], y)
  {
    var k :| 0 <= k < |vec| && vec[k] == y && forall j :: 0 <= j < k ==> !Equiv(less, vec[j], y);
    assert (vec + [x])[k] == y && forall j :: 0 <= j < k ==> (vec + [x])[j] == vec[j];
  }

  lemma CountsAfterHit<T(!new)>(less: (T, T) -> bool, table: seq<Node<T>>, x: T, vec: seq<T>, pos: nat)
    requires StrictWeakOrder(less) && Counts(less, vec, table)
    requires pos < |table| && Equiv(less, table[pos].key, x)
    ensures Counts(less, vec + [x], table[pos := Node(table[pos].key, table[pos].count + 1)])
  {
    var table' := table[pos := Node(table[pos].key, table[pos].count + 1)];
    assert Keys(table') == Keys(table);
    forall i | 0 <= i < |table'| ensures NodeCounts(less, vec + [x], table'[i]) {
      FirstOfClassExtends(less, vec, x, table[i].key);
      CountStep(less, vec, x, table[i].key);
      if i != pos {
        assert less(Keys(table)[i], Keys(table)[pos]) || less(Keys(table)[pos], Keys(table)[i]);
        EquivCongruent(less, table[pos].key, x, table[i].key);
      }
    }
    assert Equiv(less, Keys(table)[pos], x);
  }

  lemma InsertAscending<T(!new)>(less: (T, T) -> bool, keys: seq<T>, x: T, pos: nat)
    requires StrictWeakOrder(less) && StrictlyAscending(less, keys) && pos <= |keys|
    requires forall i :: 0 <= i < pos ==> less(keys[i], x)
    requires pos < |keys| ==> less(x, keys[pos])
    ensures forall i :: pos <= i < |keys| ==> less(x, keys[i])
    ensures StrictlyAscending(less, keys[..pos] + [x] + keys[pos..])
  {
    var keys' := keys[..pos] + [x] + keys[pos..];
    forall i | pos <= i < |keys| ensures less(x, keys[i]) {
      if i > pos { assert less(keys[pos], keys[i]); }
    }
    forall i, j | 0 <= i < j < |keys'| ensures less(keys'[i], keys'[j]) {
      if i < pos && pos < j { assert less(keys[i], x) && less(x, keys[j - 1]); }
    }
  }

  lemma NewNodeCounts<T(!new)>(less: (T, T) -> bool, vec: seq<T>, x: T)
    requires Equiv(less, x, x) && ClassCount(less, vec, x) == 0
    requires forall v :: v in vec ==> !Equiv(less, v, x)
    ensures NodeCounts(less, vec + [x], Node(x, 1))
  {
    CountStep(less, vec, x, x);
    assert (vec + [x])[|vec|] == x;
    assert forall j :: 0 <= j < |vec| ==> (vec + [x])[j] == vec[j] && vec[j] in vec;
  }

  lemma OtherNodeCounts<T(!new)>(less: (T, T) -> bool, vec: seq<T>, x: T, n: Node<T>)
    requires NodeCounts(less, vec, n) && !Equiv(less, x, n.key)
    ensures NodeCounts(less, vec + [x], n)
  {
    FirstOfClassExtends(less, vec, x, n.key);
    CountStep(less, vec, x, n.key);
  }

  lemma CountsAfterMiss<T(!new)>(less: (T, T) -> bool, table: seq<Node<T>>, x: T, vec: seq<T>, pos: nat)
    requires Counts(less, vec, table) && pos <= |table|
    requires StrictlyAscending(less, Keys(table)[..pos] + [x] + Keys(table)[pos..])
    requires Equiv(less, x, x) && ClassCount(less, vec, x) == 0
    requires forall v :: v in vec ==> !Equiv(less, v, x)
    ensures Counts(less, vec + [x], table[..pos] + [Node(x, 1)] + table[pos..])
  {
    hide NodeCounts, FirstOfClass, ClassCount, Represented;
    var table' := table[..pos] + [Node(x, 1)] + table[pos..];
    var keys, keys' := Keys(table), Keys(table');
    assert keys' == keys[..pos] + [x] + keys[pos..];
    forall i | 0 <= i < |table'| ensures NodeCounts(less, vec + [x], table'[i]) {
      if i == pos {
        NewNodeCounts(less, vec, x);
      } else {
        var n := table[if i < pos then i else i - 1];
        assert if i < pos then less(keys'[i], keys'[pos]) else less(keys'[pos], keys'[i]);
        OtherNodeCounts(less, vec, x, n);
      }
    }
    MembersRepresented(less, vec, x, keys, keys', pos);
  }

  lemma MembersRepresented<T(!new)>(less: (T, T) -> bool, vec: seq<T>, x: T, keys: seq<T>, keys': seq<T>, pos: nat)
    requires pos <= |keys| && keys' == keys[..pos] + [x] + keys[pos..] && Equiv(less, x, x)
    requires forall v :: v in vec ==> Represented(less, keys, v)
    ensures forall v :: v in vec + [x] ==> Represented(less, keys', v)
  {
    forall v | v in vec + [x] ensures Represented(less, keys', v) {
      if v in vec {
        var i :| 0 <= i < |keys| && Equiv(less, keys[i], v);
        assert keys'[if i < pos then i else i + 1] == keys[i];
      } else {
        assert keys'[pos] == x;
      }
    }
  }

  lemma {:induction false} NotRepresentedCountsZero<T(!new)>(less: (T, T) -> bool, vec: seq<T>, keys: seq<T>, x: T)
    requires StrictWeakOrder(less)
    requires forall v :: v in vec ==> Represented(less, keys, v)
    requires forall i :: 0 <= i < |keys| ==> !Equiv(less, keys[i], x)
    ensures ClassCount(less, vec, x) == 0
    ensures forall v :: v in vec ==> !Equiv(less, v, x)
  {
    forall v | v in vec ensures !Equiv(less, v, x) {
      var i :| 0 <= i < |keys| && Equiv(less, keys[i], v);
      EquivCongruent(less, keys[i], v, x);
    }
    if vec != [] {
      NotRepresentedCountsZero(less, vec[..|vec| - 1], keys, x);
    }
  }

  // ---------------------------------------------------------------- the vote

  method ElementsThatExceed<T(!new)>(vec: seq<T>, less: (T, T) -> bool, mCorrupt: nat) returns (result: seq<T>)
    requires StrictWeakOrder(less)
    ensures IsVote(less, vec, mCorrupt, result)
  {
    var counter: seq<Node<T>> := [];
    for i := 0 to |vec|
      invariant Counts(less, vec[..i], counter)
    {
      counter := Increment(less, counter, vec[i], vec[..i]);
      assert vec[..i] + [vec[i]] == vec[..i + 1];
    }
    assert vec[..|vec|] == vec;
    result := [];
    var from: seq<nat> := [];
    for i := 0 to |counter|
      invariant |from| == |result|
      invariant forall k :: 0 <= k < |from| ==>
                  from[k] < i && result[k] == counter[from[k]].key && counter[from[k]].count > mCorrupt
      invariant forall j, k :: 0 <= j < k < |from| ==> from[j] < from[k]
      invariant forall k :: 0 <= k < i && counter[k].count > mCorrupt ==> k in from
    {
      if counter[i].count > mCorrupt {
        result, from := result + [counter[i].key], from + [i];
      }
    }
    VoteOfCounts(less, vec, counter, mCorrupt, result, from);
  }

  lemma VoteOfCounts<T(!new)>(less: (T, T) -> bool, vec: seq<T>, counter: seq<Node<T>>, mCorrupt: nat,
                              result: seq<T>, from: seq<nat>)
    requires StrictWeakOrder(less) && Counts(less, vec, counter) && |from| == |result|
    requires forall k :: 0 <= k < |from| ==>
               from[k] < |counter| && result[k] == counter[from[k]].key && counter[from[k]].count > mCorrupt
    requires forall j, k :: 0 <= j < k < |from| ==> from[j] < from[k]
    requires forall k :: 0 <= k < |counter| && counter[k].count > mCorrupt ==> k in from
    ensures IsVote(less, vec, mCorrupt, result)
  {
    var keys := Keys(counter);
    forall i, j | 0 <= i < j < |result| ensures less(result[i], result[j]) {
      assert less(keys[from[i]], keys[from[j]]);
    }
    forall v | v in vec && ClassCount(less, vec, v) > mCorrupt ensures Represented(less, result, v) {
      var i :| 0 <= i < |keys| && Equiv(less, keys[i], v);
      CountOfEquivalents(less, vec, keys[i], v);
      var k :| 0 <= k < |from| && from[k] == i;
      assert Equiv(less, result[k], v);
    }
  }

  lemma {:induction false} CountOfEquivalents<T(!new)>(less: (T, T) -> bool, vec: seq<T>, x: T, y: T)
    requires StrictWeakOrder(less) && Equiv(less, x, y)
    ensures ClassCount(less, vec, x) == ClassCount(less, vec, y)
  {
    if vec != [] {
      CountOfEquivalents(less, vec[..|vec| - 1], x, y);
      EquivCongruent(less, x, y, vec[|vec| - 1]);
    }
  }

  /** The three clauses of IsVote leave exactly one possible outcome. */
  lemma {:induction false} VoteIsUnique<T(!new)>(less: (T, T) -> bool, vec: seq<T>, mCorrupt: nat, r: seq<T>, s: seq<T>)
    requires StrictWeakOrder(less) && IsVote(less, vec, mCorrupt, r) && IsVote(less, vec, mCorrupt, s)
    ensures r == s
  {
    VoteMembers(less, vec, mCorrupt, r, s);
    VoteMembers(less, vec, mCorrupt, s, r);
    AscendingUnique(less, r, s);
  }

  lemma VoteMembers<T(!new)>(less: (T, T) -> bool, vec: seq<T>, mCorrupt: nat, r: seq<T>, s: seq<T>)
    requires StrictWeakOrder(less) && IsVote(less, vec, mCorrupt, r) && IsVote(less, vec, mCorrupt, s)
    ensures forall x :: x in r ==> x in s
  {
    forall x | x in r ensures x in s {
      var k :| 0 <= k < |vec| && vec[k] == x && forall j :: 0 <= j < k ==> !Equiv(less, vec[j], x);
      assert x in vec;
      var i :| 0 <= i < |s| && Equiv(less, s[i], x);
      var y := s[i];
      assert y in s && FirstOfClass(less, vec, y);
      var k' :| 0 <= k' < |vec| && vec[k'] == y && forall j :: 0 <= j < k' ==> !Equiv(less, vec[j], y);
      assert k == k';
    }
  }

  // ---------------------------------------------------------------- what a vote guarantees

  function CountWhere(flags: seq<bool>, b: bool): nat {
    if flags == [] then 0
    else CountWhere(flags[..|flags| - 1], b) + (if flags[|flags| - 1] == b then 1 else 0)
  }

  /** The number of entries equivalent to `x` that come from senders with honesty `b`. */
  function ClassCountWhere<T(!new)>(less: (T, T) -> bool, vec: seq<T>, honest: seq<bool>, x: T, b: bool): nat
    requires |vec| == |honest|
  {
    if vec == [] then 0
    else
      var n := |vec| - 1;
      ClassCountWhere(less, vec[..n], honest[..n], x, b)
      + (if Equiv(less, vec[n], x) && honest[n] == b then 1 else 0)
  }

  lemma {:induction false} ClassCountSplits<T(!new)>(less: (T, T) -> bool, vec: seq<T>, honest: seq<bool>, x: T)
    requires |vec| == |honest|
    ensures ClassCount(less, vec, x)
         == ClassCountWhere(less, vec, honest, x, true) + ClassCountWhere(less, vec, honest, x, false)
    ensures ClassCountWhere(less, vec, honest, x, false) <= CountWhere(honest, false)
    ensures ClassCountWhere(less, vec, honest, x, true) > 0 ==>
              exists k :: 0 <= k < |vec| && honest[k] && Equiv(less, vec[k], x)
  {
    if vec != [] {
      var n := |vec| - 1;
      ClassCountSplits(less, vec[..n], honest[..n], x);
      if ClassCountWhere(less, vec[..n], honest[..n], x, true) > 0 {
        var k :| 0 <= k < n && honest[..n][k] && Equiv(less, vec[..n][k], x);
        assert honest[k] && Equiv(less, vec[k], x);
      }
    }
  }

  /** With at most m_corrupt faulty entries, every elected class has an honest member, and a
      class that more than m_corrupt honest entries belong to is elected - whatever the faulty
      entries are and wherever they stand in the input. */
  lemma VoteGuarantee<T(!new)>(less: (T, T) -> bool, vec: seq<T>, honest: seq<bool>, mCorrupt: nat, result: seq<T>)
    requires StrictWeakOrder(less) && |vec| == |honest| && IsVote(less, vec, mCorrupt, result)
    ensures CountWhere(honest, false) <= mCorrupt ==>
              forall r :: r in result ==> exists k :: 0 <= k < |vec| && honest[k] && Equiv(less, vec[k], r)
    ensures forall x :: ClassCountWhere(less, vec, honest, x, true) > mCorrupt ==> Represented(less, result, x)
  {
    if CountWhere(honest, false) <= mCorrupt {
      forall r | r in result ensures exists k :: 0 <= k < |vec| && honest[k] && Equiv(less, vec[k], r) {
        ClassCountSplits(less, vec, honest, r);
      }
    }
    forall x | ClassCountWhere(less, vec, honest, x, true) > mCorrupt ensures Represented(less, result, x) {
      ClassCountSplits(less, vec, honest, x);
      var k :| 0 <= k < |vec| && honest[k] && Equiv(less, vec[k], x);
      CountOfEquivalents(less, vec, vec[k], x);
      var i :| 0 <= i < |result| && Equiv(less, result[i], vec[k]);
      EquivCongruent(less, vec[k], x, result[i]);
    }
  }

  /** Some honest sender's entry is `x` itself, not only equivalent to it. */
  ghost predicate HonestEntry<T(!new)>(vec: seq<T>, honest: seq<bool>, x: T)
    requires |vec| == |honest|
  {
    exists h :: 0 <= h < |vec| && honest[h] && vec[h] == x
  }

  /** Entry `k` is the first of its class. */
  ghost predicate OpensClass<T(!new)>(less: (T, T) -> bool, vec: seq<T>, k: nat)
    requires k < |vec|
  {
    forall j :: 0 <= j < k ==> !Equiv(less, vec[j], vec[k])
  }

  /** What a caller can look at: the first entry of every class that is large enough. */
  ghost predicate FirstsHonest<T(!new)>(less: (T, T) -> bool, vec: seq<T>, honest: seq<bool>, mCorrupt: nat)
    requires |vec| == |honest|
  {
    forall k :: 0 <= k < |vec| && OpensClass(less, vec, k) && ClassCount(less, vec, vec[k]) > mCorrupt ==>
                  HonestEntry(vec, honest, vec[k])
  }

  /** The elements a vote returns are honest entries iff the first entry of every large enough class
      is one: it is the first that stands for its class. */
  lemma ReturnedHonestIff<T(!new)>(less: (T, T) -> bool, vec: seq<T>, honest: seq<bool>, mCorrupt: nat, result: seq<T>)
    requires StrictWeakOrder(less) && |vec| == |honest| && IsVote(less, vec, mCorrupt, result)
    ensures (forall r :: r in result ==> HonestEntry(vec, honest, r)) <==> FirstsHonest(less, vec, honest, mCorrupt)
  {
    hide HonestEntry;
    if FirstsHonest(less, vec, honest, mCorrupt) {
      forall r | r in result ensures HonestEntry(vec, honest, r) {
        var k :| 0 <= k < |vec| && vec[k] == r && forall j :: 0 <= j < k ==> !Equiv(less, vec[j], r);
        assert OpensClass(less, vec, k);
      }
    }
    if forall r :: r in result ==> HonestEntry(vec, honest, r) {
      forall k | 0 <= k < |vec| && OpensClass(less, vec, k) && ClassCount(less, vec, vec[k]) > mCorrupt
        ensures HonestEntry(vec, honest, vec[k])
      {
        FirstIsReturned(less, vec, mCorrupt, result, k);
      }
    }
  }

  lemma FirstIsReturned<T(!new)>(less: (T, T) -> bool, vec: seq<T>, mCorrupt: nat, result: seq<T>, k: nat)
    requires StrictWeakOrder(less) && IsVote(less, vec, mCorrupt, result)
    requires k < |vec| && OpensClass(less, vec, k)
    requires ClassCount(less, vec, vec[k]) > mCorrupt
    ensures vec[k] in result
  {
    assert vec[k] in vec;
    var i :| 0 <= i < |result| && Equiv(less, result[i], vec[k]);
    assert result[i] in result;
    var f :| 0 <= f < |vec| && vec[f] == result[i] && forall j :: 0 <= j < f ==> !Equiv(less, vec[j], result[i]);
    assert f == k;
  }

  /** So they are, with at most m_corrupt faulty entries, when no class has two different entries. */
  lemma ReturnedHonestIfAlike<T(!new)>(less: (T, T) -> bool, vec: seq<T>, honest: seq<bool>, mCorrupt: nat,
                                       result: seq<T>)
    requires StrictWeakOrder(less) && |vec| == |honest| && IsVote(less, vec, mCorrupt, result)
    requires CountWhere(honest, false) <= mCorrupt
    requires forall i, j :: 0 <= i < |vec| && 0 <= j < |vec| && Equiv(less, vec[i], vec[j]) ==> vec[i] == vec[j]
    ensures forall r :: r in result ==> HonestEntry(vec, honest, r)
  {
    VoteGuarantee(less, vec, honest, mCorrupt, result);
    forall r | r in result ensures HonestEntry(vec, honest, r) {
      var k :| 0 <= k < |vec| && honest[k] && Equiv(less, vec[k], r);
      var f :| 0 <= f < |vec| && vec[f] == r && forall j :: 0 <= j < f ==> !Equiv(less, vec[j], r);
    }
  }

  /** A vote returns exactly the first entries of the large enough classes. */
  lemma ReturnedIff<T(!new)>(less: (T, T) -> bool, vec: seq<T>, mCorrupt: nat, result: seq<T>, x: T)
    requires StrictWeakOrder(less) && IsVote(less, vec, mCorrupt, result)
    ensures x in result <==> FirstOfClass(less, vec, x) && ClassCount(less, vec, x) > mCorrupt
  {
    hide ClassCount;
    if FirstOfClass(less, vec, x) && ClassCount(less, vec, x) > mCorrupt {
      var k :| 0 <= k < |vec| && vec[k] == x && forall j :: 0 <= j < k ==> !Equiv(less, vec[j], x);
      FirstIsReturned(less, vec, mCorrupt, result, k);
    }
  }

  lemma CountOfThree(f: MessageTuple, h: MessageTuple)
    requires f.tDst == h.tDst
    ensures ClassCount(MessageLess, [f, h, h], f) == 3
  {
    assert Equiv(MessageLess, f, f) && Equiv(MessageLess, h, f);
    assert ClassCount(MessageLess, [], f) == 0;
    hide ClassCount, Equiv;
    CountStep(MessageLess, [], f, f);
    CountStep(MessageLess, [f], h, f);
    CountStep(MessageLess, [f, h], h, f);
    assert [f, h, h] == [f, h] + [h] && [f, h] == [f] + [h] && [f] == [] + [f];
  }

  lemma VoteOfThree(f: MessageTuple, h: MessageTuple)
    requires f.tDst == h.tDst
    ensures IsVote(MessageLess, [f, h, h], 1, [f])
  {
    hide ClassCount;
    CountOfThree(f, h);
    var vec := [f, h, h];
    assert vec[0] == f && FirstOfClass(MessageLess, vec, f);
    hide FirstOfClass;
    forall v | v in vec ensures Represented(MessageLess, [f], v) {
      assert v == f || v == h;
      assert Equiv(MessageLess, [f][0], v);
    }
  }

  /** A vote that returns a message no honest sender has sent: a faulty one comes first, and two
      honest ones for the same delivery time elect its class. */
  lemma FaultyReturned(f: MessageTuple, h: MessageTuple)
    requires f != h && f.tDst == h.tDst
    ensures CountWhere([false, true, true], false) == 1
    ensures IsVote(MessageLess, [f, h, h], 1, [f])
    ensures !HonestEntry([f, h, h], [false, true, true], f)
  {
    assert [false, true, true][..2] == [false, true] && [false, true][..1] == [false] && [false][..0] == [];
    VoteOfThree(f, h);
  }

  /** A vote that loses a message m_corrupt + 1 senders have sent, without any faulty entry: another
      message for the same delivery time comes first. */
  lemma MajorityLost(f: MessageTuple, h: MessageTuple, result: seq<MessageTuple>)
    requires f != h && f.tDst == h.tDst && IsVote(MessageLess, [f, h, h], 1, result)
    ensures multiset([f, h, h])[h] == 1 + 1
    ensures h !in result
  {
    MessageOrder();
    VoteOfThree(f, h);
    VoteIsUnique(MessageLess, [f, h, h], 1, result, [f]);
  }
}

/**
 * Facts about sequences that both commands rely on: distinct elements, and the keys of a
 * sequence in order of first appearance, which is the key order of a Python `dict` filled by
 * walking the sequence.
 */
module Sequences {

  /** No element occurs twice. */
  predicate Distinct<T(==)>(s: seq<T>) {
    forall i, j | 0 <= i < j < |s| :: s[i] != s[j]
  }

  /** The keys of `s`, each once, in order of first appearance. */
  function FirstSeen<T, K(==)>(s: seq<T>, key: T -> K): seq<K> {
    if |s| == 0 then []
    else
      var seen := FirstSeen(s[..|s| - 1], key);
      var k := key(s[|s| - 1]);
      if k in seen then seen else seen + [k]
  }

  /** The position of the first element of `s` whose key is `k`, or `|s|` when there is none. */
  function FirstIndex<T, K(==)>(s: seq<T>, key: T -> K, k: K): (i: nat)
    ensures i <= |s|
    ensures forall j :: 0 <= j < i ==> key(s[j]) != k
    ensures i < |s| ==> key(s[i]) == k
  {
    if |s| == 0 then 0
    else
      var init := s[..|s| - 1];
      var i := FirstIndex(init, key, k);
      assert forall j :: 0 <= j < |init| ==> s[j] == init[j];
      if i < |init| then i
      else if key(s[|s| - 1]) == k then |init|
      else |s|
  }

  /** Adding an element keeps the first position of a key that already occurred. */
  lemma FirstIndexAppend<T, K>(s: seq<T>, x: T, key: T -> K, k: K)
    ensures var i := FirstIndex(s, key, k);
      FirstIndex(s + [x], key, k) == if i < |s| then i else if key(x) == k then |s| else |s| + 1
  {
    assert (s + [x])[..|s|] == s;
  }

  /** Every key is listed once. */
  lemma {:induction false} FirstSeenDistinct<T, K>(s: seq<T>, key: T -> K)
    ensures Distinct(FirstSeen(s, key))
  {
    if |s| > 0 {
      FirstSeenDistinct(s[..|s| - 1], key);
    }
  }

  /** A key is listed exactly when some element carries it. */
  lemma {:induction false} FirstSeenFound<T, K>(s: seq<T>, key: T -> K, k: K)
    ensures k in FirstSeen(s, key) <==> FirstIndex(s, key, k) < |s|
  {
    if |s| > 0 {
      var init := s[..|s| - 1];
      FirstSeenFound(init, key, k);
      FirstIndexAppend(init, s[|s| - 1], key, k);
      assert init + [s[|s| - 1]] == s;
    }
  }

  /** A key already listed keeps its first position when an element is added. */
  lemma KeepsFirst<T, K>(init: seq<T>, x: T, key: T -> K, k: K)
    requires k in FirstSeen(init, key)
    ensures FirstIndex(init + [x], key, k) == FirstIndex(init, key, k) < |init|
  {
    FirstSeenFound(init, key, k);
    FirstIndexAppend(init, x, key, k);
  }

  /**
   * The keys are listed in the order in which they first occur: an earlier key's first element
   * comes before a later key's first element.
   */
  lemma {:induction false} FirstSeenOrder<T, K>(s: seq<T>, key: T -> K)
    ensures var seen := FirstSeen(s, key);
      forall i, j | 0 <= i < j < |seen| :: FirstIndex(s, key, seen[i]) < FirstIndex(s, key, seen[j])
  {
    if |s| > 0 {
      var init := s[..|s| - 1];
      var x := s[|s| - 1];
      assert init + [x] == s;
      var before := FirstSeen(init, key);
      var seen := FirstSeen(s, key);
      FirstSeenOrder(init, key);
      if key(x) in before {
        assert seen == before;
        forall i, j | 0 <= i < j < |seen|
          ensures FirstIndex(s, key, seen[i]) < FirstIndex(s, key, seen[j])
        {
          KeepsFirst(init, x, key, before[i]);
          KeepsFirst(init, x, key, before[j]);
        }
      } else {
        assert seen == before + [key(x)];
        FirstSeenFound(init, key, key(x));
        FirstIndexAppend(init, x, key, key(x));
        forall i, j | 0 <= i < j < |seen|
          ensures FirstIndex(s, key, seen[i]) < FirstIndex(s, key, seen[j])
        {
          assert seen[i] == before[i];
          KeepsFirst(init, x, key, before[i]);
          if j < |before| {
            assert seen[j] == before[j];
            KeepsFirst(init, x, key, before[j]);
          } else {
            assert seen[j] == key(x);
          }
        }
      }
    }
  }
}

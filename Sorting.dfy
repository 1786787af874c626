/**
 * Python's stable `list.sort(key=...)` and `sorted(...)` on string keys, as an insertion sort
 * over sequences.
 */
module Sorting {
  import opened Text

  /** `s` is in ascending order of `key`. */
  predicate SortedBy<T>(s: seq<T>, key: T -> string) {
    forall i, j | 0 <= i < j < |s| :: LexLe(key(s[i]), key(s[j]))
  }

  /** No two different elements of `s` share a key (package names are unique, say). */
  predicate KeyInjective<T(==)>(s: seq<T>, key: T -> string) {
    forall x, y | x in s && y in s && key(x) == key(y) :: x == y
  }

  /** Puts `x` into the sorted `s` ahead of every element whose key is not below `key(x)`. */
  function Insert<T(==)>(x: T, s: seq<T>, key: T -> string): (r: seq<T>)
    ensures multiset(r) == multiset(s) + multiset{x}
    ensures SortedBy(s, key) ==> SortedBy(r, key)
  {
    if |s| == 0 || LexLe(key(x), key(s[0])) then
      var r := [x] + s;
      assert SortedBy(s, key) ==> SortedBy(r, key) by {
        if SortedBy(s, key) { PrependSmallest(x, s, key); }
      }
      r
    else
      var tail := Insert(x, s[1..], key);
      assert s == [s[0]] + s[1..];
      assert SortedBy(s, key) ==> SortedBy([s[0]] + tail, key) by {
        if SortedBy(s, key) { PrependHead(x, s, tail, key); }
      }
      [s[0]] + tail
  }

  /** An element not above the head of a sorted sequence can go in front of it. */
  lemma PrependSmallest<T>(x: T, s: seq<T>, key: T -> string)
    requires SortedBy(s, key)
    requires |s| == 0 || LexLe(key(x), key(s[0]))
    ensures SortedBy([x] + s, key)
  {
    var r := [x] + s;
    forall i, j | 0 <= i < j < |r| ensures LexLe(key(r[i]), key(r[j])) {
      if i == 0 {
        if j > 1 { LexLeTransitive(key(x), key(s[0]), key(s[j - 1])); }
      } else {
        assert r[i] == s[i - 1] && r[j] == s[j - 1];
      }
    }
  }

  /** The head of a sorted sequence stays in front when `x`, which is above it, goes into the rest. */
  lemma PrependHead<T>(x: T, s: seq<T>, tail: seq<T>, key: T -> string)
    requires SortedBy(s, key) && |s| > 0 && !LexLe(key(x), key(s[0]))
    requires SortedBy(tail, key) && multiset(tail) == multiset(s[1..]) + multiset{x}
    ensures SortedBy([s[0]] + tail, key)
  {
    var r := [s[0]] + tail;
    forall j | 0 <= j < |tail| ensures LexLe(key(s[0]), key(tail[j])) {
      assert tail[j] in multiset(tail);
      if tail[j] == x {
        LexLeTotal(key(x), key(s[0]));
      } else {
        assert tail[j] in multiset(s[1..]);
        var k :| 0 <= k < |s[1..]| && s[1..][k] == tail[j];
        assert s[k + 1] == tail[j];
      }
    }
    forall i, j | 0 <= i < j < |r| ensures LexLe(key(r[i]), key(r[j])) {
      if i == 0 {
        assert r[j] == tail[j - 1];
      } else {
        assert r[i] == tail[i - 1] && r[j] == tail[j - 1];
      }
    }
  }

  /** The elements of `s`, stably sorted by `key`: a permutation of `s` in ascending key order. */
  function SortBy<T(==)>(s: seq<T>, key: T -> string): (r: seq<T>)
    ensures multiset(r) == multiset(s)
    ensures |r| == |s|
    ensures SortedBy(r, key)
  {
    if |s| == 0 then []
    else
      assert s == [s[0]] + s[1..];
      Insert(s[0], SortBy(s[1..], key), key)
  }

  /** The last element of a non-empty sorted sequence has the greatest key. */
  lemma SortedLastIsGreatest<T>(s: seq<T>, key: T -> string)
    requires SortedBy(s, key) && |s| > 0
    ensures forall i :: 0 <= i < |s| ==> LexLe(key(s[i]), key(s[|s| - 1]))
  {
    LexLeReflexive(key(s[|s| - 1]));
  }

  /** Two sorted arrangements of the same non-empty elements start with the same element. */
  lemma SortedPermutationsSameHead<T>(a: seq<T>, b: seq<T>, key: T -> string)
    requires SortedBy(a, key) && SortedBy(b, key)
    requires multiset(a) == multiset(b) && |a| > 0
    requires KeyInjective(a, key)
    ensures |b| > 0 && a[0] == b[0]
  {
    assert a[0] in multiset(b);
    var j :| 0 <= j < |b| && b[j] == a[0];
    assert b[0] in multiset(a);
    var i :| 0 <= i < |a| && a[i] == b[0];
    LexLeReflexive(key(a[0]));
    LexLeReflexive(key(b[0]));
    assert LexLe(key(b[0]), key(a[0])) && LexLe(key(a[0]), key(b[0]));
    LexLeAntisymmetric(key(a[0]), key(b[0]));
  }

  lemma SortedTail<T>(s: seq<T>, key: T -> string)
    requires SortedBy(s, key) && |s| > 0
    ensures SortedBy(s[1..], key)
  {
    forall i, j | 0 <= i < j < |s| - 1 ensures LexLe(key(s[1..][i]), key(s[1..][j])) {
      assert s[1..][i] == s[i + 1] && s[1..][j] == s[j + 1];
    }
  }

  lemma SameHeadTails<T>(a: seq<T>, b: seq<T>)
    requires multiset(a) == multiset(b) && |a| > 0 && |b| > 0 && a[0] == b[0]
    ensures multiset(a[1..]) == multiset(b[1..])
  {
    assert a == [a[0]] + a[1..] && b == [b[0]] + b[1..];
    assert multiset(a) == multiset([a[0]]) + multiset(a[1..]);
    assert multiset(b) == multiset([b[0]]) + multiset(b[1..]);
    forall x ensures multiset(a[1..])[x] == multiset(b[1..])[x] {
      assert multiset(a)[x] == multiset([a[0]])[x] + multiset(a[1..])[x];
      assert multiset(b)[x] == multiset([b[0]])[x] + multiset(b[1..])[x];
    }
  }

  /** Two sorted arrangements of the same elements coincide when keys identify elements. */
  lemma {:induction false} SortedPermutationsEqual<T>(a: seq<T>, b: seq<T>, key: T -> string)
    requires SortedBy(a, key) && SortedBy(b, key)
    requires multiset(a) == multiset(b)
    requires KeyInjective(a, key)
    ensures a == b
  {
    if |a| > 0 {
      SortedPermutationsSameHead(a, b, key);
      SameHeadTails(a, b);
      SortedTail(a, key);
      SortedTail(b, key);
      assert KeyInjective(a[1..], key) by {
        forall x | x in a[1..] ensures x in a { }
      }
      SortedPermutationsEqual(a[1..], b[1..], key);
      assert a == [a[0]] + a[1..] && b == [b[0]] + b[1..];
    } else {
      assert |b| == |multiset(b)| == 0;
    }
  }

  /**
   * Sorting forgets the order of its input: any two arrangements of the same elements sort to
   * the same sequence when keys identify elements.
   */
  lemma SortIgnoresOrder<T>(a: seq<T>, b: seq<T>, key: T -> string)
    requires multiset(a) == multiset(b)
    requires KeyInjective(a, key)
    ensures SortBy(a, key) == SortBy(b, key)
  {
    var sa, sb := SortBy(a, key), SortBy(b, key);
    forall x | x in sa ensures x in a {
      assert x in multiset(sa);
    }
    SortedPermutationsEqual(sa, sb, key);
  }
}

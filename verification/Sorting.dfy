/** The stable sorts of the runtime libraries, as a function of the list and a strict "goes before" relation. */
module Sorting {

  function Insert<T>(x: T, s: seq<T>, before: (T, T) -> bool): (r: seq<T>)
    ensures |r| == |s| + 1 && multiset(r) == multiset(s) + multiset{x}
  {
    if s == [] || !before(x, s[|s| - 1]) then s + [x]
    else
      assert s == s[..|s| - 1] + [s[|s| - 1]];
      Insert(x, s[..|s| - 1], before) + [s[|s| - 1]]
  }

  /** Insertion keeps equal elements in their original order. */
  function Sort<T>(s: seq<T>, before: (T, T) -> bool): (r: seq<T>)
    ensures |r| == |s| && multiset(r) == multiset(s)
  {
    if s == [] then []
    else
      assert s == s[..|s| - 1] + [s[|s| - 1]];
      Insert(s[|s| - 1], Sort(s[..|s| - 1], before), before)
  }

  /** before is a strict weak order: what a sort comparator has to be. */
  ghost predicate WeakOrder<T(!new)>(before: (T, T) -> bool) {
    && (forall a, b :: before(a, b) ==> !before(b, a))
    && (forall a, b, c :: before(a, b) ==> before(a, c) || before(c, b))
  }

  ghost predicate Sorted<T>(s: seq<T>, before: (T, T) -> bool) {
    forall i, j :: 0 <= i < j < |s| ==> !before(s[j], s[i])
  }

  lemma {:induction false} InsertSorts<T(!new)>(x: T, s: seq<T>, before: (T, T) -> bool)
    requires WeakOrder(before) && Sorted(s, before)
    ensures Sorted(Insert(x, s, before), before)
  {
    if s != [] {
      var last := s[|s| - 1];
      var r := Insert(x, s, before);
      if before(x, last) {
        var front := Insert(x, s[..|s| - 1], before);
        InsertSorts(x, s[..|s| - 1], before);
        forall i | 0 <= i < |front| ensures !before(last, front[i]) {
          assert front[i] in multiset(front);
          assert front[i] == x || front[i] in s[..|s| - 1];
        }
      } else {
        forall i | 0 <= i < |s| ensures !before(x, s[i]) {
          assert i == |s| - 1 || !before(last, s[i]);
        }
      }
    }
  }

  lemma {:induction false} SortSorts<T(!new)>(s: seq<T>, before: (T, T) -> bool)
    requires WeakOrder(before)
    ensures Sorted(Sort(s, before), before)
  {
    if s != [] {
      SortSorts(s[..|s| - 1], before);
      InsertSorts(s[|s| - 1], Sort(s[..|s| - 1], before), before);
    }
  }

  /** Any two different elements of s are ordered one way or the other. */
  ghost predicate Comparable<T>(s: seq<T>, before: (T, T) -> bool) {
    forall x, y :: x in s && y in s && x != y ==> before(x, y) || before(y, x)
  }

  lemma SameLast<T(!new)>(a: seq<T>, b: seq<T>, before: (T, T) -> bool)
    requires WeakOrder(before) && Sorted(a, before) && Sorted(b, before)
    requires multiset(a) == multiset(b) && a != [] && b != []
    requires Comparable(a, before)
    ensures a[|a| - 1] == b[|b| - 1]
  {
    var x, y := a[|a| - 1], b[|b| - 1];
    assert x in multiset(b) && y in multiset(a);
    var i :| 0 <= i < |a| && a[i] == y;
    var j :| 0 <= j < |b| && b[j] == x;
    assert i < |a| - 1 ==> !before(x, a[i]);
    assert j < |b| - 1 ==> !before(y, b[j]);
  }

  lemma DropLast<T>(a: seq<T>)
    requires a != []
    ensures multiset(a[..|a| - 1]) == multiset(a) - multiset{a[|a| - 1]}
    ensures a == a[..|a| - 1] + [a[|a| - 1]]
  {
    assert a == a[..|a| - 1] + [a[|a| - 1]];
  }

  lemma PrefixKeepsOrder<T>(a: seq<T>, before: (T, T) -> bool)
    requires a != []
    ensures Comparable(a, before) ==> Comparable(a[..|a| - 1], before)
    ensures Sorted(a, before) ==> Sorted(a[..|a| - 1], before)
  {
  }

  /** When different elements are always ordered, a multiset has only one sorted listing. */
  lemma {:induction false} SortedListingUnique<T(!new)>(a: seq<T>, b: seq<T>, before: (T, T) -> bool)
    requires WeakOrder(before) && Sorted(a, before) && Sorted(b, before)
    requires multiset(a) == multiset(b)
    requires Comparable(a, before)
    ensures a == b
  {
    assert |multiset(a)| == |a| && |multiset(b)| == |b|;
    hide Sorted, Comparable, WeakOrder;
    if a != [] {
      SameLast(a, b, before);
      DropLast(a);
      DropLast(b);
      PrefixKeepsOrder(a, before);
      PrefixKeepsOrder(b, before);
      SortedListingUnique(a[..|a| - 1], b[..|b| - 1], before);
    }
  }

  /** No two elements have the same key. */
  ghost predicate DistinctKeys<T, K>(s: seq<T>, key: T -> K) {
    forall i, j :: 0 <= i < j < |s| ==> key(s[i]) != key(s[j])
  }

  lemma TwiceInMultiset<T>(s: seq<T>, i: nat, j: nat)
    requires i < j < |s| && s[i] == s[j]
    ensures multiset(s)[s[i]] >= 2
  {
    assert s == s[..j] + [s[j]] + s[j + 1..];
    assert s[i] in multiset(s[..j]) by { assert s[..j][i] == s[i]; }
  }

  lemma {:induction false} OnceWhenDistinct<T, K>(s: seq<T>, key: T -> K, x: T)
    requires DistinctKeys(s, key)
    ensures multiset(s)[x] <= 1
  {
    if s != [] {
      var front, last := s[..|s| - 1], s[|s| - 1];
      assert s == front + [last];
      OnceWhenDistinct(front, key, x);
      if x == last {
        assert x !in front;
      }
    }
  }

  /** Reordering a list with distinct keys keeps the keys distinct. */
  lemma KeysStayDistinct<T, K>(a: seq<T>, b: seq<T>, key: T -> K)
    requires multiset(a) == multiset(b) && DistinctKeys(a, key)
    ensures DistinctKeys(b, key)
  {
    forall i, j | 0 <= i < j < |b| ensures key(b[i]) != key(b[j]) {
      assert b[i] in multiset(a) && b[j] in multiset(a);
      if key(b[i]) == key(b[j]) {
        var k :| 0 <= k < |a| && a[k] == b[i];
        var l :| 0 <= l < |a| && a[l] == b[j];
        assert k == l;
        TwiceInMultiset(b, i, j);
        OnceWhenDistinct(a, key, b[i]);
      }
    }
  }

  lemma SameMembers<T>(a: seq<T>, b: seq<T>)
    requires multiset(a) == multiset(b)
    ensures forall x :: x in a <==> x in b
  {
    assert forall x :: (x in a <==> x in multiset(a)) && (x in b <==> x in multiset(b));
  }

  /** Python's and JavaScript's order on strings: by the first differing character, then by length. */
  predicate StringBefore(a: string, b: string) {
    if b == [] then false
    else if a == [] then true
    else if a[0] != b[0] then a[0] < b[0]
    else StringBefore(a[1..], b[1..])
  }

  /** a and b agree on their first n characters, and a ends there or has the smaller next one. */
  ghost predicate DifferAt(a: string, b: string, n: nat) {
    n <= |a| && n < |b| && a[..n] == b[..n] && (n == |a| || a[n] < b[n])
  }

  lemma {:induction false} StringBeforeIff(a: string, b: string)
    ensures StringBefore(a, b) <==> exists n: nat :: DifferAt(a, b, n)
  {
    if b != [] && a != [] && a[0] == b[0] {
      StringBeforeIff(a[1..], b[1..]);
      if n: nat :| DifferAt(a[1..], b[1..], n) {
        assert a[..n + 1] == [a[0]] + a[1..][..n] && b[..n + 1] == [b[0]] + b[1..][..n];
        assert DifferAt(a, b, n + 1);
      }
      if n: nat :| DifferAt(a, b, n) {
        assert a[..n][1..] == a[1..][..n - 1] && b[..n][1..] == b[1..][..n - 1];
        assert DifferAt(a[1..], b[1..], n - 1);
      }
    } else if b != [] && (a == [] || a[0] < b[0]) {
      assert DifferAt(a, b, 0);
    } else {
      forall n: nat ensures DifferAt(a, b, n) && n > 0 ==> a[0] == b[0] {
        SameInitial(a, b, n);
      }
    }
  }

  lemma SameInitial(a: string, b: string, n: nat)
    ensures DifferAt(a, b, n) && n > 0 ==> a[0] == b[0]
  {
    if DifferAt(a, b, n) && n > 0 {
      assert a[..n][0] == b[..n][0];
    }
  }

  lemma {:induction false} StringBeforeTotal(a: string, b: string)
    ensures a != b <==> StringBefore(a, b) || StringBefore(b, a)
    ensures !(StringBefore(a, b) && StringBefore(b, a))
  {
    if a != [] && b != [] && a[0] == b[0] {
      StringBeforeTotal(a[1..], b[1..]);
      assert a == [a[0]] + a[1..] && b == [b[0]] + b[1..];
    }
  }

  lemma {:induction false} StringBeforeWeak(a: string, b: string, c: string)
    requires StringBefore(a, b)
    ensures StringBefore(a, c) || StringBefore(c, b)
  {
    if a != [] && c != [] && a[0] == b[0] == c[0] {
      StringBeforeWeak(a[1..], b[1..], c[1..]);
    }
  }
}

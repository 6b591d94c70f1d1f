/** Sorting by a total preorder, and the uniqueness that makes a sorted result independent of the order it was built in. */
module Sorting {

  ghost predicate TotalPreorder<T(!new)>(leq: (T, T) -> bool) {
    && (forall x, y :: leq(x, y) || leq(y, x))
    && (forall x, y, z :: leq(x, y) && leq(y, z) ==> leq(x, z))
  }

  /** A strict total order, as a collation is assumed to be. */
  ghost predicate StrictTotal<K(!new)>(before: (K, K) -> bool) {
    && (forall x, y :: before(x, y) ==> !before(y, x))
    && (forall x, y :: x == y || before(x, y) || before(y, x))
    && (forall x, y, z :: before(x, y) && before(y, z) ==> before(x, z))
  }

  /** Ordering things by a key is a total preorder. */
  lemma ByKey<T(!new), K(!new)>(leq: (T, T) -> bool, key: T -> K, before: (K, K) -> bool)
    requires StrictTotal(before) && forall x, y :: leq(x, y) <==> !before(key(y), key(x))
    ensures TotalPreorder(leq)
  {
    forall x, y ensures leq(x, y) || leq(y, x) {
      if before(key(y), key(x)) { assert !before(key(x), key(y)); }
    }
    forall x, y, z | leq(x, y) && leq(y, z) ensures leq(x, z) {
      assert key(x) == key(y) || before(key(x), key(y));
      assert before(key(z), key(x)) && before(key(x), key(y)) ==> before(key(z), key(y));
    }
  }

  function Insert<T>(x: T, s: seq<T>, leq: (T, T) -> bool): seq<T> {
    if s == [] || leq(x, s[0]) then [x] + s else [s[0]] + Insert(x, s[1..], leq)
  }

  function Sort<T>(s: seq<T>, leq: (T, T) -> bool): seq<T> {
    if s == [] then [] else Insert(s[0], Sort(s[1..], leq), leq)
  }

  ghost predicate Sorted<T>(s: seq<T>, leq: (T, T) -> bool) {
    s == [] || ((forall y | y in s[1..] :: leq(s[0], y)) && Sorted(s[1..], leq))
  }

  lemma {:induction false} SortedPairs<T>(s: seq<T>, leq: (T, T) -> bool, i: nat, j: nat)
    requires Sorted(s, leq) && i < j < |s|
    ensures leq(s[i], s[j])
    decreases s
  {
    if i == 0 {
      assert s[1..][j - 1] == s[j];
    } else {
      SortedPairs(s[1..], leq, i - 1, j - 1);
    }
  }

  lemma {:induction false} InsertBag<T>(x: T, s: seq<T>, leq: (T, T) -> bool)
    ensures multiset(Insert(x, s, leq)) == multiset(s) + multiset{x}
    decreases s
  {
    if s != [] {
      assert s == [s[0]] + s[1..];
      InsertBag(x, s[1..], leq);
    }
  }

  lemma {:induction false} InsertSorts<T(!new)>(x: T, s: seq<T>, leq: (T, T) -> bool)
    requires TotalPreorder(leq) && Sorted(s, leq)
    ensures Sorted(Insert(x, s, leq), leq)
    decreases s
  {
    if s == [] {
    } else if leq(x, s[0]) {
      assert ([x] + s)[1..] == s;
      assert forall y | y in s :: y == s[0] || y in s[1..];
    } else {
      var tail := Insert(x, s[1..], leq);
      InsertSorts(x, s[1..], leq);
      InsertBag(x, s[1..], leq);
      forall y | y in tail ensures leq(s[0], y) {
        assert y in multiset(tail);
      }
      assert ([s[0]] + tail)[1..] == tail;
    }
  }

  lemma {:induction false} SortBag<T>(s: seq<T>, leq: (T, T) -> bool)
    ensures multiset(Sort(s, leq)) == multiset(s)
    decreases s
  {
    if s != [] {
      SortBag(s[1..], leq);
      InsertBag(s[0], Sort(s[1..], leq), leq);
      assert s == [s[0]] + s[1..];
    }
  }

  lemma {:induction false} SortSorts<T(!new)>(s: seq<T>, leq: (T, T) -> bool)
    requires TotalPreorder(leq)
    ensures Sorted(Sort(s, leq), leq)
    decreases s
  {
    if s != [] {
      SortSorts(s[1..], leq);
      InsertSorts(s[0], Sort(s[1..], leq), leq);
    }
  }

  lemma SortMembers<T>(s: seq<T>, leq: (T, T) -> bool, x: T)
    ensures x in Sort(s, leq) <==> x in s
  {
    SortBag(s, leq);
    assert x in Sort(s, leq) <==> x in multiset(Sort(s, leq));
  }

  lemma HeadAndTail<T>(s: seq<T>)
    requires s != []
    ensures multiset(s) == multiset{s[0]} + multiset(s[1..]) && forall y :: y in multiset(s[1..]) <==> y in s[1..]
  {
    assert s == [s[0]] + s[1..];
  }

  lemma {:induction false} SortedUnique<T>(a: seq<T>, b: seq<T>, leq: (T, T) -> bool)
    requires Sorted(a, leq) && Sorted(b, leq) && multiset(a) == multiset(b)
    requires forall x, y | x in multiset(a) && y in multiset(a) && leq(x, y) && leq(y, x) :: x == y
    ensures a == b
    decreases a
  {
    if a == [] {
      assert |multiset(b)| == 0;
    } else {
      HeadAndTail(a);
      assert a[0] in multiset(b);
      HeadAndTail(b);
      assert b[0] in multiset(a);
      assert a[0] == b[0];
      assert multiset(a[1..]) <= multiset(a);
      SortedUnique(a[1..], b[1..], leq);
    }
  }

  /** Two arrangements of the same elements, no two of them equivalent, sort the same way. */
  lemma SortedAlike<T(!new)>(a: seq<T>, b: seq<T>, leq: (T, T) -> bool)
    requires TotalPreorder(leq) && multiset(a) == multiset(b)
    requires forall x, y | x in b && y in b && leq(x, y) && leq(y, x) :: x == y
    ensures Sort(a, leq) == Sort(b, leq)
  {
    SortSorts(a, leq);
    SortSorts(b, leq);
    SortBag(a, leq);
    SortBag(b, leq);
    SortedUnique(Sort(a, leq), Sort(b, leq), leq);
  }

  /** Sequences without repetitions that have the same elements are arrangements of each other. */
  lemma {:induction false} SameElements<T>(a: seq<T>, b: seq<T>)
    requires forall i, j | 0 <= i < j < |a| :: a[i] != a[j]
    requires forall i, j | 0 <= i < j < |b| :: b[i] != b[j]
    requires forall x :: x in a <==> x in b
    ensures multiset(a) == multiset(b)
  {
    NoRepeats(a);
    NoRepeats(b);
    forall x ensures multiset(a)[x] == multiset(b)[x] {
      assert x in multiset(a) <==> x in a;
      assert x in multiset(b) <==> x in b;
    }
  }

  lemma {:induction false} NoRepeats<T>(s: seq<T>)
    requires forall i, j | 0 <= i < j < |s| :: s[i] != s[j]
    ensures forall x :: multiset(s)[x] <= 1
    decreases s
  {
    if s != [] {
      NoRepeats(s[1..]);
      HeadAndTail(s);
      assert s[0] !in s[1..];
    }
  }

  lemma Twice<T>(s: seq<T>, i: nat, j: nat)
    requires i < j < |s| && s[i] == s[j]
    ensures multiset(s)[s[i]] >= 2
  {
    assert s == s[..j] + s[j..];
    assert s[i] == s[..j][i] && s[j] == s[j..][0];
  }

  /** Sorting keeps the keys of things different. */
  lemma SortKeepsDistinct<T, K>(s: seq<T>, leq: (T, T) -> bool, key: T -> K)
    requires forall i, j | 0 <= i < j < |s| :: key(s[i]) != key(s[j])
    ensures forall i, j | 0 <= i < j < |Sort(s, leq)| :: key(Sort(s, leq)[i]) != key(Sort(s, leq)[j])
  {
    hide Sort;
    var sorted := Sort(s, leq);
    SortBag(s, leq);
    NoRepeats(s);
    forall i, j | 0 <= i < j < |sorted| ensures key(sorted[i]) != key(sorted[j]) {
      if sorted[i] == sorted[j] { Twice(sorted, i, j); }
      assert sorted[i] in multiset(s) && sorted[j] in multiset(s);
    }
  }
}

/** `sort.Slice`: an arrangement that the comparison allows, with nothing said of equal elements. */
module Sorting {

  /** A comparison under which elements that neither precede each other are interchangeable. */
  ghost predicate WeakOrder<T(!new)>(less: (T, T) -> bool) {
    && (forall x, y :: less(x, y) ==> !less(y, x))
    && (forall x, y, z :: !less(x, y) && !less(y, z) ==> !less(x, z))
  }

  ghost predicate SortedBy<T>(less: (T, T) -> bool, s: seq<T>) {
    forall i, j :: 0 <= i < j < |s| ==> !less(s[j], s[i])
  }

  ghost predicate Arranges<T>(less: (T, T) -> bool, sorted: seq<T>, s: seq<T>) {
    SortedBy(less, sorted) && multiset(sorted) == multiset(s)
  }

  method SortSlice<T(!new)>(s: seq<T>, less: (T, T) -> bool) returns (sorted: seq<T>)
    requires WeakOrder(less)
    ensures Arranges(less, sorted, s) && |sorted| == |s|
  {
    hide SortedBy, WeakOrder;
    sorted := [];
    NothingSorted(less);
    for i := 0 to |s|
      invariant SortedBy(less, sorted) && |sorted| == i
      invariant multiset(sorted) == multiset(s[..i])
    {
      var at := i;
      while at > 0 && less(s[i], sorted[at - 1])
        invariant 0 <= at <= i
        invariant forall j :: at <= j < i ==> less(s[i], sorted[j])
      {
        at := at - 1;
      }
      InsertKeepsSorted(less, sorted, at, s[i]);
      InsertKeepsElements(sorted, at, s, i);
      sorted := sorted[..at] + [s[i]] + sorted[at..];
    }
    assert s[..|s|] == s;
  }

  lemma InsertKeepsSorted<T(!new)>(less: (T, T) -> bool, sorted: seq<T>, at: nat, x: T)
    requires WeakOrder(less) && SortedBy(less, sorted) && at <= |sorted|
    requires forall j :: at <= j < |sorted| ==> less(x, sorted[j])
    requires at > 0 ==> !less(x, sorted[at - 1])
    ensures SortedBy(less, sorted[..at] + [x] + sorted[at..])
  {
  }

  lemma NothingSorted<T>(less: (T, T) -> bool)
    ensures SortedBy(less, [])
  {
  }

  lemma InsertKeepsElements<T>(sorted: seq<T>, at: nat, s: seq<T>, i: nat)
    requires at <= |sorted| && i < |s| && multiset(sorted) == multiset(s[..i])
    ensures multiset(sorted[..at] + [s[i]] + sorted[at..]) == multiset(s[..i + 1])
  {
    assert sorted == sorted[..at] + sorted[at..];
    assert s[..i + 1] == s[..i] + [s[i]];
  }

  /** Any two different elements of the list are in order one way or the other. */
  ghost predicate Separates<T(!new)>(less: (T, T) -> bool, s: seq<T>) {
    forall x, y :: x in s && y in s && x != y ==> less(x, y) || less(y, x)
  }

  lemma SameHead<T(!new)>(less: (T, T) -> bool, a: seq<T>, b: seq<T>)
    requires SortedBy(less, a) && SortedBy(less, b) && multiset(a) == multiset(b) && a != []
    requires Separates(less, a)
    ensures b != [] && a[0] == b[0]
  {
    assert a[0] in multiset(b);
    var i :| 0 <= i < |b| && b[i] == a[0];
    assert b[0] in multiset(a);
    var j :| 0 <= j < |a| && a[j] == b[0];
    assert i > 0 ==> !less(b[i], b[0]);
    assert j > 0 ==> !less(a[j], a[0]);
  }

  lemma TailElements<T>(s: seq<T>)
    requires s != []
    ensures multiset(s[1..]) == multiset(s) - multiset{s[0]}
  {
    assert s == [s[0]] + s[1..];
  }

  lemma TailSorted<T(!new)>(less: (T, T) -> bool, s: seq<T>)
    requires SortedBy(less, s) && s != []
    ensures SortedBy(less, s[1..])
    ensures Separates(less, s) ==> Separates(less, s[1..])
  {
    assert forall x :: x in s[1..] ==> x in s;
  }

  /** Where the comparison separates different elements, there is only one arrangement. */
  lemma {:induction false} ArrangementUnique<T(!new)>(less: (T, T) -> bool, a: seq<T>, b: seq<T>)
    requires SortedBy(less, a) && SortedBy(less, b) && multiset(a) == multiset(b)
    requires Separates(less, a)
    ensures a == b
  {
    hide SortedBy, Separates;
    SameLength(a, b);
    if a != [] {
      SameHead(less, a, b);
      TailElements(a);
      TailElements(b);
      TailSorted(less, a);
      TailSorted(less, b);
      ArrangementUnique(less, a[1..], b[1..]);
      HeadAndTail(a, b);
    }
  }

  lemma SameLength<T>(a: seq<T>, b: seq<T>)
    requires multiset(a) == multiset(b)
    ensures |a| == |b|
  {
    assert |a| == |multiset(a)| == |multiset(b)| == |b|;
  }

  lemma HeadAndTail<T>(a: seq<T>, b: seq<T>)
    requires a != [] && b != [] && a[0] == b[0] && a[1..] == b[1..]
    ensures a == b
  {
    assert a == [a[0]] + a[1..] && b == [b[0]] + b[1..];
  }

  lemma TwiceInMultiset<T>(s: seq<T>, i: nat, j: nat)
    requires i < j < |s| && s[i] == s[j]
    ensures multiset(s)[s[i]] >= 2
  {
    assert s == s[..j] + s[j..];
    assert s[..j][i] in multiset(s[..j]) && s[j..][0] in multiset(s[j..]);
  }

  /** A list with the elements of a set has each of them once. */
  lemma ListOfSet<T>(s: seq<T>, elements: set<T>)
    requires multiset(s) == multiset(elements)
    ensures |s| == |elements|
    ensures forall x :: x in s <==> x in elements
    ensures forall i, j :: 0 <= i < j < |s| ==> s[i] != s[j]
  {
    assert |s| == |multiset(s)| == |multiset(elements)| == |elements|;
    forall x ensures x in s <==> x in elements {
      assert x in s <==> x in multiset(s);
      assert x in elements <==> x in multiset(elements);
    }
    forall i, j | 0 <= i < j < |s| ensures s[i] != s[j] {
      if s[i] == s[j] { TwiceInMultiset(s, i, j); }
    }
  }

  lemma SameSizeSubset<T>(a: multiset<T>, b: multiset<T>)
    requires a <= b && |a| == |b|
    ensures a == b
  {
    assert b == a + (b - a);
    assert |b - a| == 0;
  }

  function Reversed<T>(s: seq<T>): (r: seq<T>)
    ensures |r| == |s|
    ensures forall i :: 0 <= i < |s| ==> r[i] == s[|s| - 1 - i]
  {
    if s == [] then [] else Reversed(s[1..]) + [s[0]]
  }

  lemma {:induction false} ReversedKeepsElements<T>(s: seq<T>)
    ensures multiset(Reversed(s)) == multiset(s)
  {
    if s != [] {
      ReversedKeepsElements(s[1..]);
      assert s == [s[0]] + s[1..];
    }
  }
}

/** Python's `sorted`: a stable insertion into an ordered sequence. */
module Sorting {
  import opened Heap
  import opened Grid

  ghost predicate SortedBy<T>(le: (T, T) -> bool, s: seq<T>) {
    forall i, j :: 0 <= i < j < |s| ==> le(s[i], s[j])
  }

  function Insert<T>(le: (T, T) -> bool, x: T, s: seq<T>): seq<T> {
    if s == [] then [x] else if le(s[0], x) then [s[0]] + Insert(le, x, s[1..]) else [x] + s
  }

  function Sorted<T>(le: (T, T) -> bool, s: seq<T>): seq<T> {
    if s == [] then [] else Insert(le, s[|s| - 1], Sorted(le, s[..|s| - 1]))
  }

  lemma {:induction false} InsertKeepsItems<T>(le: (T, T) -> bool, x: T, s: seq<T>)
    ensures multiset(Insert(le, x, s)) == multiset(s) + multiset{x}
  {
    if s != [] && le(s[0], x) {
      InsertKeepsItems(le, x, s[1..]);
      assert s == [s[0]] + s[1..];
    }
  }

  lemma PrependSorted<T(!new)>(le: (T, T) -> bool, x: T, s: seq<T>)
    requires SortedBy(le, s) && forall y :: y in s ==> le(x, y)
    ensures SortedBy(le, [x] + s)
  {
  }

  lemma {:induction false} InsertIsSorted<T(!new)>(le: (T, T) -> bool, x: T, s: seq<T>)
    requires TotalOrder(le) && SortedBy(le, s)
    ensures SortedBy(le, Insert(le, x, s))
  {
    if s != [] && le(s[0], x) {
      var rest := Insert(le, x, s[1..]);
      InsertIsSorted(le, x, s[1..]);
      InsertKeepsItems(le, x, s[1..]);
      forall y | y in rest ensures le(s[0], y) {
        assert y in multiset(rest);
        assert y == x || y in s[1..];
      }
      PrependSorted(le, s[0], rest);
    } else {
      PrependSorted(le, x, s);
    }
  }

  /** The result is ordered and holds the same items. */
  lemma {:induction false} SortedIsSorted<T(!new)>(le: (T, T) -> bool, s: seq<T>)
    requires TotalOrder(le)
    ensures SortedBy(le, Sorted(le, s)) && multiset(Sorted(le, s)) == multiset(s)
    ensures |Sorted(le, s)| == |s| && forall x :: x in Sorted(le, s) <==> x in s
  {
    if s != [] {
      var init := s[..|s| - 1];
      SortedIsSorted(le, init);
      InsertIsSorted(le, s[|s| - 1], Sorted(le, init));
      InsertKeepsItems(le, s[|s| - 1], Sorted(le, init));
      assert s == init + [s[|s| - 1]];
    }
    SameItems(Sorted(le, s), s);
  }

  lemma SameItems<T>(a: seq<T>, b: seq<T>)
    requires multiset(a) == multiset(b)
    ensures |a| == |b| && forall x :: x in a <==> x in b
  {
    assert |multiset(a)| == |a| && |multiset(b)| == |b|;
    forall x ensures x in a <==> x in b {
      assert x in multiset(a) <==> x in a;
      assert x in multiset(b) <==> x in b;
    }
  }

  ghost predicate Strict<T>(lt: (T, T) -> bool, s: seq<T>) {
    forall i, j :: 0 <= i < j < |s| ==> s[i] != s[j] && lt(s[i], s[j])
  }

  ghost predicate Antisymmetric<T(!new)>(le: (T, T) -> bool) {
    forall a, b :: le(a, b) && le(b, a) ==> a == b
  }

  /** `sorted` of a set: each member once, in order. */
  method SortedSet<T(==,!new)>(le: (T, T) -> bool, items: set<T>) returns (s: seq<T>)
    requires TotalOrder(le)
    ensures Strict(le, s) && forall x :: x in s <==> x in items
  {
    s := [];
    var rest := items;
    while rest != {}
      invariant rest <= items && Strict(le, s)
      invariant forall x :: x in s <==> x in items - rest
      invariant forall x, y :: x in s && y in rest ==> le(x, y)
      decreases rest
    {
      var least, others := Pop(le, rest);
      assert forall i :: 0 <= i < |s| ==> s[i] in s;
      s, rest := s + [least], others;
    }
  }

  /** There is only one way to list a set in order. */
  lemma {:induction false} SortedSetUnique<T(!new)>(le: (T, T) -> bool, a: seq<T>, b: seq<T>)
    requires Antisymmetric(le) && Strict(le, a) && Strict(le, b)
    requires forall x :: x in a <==> x in b
    ensures a == b
    decreases |a|
  {
    assert a != [] ==> a[0] in a && a[0] in b;
    assert b != [] ==> b[0] in b && b[0] in a;
    if a != [] {
      var i :| 0 <= i < |b| && b[i] == a[0];
      var j :| 0 <= j < |a| && a[j] == b[0];
      assert a[0] == b[0];
      forall x ensures x in a[1..] <==> x in b[1..] {
        TailItems(le, a, x);
        TailItems(le, b, x);
      }
      SortedSetUnique(le, a[1..], b[1..]);
      assert a == [a[0]] + a[1..] && b == [b[0]] + b[1..];
    }
  }

  lemma TailItems<T>(le: (T, T) -> bool, s: seq<T>, x: T)
    requires Strict(le, s) && s != []
    ensures x in s[1..] <==> x in s && x != s[0]
  {
    assert s == [s[0]] + s[1..];
  }

  ghost predicate NoDuplicates<T>(s: seq<T>) {
    forall i, j :: 0 <= i < j < |s| ==> s[i] != s[j]
  }

  lemma {:induction false} NoDuplicatesCounts<T>(s: seq<T>)
    ensures NoDuplicates(s) <==> forall x :: x in s ==> multiset(s)[x] == 1
  {
    if s != [] {
      var init, last := s[..|s| - 1], s[|s| - 1];
      assert s == init + [last];
      NoDuplicatesCounts(init);
      assert NoDuplicates(s) <==> NoDuplicates(init) && last !in init;
      forall x | x in init ensures multiset(s)[x] == multiset(init)[x] + if x == last then 1 else 0 {
      }
    }
  }

  /** Rearranging items neither repeats nor loses any. */
  lemma Rearranged<T>(a: seq<T>, b: seq<T>)
    requires multiset(a) == multiset(b)
    ensures NoDuplicates(a) <==> NoDuplicates(b)
    ensures forall x :: x in a <==> x in b
  {
    SameItems(a, b);
    NoDuplicatesCounts(a);
    NoDuplicatesCounts(b);
  }

  lemma {:induction false} ElementsSize<T>(s: seq<T>)
    ensures |Elements(s)| <= |s|
    ensures |Elements(s)| == |s| <==> NoDuplicates(s)
  {
    if s != [] {
      var init, last := s[..|s| - 1], s[|s| - 1];
      ElementsSize(init);
      assert s == init + [last];
      assert Elements(s) == Elements(init) + {last};
      assert last in init <==> last in Elements(init);
    }
  }

  /** The ordered list of a set. */
  ghost function ListOf<T(!new)>(le: (T, T) -> bool, items: set<T>): seq<T>
    requires TotalOrder(le)
  {
    if items == {} then []
    else
      LeastExists(le, items);
      var least :| IsLeast(le, least, items);
      [least] + ListOf(le, items - {least})
  }

  lemma {:induction false} ListOfIsStrict<T(!new)>(le: (T, T) -> bool, items: set<T>)
    requires TotalOrder(le)
    ensures Strict(le, ListOf(le, items)) && forall x :: x in ListOf(le, items) <==> x in items
    decreases items
  {
    if items != {} {
      var list := ListOf(le, items);
      LeastExists(le, items);
      var least := list[0];
      ListOfIsStrict(le, items - {least});
      var rest := ListOf(le, items - {least});
      assert list == [least] + rest;
      forall i | 0 <= i < |rest| ensures rest[i] != least && le(least, rest[i]) {
        assert rest[i] in rest;
      }
    }
  }

  /** Listing a set in order produces its ordered list. */
  lemma ListOfIsOnly<T(!new)>(le: (T, T) -> bool, items: set<T>, s: seq<T>)
    requires TotalOrder(le) && Antisymmetric(le) && Strict(le, s) && forall x :: x in s <==> x in items
    ensures s == ListOf(le, items)
  {
    ListOfIsStrict(le, items);
    SortedSetUnique(le, s, ListOf(le, items));
  }
}

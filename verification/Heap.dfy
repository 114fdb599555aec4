/** `heapq` as the planners use it: rows are pairwise different, and a pop takes the least one. */
module Heap {

  ghost predicate TotalOrder<T(!new)>(le: (T, T) -> bool) {
    && (forall a, b :: le(a, b) || le(b, a))
    && (forall a, b, c :: le(a, b) && le(b, c) ==> le(a, c))
  }

  ghost predicate IsLeast<T>(le: (T, T) -> bool, least: T, heap: set<T>) {
    least in heap && forall x :: x in heap ==> le(least, x)
  }

  lemma LeastExists<T(!new)>(le: (T, T) -> bool, heap: set<T>)
    requires TotalOrder(le) && heap != {}
    ensures exists least :: IsLeast(le, least, heap)
  {
    var x :| x in heap;
    if heap == {x} {
      assert IsLeast(le, x, heap);
    } else {
      var rest := heap - {x};
      LeastExists(le, rest);
      var y :| IsLeast(le, y, rest);
      assert heap == rest + {x};
      assert IsLeast(le, if le(x, y) then x else y, heap);
    }
  }

  method Pop<T(==,!new)>(le: (T, T) -> bool, heap: set<T>) returns (least: T, rest: set<T>)
    requires TotalOrder(le) && heap != {}
    ensures IsLeast(le, least, heap) && rest == heap - {least}
  {
    LeastExists(le, heap);
    least :| least in heap && forall x :: x in heap ==> le(least, x);
    rest := heap - {least};
  }
}

/** Lists without repetition, such as a walk over a set in some order. */
module Enumeration {

  predicate Distinct<T(==)>(list: seq<T>) {
    forall i, j :: 0 <= i < j < |list| ==> list[i] != list[j]
  }

  function ToSet<T(==)>(list: seq<T>): set<T> {
    set x | x in list
  }

  /** The list holds the elements of the set, each once. */
  predicate Lists<T(==)>(list: seq<T>, all: set<T>) {
    (forall x <- list :: x in all) && (forall x <- all :: x in list) && Distinct(list)
  }

  lemma ListsSnoc<T>(list: seq<T>, all: set<T>, x: T)
    requires Lists(list, all) && x !in all
    ensures Lists(list + [x], all + {x})
  {
  }

  lemma {:induction false} ListsSize<T>(list: seq<T>, all: set<T>)
    requires Lists(list, all)
    ensures |list| == |all| && ToSet(list) == all
    decreases |list|
  {
    if list == [] {
      assert all == {};
    } else {
      var n := |list| - 1;
      assert list == list[..n] + [list[n]];
      ListsSize(list[..n], all - {list[n]});
    }
  }

  lemma ListsFirst<T>(list: seq<T>, all: set<T>)
    requires Lists(list, all) && list != []
    ensures list[0] in all
  {
  }

  lemma ListsNothing<T>(list: seq<T>, all: set<T>)
    requires Lists(list, all) && all == {}
    ensures list == []
  {
    if list != [] {
      ListsFirst(list, all);
    }
  }
}

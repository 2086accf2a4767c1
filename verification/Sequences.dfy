/** Selecting from sequences, as the loops with an `if … continue` of the repository do. */
module Sequences {
  import opened Wrappers

  lemma Associates<T>(a: seq<T>, b: seq<T>, c: seq<T>)
    ensures a + (b + c) == (a + b) + c
  {
  }

  /** The elements to keep, in their order. */
  function Filter<T>(items: seq<T>, keep: T -> bool): seq<T> {
    if items == [] then []
    else
      var front, last := Filter(items[..|items| - 1], keep), items[|items| - 1];
      if keep(last) then front + [last] else front
  }

  lemma {:induction false} FilterHas<T>(items: seq<T>, keep: T -> bool, x: T)
    ensures x in Filter(items, keep) <==> x in items && keep(x)
  {
    if items != [] {
      FilterHas(items[..|items| - 1], keep, x);
      assert items == items[..|items| - 1] + [items[|items| - 1]];
    }
  }

  lemma FilterAppend<T>(items: seq<T>, x: T, keep: T -> bool)
    ensures Filter(items + [x], keep) == if keep(x) then Filter(items, keep) + [x] else Filter(items, keep)
  {
    assert (items + [x])[..|items|] == items;
  }

  lemma {:induction false} FilterAll<T>(items: seq<T>, keep: T -> bool)
    requires forall x :: x in items ==> keep(x)
    ensures Filter(items, keep) == items
  {
    if items != [] {
      FilterAll(items[..|items| - 1], keep);
      assert items == items[..|items| - 1] + [items[|items| - 1]];
    }
  }

  lemma {:induction false} FilterNone<T>(items: seq<T>, keep: T -> bool)
    requires forall x :: x in items ==> !keep(x)
    ensures Filter(items, keep) == []
  {
    if items != [] {
      FilterNone(items[..|items| - 1], keep);
      assert items == items[..|items| - 1] + [items[|items| - 1]];
    }
  }

  /** Filtering twice keeps what both filters keep. */
  lemma {:induction false} FilterTwice<T>(items: seq<T>, keep: T -> bool, also: T -> bool, both: T -> bool)
    requires forall x :: x in items ==> (both(x) <==> keep(x) && also(x))
    ensures Filter(Filter(items, keep), also) == Filter(items, both)
  {
    if items != [] {
      var front, last := items[..|items| - 1], items[|items| - 1];
      assert items == front + [last];
      FilterTwice(front, keep, also, both);
      if keep(last) { FilterAppend(Filter(front, keep), last, also); }
    }
  }

  /** What can be made of the elements, in their order. */
  function Picked<A, B>(items: seq<A>, pick: A -> Option<B>): seq<B> {
    if items == [] then []
    else
      var front, last := Picked(items[..|items| - 1], pick), pick(items[|items| - 1]);
      if last.Some? then front + [last.value] else front
  }

  lemma {:induction false} PickedHas<A, B>(items: seq<A>, pick: A -> Option<B>, b: B)
    ensures b in Picked(items, pick) <==> exists a :: a in items && pick(a) == Some(b)
  {
    if items != [] {
      PickedHas(items[..|items| - 1], pick, b);
      assert items == items[..|items| - 1] + [items[|items| - 1]];
    }
  }

  lemma {:induction false} PickedNothing<A, B>(items: seq<A>, pick: A -> Option<B>)
    requires forall a :: a in items ==> pick(a).None?
    ensures Picked(items, pick) == []
  {
    if items != [] { PickedNothing(items[..|items| - 1], pick); }
  }

  lemma PickedAppend<A, B>(items: seq<A>, x: A, pick: A -> Option<B>)
    ensures Picked(items + [x], pick) == Picked(items, pick) + if pick(x).Some? then [pick(x).value] else []
  {
    assert (items + [x])[..|items|] == items;
  }
}

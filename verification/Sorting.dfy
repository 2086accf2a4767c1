/** What sort.Slice gives when no two elements tie: the one ascending arrangement. */
module Sorting {

  ghost predicate StrictOrder<T(!new)>(less: (T, T) -> bool) {
    && (forall x :: !less(x, x))
    && (forall x, y, z :: less(x, y) && less(y, z) ==> less(x, z))
  }

  ghost predicate Ascending<T>(s: seq<T>, less: (T, T) -> bool) {
    forall i, j :: 0 <= i < j < |s| ==> less(s[i], s[j])
  }

  ghost predicate NoTies<T>(s: seq<T>, less: (T, T) -> bool) {
    forall i, j :: 0 <= i < j < |s| ==> less(s[i], s[j]) || less(s[j], s[i])
  }

  function Insert<T>(x: T, s: seq<T>, less: (T, T) -> bool): (r: seq<T>)
    ensures multiset(r) == multiset(s) + multiset{x}
  {
    if s == [] || less(x, s[0]) then [x] + s
    else
      assert s == [s[0]] + s[1..];
      [s[0]] + Insert(x, s[1..], less)
  }

  function Sort<T>(s: seq<T>, less: (T, T) -> bool): (r: seq<T>)
    ensures multiset(r) == multiset(s)
  {
    if s == [] then []
    else
      assert s == [s[0]] + s[1..];
      Insert(s[0], Sort(s[1..], less), less)
  }

  lemma SameElements<T>(s: seq<T>, t: seq<T>)
    requires multiset(s) == multiset(t)
    ensures |s| == |t|
    ensures forall x :: x in s <==> x in t
  {
    assert |s| == |multiset(s)| && |t| == |multiset(t)|;
    assert forall x :: x in s <==> x in multiset(s);
    assert forall x :: x in t <==> x in multiset(t);
  }

  lemma {:induction false} InsertAscending<T(!new)>(x: T, s: seq<T>, less: (T, T) -> bool)
    requires StrictOrder(less) && Ascending(s, less)
    requires forall i :: 0 <= i < |s| ==> less(x, s[i]) || less(s[i], x)
    ensures Ascending(Insert(x, s, less), less)
  {
    if s != [] && !less(x, s[0]) {
      var rest := Insert(x, s[1..], less);
      InsertAscending(x, s[1..], less);
      forall i | 0 <= i < |rest| ensures less(s[0], rest[i]) {
        assert rest[i] in multiset(s[1..]) + multiset{x};
      }
    }
  }

  /** Sorting elements that never tie gives an ascending arrangement of them. */
  lemma {:induction false} SortAscending<T(!new)>(s: seq<T>, less: (T, T) -> bool)
    requires StrictOrder(less) && NoTies(s, less)
    ensures Ascending(Sort(s, less), less)
  {
    if s != [] {
      var rest := Sort(s[1..], less);
      SortAscending(s[1..], less);
      SameElements(rest, s[1..]);
      forall i | 0 <= i < |rest| ensures less(s[0], rest[i]) || less(rest[i], s[0]) {
        assert rest[i] in s[1..];
        var j :| 0 <= j < |s[1..]| && s[1..][j] == rest[i];
        assert s[1..][j] == s[j + 1];
      }
      InsertAscending(s[0], rest, less);
    }
  }

  lemma FirstIsLeast<T(!new)>(s: seq<T>, t: seq<T>, less: (T, T) -> bool)
    requires StrictOrder(less) && Ascending(s, less) && Ascending(t, less)
    requires s != [] && t != [] && s[0] in t && t[0] in s
    ensures s[0] == t[0]
  {
    assert forall i :: 0 < i < |t| ==> less(t[0], t[i]);
    assert forall j :: 0 < j < |s| ==> less(s[0], s[j]);
  }

  lemma RestOf<T>(s: seq<T>)
    requires s != []
    ensures s == [s[0]] + s[1..] && multiset(s[1..]) == multiset(s) - multiset{s[0]}
  {
    assert s == [s[0]] + s[1..];
  }

  /** There is only one ascending arrangement, so the order of arrival leaves no trace. */
  lemma {:induction false} AscendingUnique<T(!new)>(s: seq<T>, t: seq<T>, less: (T, T) -> bool)
    requires StrictOrder(less) && Ascending(s, less) && Ascending(t, less)
    requires multiset(s) == multiset(t)
    ensures s == t
  {
    SameElements(s, t);
    if s != [] {
      FirstIsLeast(s, t, less);
      RestOf(s);
      RestOf(t);
      AscendingUnique(s[1..], t[1..], less);
    }
  }

  /** Ascending input comes back unchanged. */
  lemma SortOfAscending<T(!new)>(s: seq<T>, less: (T, T) -> bool)
    requires StrictOrder(less) && Ascending(s, less)
    ensures Sort(s, less) == s
  {
    SortAscending(s, less);
    AscendingUnique(Sort(s, less), s, less);
  }

  /** An ascending arrangement is determined by which elements occur in it. */
  lemma {:induction false} AscendingDetermined<T(!new)>(s: seq<T>, t: seq<T>, less: (T, T) -> bool)
    requires StrictOrder(less) && Ascending(s, less) && Ascending(t, less)
    requires forall x :: x in s <==> x in t
    ensures s == t
  {
    EmptyHasNone(s);
    EmptyHasNone(t);
    if s != [] {
      assert s[0] in s && t[0] in t;
      FirstIsLeast(s, t, less);
      assert s == [s[0]] + s[1..] && t == [t[0]] + t[1..];
      forall x ensures x in s[1..] <==> x in t[1..] {
        HeadNotInTail(s, less);
        HeadNotInTail(t, less);
        assert x in s <==> x == s[0] || x in s[1..];
        assert x in t <==> x == t[0] || x in t[1..];
      }
      AscendingDetermined(s[1..], t[1..], less);
    }
  }

  lemma EmptyHasNone<T(!new)>(s: seq<T>)
    ensures s == [] <==> forall x :: x !in s
  {
    if s != [] { assert s[0] in s; }
  }

  lemma HeadNotInTail<T(!new)>(s: seq<T>, less: (T, T) -> bool)
    requires StrictOrder(less) && Ascending(s, less) && s != []
    ensures s[0] !in s[1..]
  {
    forall i | 0 <= i < |s[1..]| ensures s[1..][i] != s[0] {
      assert s[1..][i] == s[i + 1];
    }
  }

  /** A list without repetitions is as long as the set of its elements is large. */
  lemma {:induction false} SizeOfListing<T>(items: seq<T>, s: set<T>)
    requires forall i, j :: 0 <= i < j < |items| ==> items[i] != items[j]
    requires forall x :: x in items <==> x in s
    ensures |items| == |s|
  {
    if items == [] {
      assert s == {};
    } else {
      var front, last := items[..|items| - 1], items[|items| - 1];
      assert items == front + [last];
      SizeOfListing(front, s - {last});
      assert last in s;
    }
  }

  /** The elements of a set in some order, as ranging over a map gives its keys. */
  method InSomeOrder<T(==)>(s: set<T>) returns (items: seq<T>)
    ensures forall x :: x in items <==> x in s
    ensures forall i, j :: 0 <= i < j < |items| ==> items[i] != items[j]
  {
    items := [];
    var todo := s;
    while todo != {}
      invariant todo <= s
      invariant forall x :: x in items <==> x in s && x !in todo
      invariant forall i, j :: 0 <= i < j < |items| ==> items[i] != items[j]
      decreases todo
    {
      var x :| x in todo;
      items := items + [x];
      todo := todo - {x};
    }
  }
}

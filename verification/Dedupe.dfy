/** Keeping the first element of every key, as the seen-map loops of the repository do. */
module Dedupe {

  function KeysOf<T, K>(items: seq<T>, keyOf: T -> K): set<K> {
    set i | 0 <= i < |items| :: keyOf(items[i])
  }

  /** The elements whose key was neither seen before nor carried by an earlier element. */
  function Fresh<T, K(==)>(seen: set<K>, items: seq<T>, keyOf: T -> K): seq<T> {
    if items == [] then []
    else
      var front, last := Fresh(seen, items[..|items| - 1], keyOf), items[|items| - 1];
      if keyOf(last) in seen + KeysOf(front, keyOf) then front else front + [last]
  }

  ghost predicate DistinctKeys<T, K>(items: seq<T>, keyOf: T -> K) {
    forall i, j :: 0 <= i < j < |items| ==> keyOf(items[i]) != keyOf(items[j])
  }

  lemma KeysConcat<T, K>(a: seq<T>, b: seq<T>, keyOf: T -> K)
    ensures KeysOf(a + b, keyOf) == KeysOf(a, keyOf) + KeysOf(b, keyOf)
  {
    var s := a + b;
    forall k | k in KeysOf(a, keyOf) ensures k in KeysOf(s, keyOf) {
      var i :| 0 <= i < |a| && keyOf(a[i]) == k;
      assert s[i] == a[i];
    }
    forall k | k in KeysOf(b, keyOf) ensures k in KeysOf(s, keyOf) {
      var i :| 0 <= i < |b| && keyOf(b[i]) == k;
      assert s[|a| + i] == b[i];
    }
    forall k | k in KeysOf(s, keyOf) ensures k in KeysOf(a, keyOf) + KeysOf(b, keyOf) {
      var i :| 0 <= i < |s| && keyOf(s[i]) == k;
      assert s[i] == if i < |a| then a[i] else b[i - |a|];
    }
  }

  lemma KeysAppend<T, K>(items: seq<T>, x: T, keyOf: T -> K)
    ensures KeysOf(items + [x], keyOf) == KeysOf(items, keyOf) + {keyOf(x)}
  {
    KeysConcat(items, [x], keyOf);
    var one := [x];
    assert one[0] == x;
    assert keyOf(one[0]) in KeysOf(one, keyOf);
    assert KeysOf(one, keyOf) == {keyOf(x)};
  }

  lemma FreshAppend<T, K>(seen: set<K>, items: seq<T>, x: T, keyOf: T -> K)
    ensures Fresh(seen, items + [x], keyOf)
         == if keyOf(x) in seen + KeysOf(Fresh(seen, items, keyOf), keyOf) then Fresh(seen, items, keyOf)
            else Fresh(seen, items, keyOf) + [x]
  {
    assert (items + [x])[..|items|] == items;
  }

  /** The result has every unseen key exactly once, and nothing else. */
  lemma {:induction false} FreshKeys<T, K>(seen: set<K>, items: seq<T>, keyOf: T -> K)
    ensures KeysOf(Fresh(seen, items, keyOf), keyOf) == KeysOf(items, keyOf) - seen
    ensures DistinctKeys(Fresh(seen, items, keyOf), keyOf)
    ensures forall x :: x in Fresh(seen, items, keyOf) ==> x in items
  {
    if items == [] {
    } else {
      var front, last := items[..|items| - 1], items[|items| - 1];
      FreshKeys(seen, front, keyOf);
      assert items == front + [last];
      KeysAppend(front, last, keyOf);
      KeysAppend(Fresh(seen, front, keyOf), last, keyOf);
      assert forall i :: 0 <= i < |Fresh(seen, front, keyOf)| ==>
               keyOf(Fresh(seen, front, keyOf)[i]) in KeysOf(Fresh(seen, front, keyOf), keyOf);
    }
  }

  /** Each kept element is the first with its key. */
  lemma {:induction false} FreshIsFirst<T, K>(seen: set<K>, items: seq<T>, keyOf: T -> K, x: T)
    requires x in Fresh(seen, items, keyOf)
    ensures exists i :: 0 <= i < |items| && items[i] == x && forall j :: 0 <= j < i ==> keyOf(items[j]) != keyOf(x)
  {
    var front, last := items[..|items| - 1], items[|items| - 1];
    if x in Fresh(seen, front, keyOf) {
      FreshIsFirst(seen, front, keyOf, x);
      var i :| 0 <= i < |front| && front[i] == x && forall j :: 0 <= j < i ==> keyOf(front[j]) != keyOf(x);
      assert items[i] == x && forall j :: 0 <= j < i ==> items[j] == front[j];
    } else {
      FreshKeys(seen, front, keyOf);
      assert items[|items| - 1] == x;
      forall j | 0 <= j < |items| - 1 ensures keyOf(items[j]) != keyOf(x) {
        assert items[j] == front[j];
        assert keyOf(front[j]) in KeysOf(front, keyOf);
      }
    }
  }

  /** Elements with seen keys add nothing. */
  lemma {:induction false} FreshNothing<T, K>(seen: set<K>, items: seq<T>, keyOf: T -> K)
    requires KeysOf(items, keyOf) <= seen
    ensures Fresh(seen, items, keyOf) == []
  {
    if items != [] {
      var front, last := items[..|items| - 1], items[|items| - 1];
      assert items == front + [last];
      KeysAppend(front, last, keyOf);
      FreshNothing(seen, front, keyOf);
    }
  }

  /** A list without repeated keys is kept whole. */
  lemma {:induction false} FreshKeepsDistinct<T, K>(items: seq<T>, keyOf: T -> K)
    requires DistinctKeys(items, keyOf)
    ensures Fresh({}, items, keyOf) == items
  {
    if items != [] {
      var front, last := items[..|items| - 1], items[|items| - 1];
      FreshKeepsDistinct(front, keyOf);
      assert forall i :: 0 <= i < |front| ==> front[i] == items[i];
      assert keyOf(last) !in KeysOf(front, keyOf);
      assert items == front + [last];
    }
  }

  /** The seen-map loop. */
  method Collect<T, K(==)>(seen: set<K>, items: seq<T>, keyOf: T -> K) returns (out: seq<T>)
    ensures out == Fresh(seen, items, keyOf)
  {
    out := [];
    var known := seen;
    for i := 0 to |items|
      invariant out == Fresh(seen, items[..i], keyOf)
      invariant known == seen + KeysOf(out, keyOf)
    {
      var x := items[i];
      assert items[..i + 1] == items[..i] + [x];
      FreshAppend(seen, items[..i], x, keyOf);
      if keyOf(x) in known {
        continue;
      }
      KeysAppend(out, x, keyOf);
      known := known + {keyOf(x)};
      out := out + [x];
    }
    assert items[..|items|] == items;
  }
}

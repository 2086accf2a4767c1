/** Sums over sequences and over finite maps; neither depends on an order of the elements. */
module Sums {

  function Sum<T>(s: seq<T>, f: T -> int): int {
    if s == [] then 0 else Sum(s[..|s| - 1], f) + f(s[|s| - 1])
  }

  lemma SumAppend<T>(s: seq<T>, x: T, f: T -> int)
    ensures Sum(s + [x], f) == Sum(s, f) + f(x)
  {
    assert (s + [x])[..|s|] == s;
  }

  lemma {:induction false} SumConcat<T>(s: seq<T>, t: seq<T>, f: T -> int)
    ensures Sum(s + t, f) == Sum(s, f) + Sum(t, f)
  {
    if t == [] {
      assert s + t == s;
    } else {
      SumConcat(s, t[..|t| - 1], f);
      assert (s + t)[..|s + t| - 1] == s + t[..|t| - 1];
    }
  }

  lemma {:induction false} SumPlus<T>(s: seq<T>, f: T -> int, g: T -> int, h: T -> int)
    requires forall x :: x in s ==> h(x) == f(x) + g(x)
    ensures Sum(s, h) == Sum(s, f) + Sum(s, g)
  {
    if s != [] { SumPlus(s[..|s| - 1], f, g, h); }
  }

  lemma {:induction false} SumSame<T>(s: seq<T>, f: T -> int, g: T -> int)
    requires forall x :: x in s ==> f(x) == g(x)
    ensures Sum(s, f) == Sum(s, g)
  {
    if s != [] { SumSame(s[..|s| - 1], f, g); }
  }

  lemma {:induction false} SumAtMost<T>(s: seq<T>, f: T -> int, g: T -> int)
    requires forall x :: x in s ==> f(x) <= g(x)
    ensures Sum(s, f) <= Sum(s, g)
  {
    if s != [] { SumAtMost(s[..|s| - 1], f, g); }
  }

  lemma SumOfParts<T>(a: seq<T>, x: T, b: seq<T>, f: T -> int)
    ensures Sum((a + [x]) + b, f) == Sum(a + b, f) + f(x)
  {
    SumConcat(a + [x], b, f);
    SumAppend(a, x, f);
    SumConcat(a, b, f);
  }

  lemma TakenApart<T>(s: seq<T>, i: nat)
    requires i < |s|
    ensures s == (s[..i] + [s[i]]) + s[i + 1..]
  {
  }

  /** Taking the element at position i out of the sum. */
  lemma SumWithout<T>(s: seq<T>, i: nat, f: T -> int)
    requires i < |s|
    ensures Sum(s, f) == Sum(s[..i] + s[i + 1..], f) + f(s[i])
  {
    TakenApart(s, i);
    SumOfParts(s[..i], s[i], s[i + 1..], f);
  }

  lemma ElementsWithout<T>(s: seq<T>, i: nat)
    requires i < |s|
    ensures multiset(s[..i] + s[i + 1..]) == multiset(s) - multiset{s[i]}
  {
    assert s == s[..i] + ([s[i]] + s[i + 1..]);
  }

  /** Only the multiset of the elements matters. */
  lemma {:induction false} SumPermutes<T>(s: seq<T>, t: seq<T>, f: T -> int)
    requires multiset(s) == multiset(t)
    ensures Sum(s, f) == Sum(t, f)
    decreases |s|
  {
    if s == [] {
      assert |t| == |multiset(t)|;
    } else {
      var front, x := s[..|s| - 1], s[|s| - 1];
      assert s == front + [x];
      assert x in multiset(t);
      var i :| 0 <= i < |t| && t[i] == x;
      var rest := t[..i] + t[i + 1..];
      ElementsWithout(t, i);
      ElementsWithout(s, |s| - 1);
      assert s[..|s| - 1] + s[|s|..] == front;
      SumPermutes(front, rest, f);
      SumWithout(t, i, f);
    }
  }

  ghost function Total<K>(m: map<K, int>): int
    decreases |m|
  {
    if m == map[] then 0
    else
      var k :| k in m;
      m[k] + Total(m - {k})
  }

  lemma {:induction false} TotalWithout<K>(m: map<K, int>, k: K)
    requires k in m
    ensures Total(m) == m[k] + Total(m - {k})
    decreases |m|
  {
    var c :| c in m && Total(m) == m[c] + Total(m - {c});
    if c != k {
      TotalWithout(m - {c}, k);
      TotalWithout(m - {k}, c);
      assert (m - {c}) - {k} == (m - {k}) - {c};
    }
  }

  /** Writing one key changes the total by the difference at that key. */
  lemma TotalUpdate<K>(m: map<K, int>, k: K, v: int)
    ensures Total(m[k := v]) == Total(m) - (if k in m then m[k] else 0) + v
  {
    TotalWithout(m[k := v], k);
    assert m[k := v] - {k} == m - {k};
    if k in m { TotalWithout(m, k); } else { assert m - {k} == m; }
  }

  ghost predicate Swaps<V>(plus: (V, V) -> V, a: V, b: V, c: V) {
    plus(a, plus(b, c)) == plus(b, plus(a, c))
  }

  /** All that is asked of an addition: the order of two summands does not matter. */
  ghost predicate Addition<V(!new)>(plus: (V, V) -> V) {
    forall a, b, c :: Swaps(plus, a, b, c)
  }

  /** The values of a map added up in some order. */
  ghost function Fold<K, V>(m: map<K, V>, plus: (V, V) -> V, zero: V): V
    decreases |m|
  {
    if m == map[] then zero
    else
      var k :| k in m;
      plus(m[k], Fold(m - {k}, plus, zero))
  }

  /** Any key may be taken first. */
  lemma {:induction false} FoldPick<K, V(!new)>(m: map<K, V>, k: K, plus: (V, V) -> V, zero: V)
    requires k in m && Addition(plus)
    ensures Fold(m, plus, zero) == plus(m[k], Fold(m - {k}, plus, zero))
    decreases |m|
  {
    var c :| c in m && Fold(m, plus, zero) == plus(m[c], Fold(m - {c}, plus, zero));
    if c != k {
      var rest := m - {c, k};
      FoldPick(m - {c}, k, plus, zero);
      assert (m - {c}) - {k} == rest;
      FoldPick(m - {k}, c, plus, zero);
      assert (m - {k}) - {c} == rest;
      assert Swaps(plus, m[c], m[k], Fold(rest, plus, zero));
    }
  }

  lemma FoldInsert<K, V(!new)>(m: map<K, V>, k: K, v: V, plus: (V, V) -> V, zero: V)
    requires k !in m && Addition(plus)
    ensures Fold(m[k := v], plus, zero) == plus(v, Fold(m, plus, zero))
  {
    FoldPick(m[k := v], k, plus, zero);
    assert m[k := v] - {k} == m;
  }

  /** A linear scan of the map in a given order. */
  function Scan<K, V>(m: map<K, V>, order: seq<K>, plus: (V, V) -> V, zero: V): V
    requires forall k :: k in order ==> k in m
  {
    if order == [] then zero else plus(m[order[0]], Scan(m, order[1..], plus, zero))
  }

  /** Every order of scanning gives the same sum. */
  lemma {:induction false} ScanAnyOrder<K, V(!new)>(m: map<K, V>, order: seq<K>, plus: (V, V) -> V, zero: V)
    requires Addition(plus)
    requires forall k :: k in order <==> k in m
    requires forall i, j :: 0 <= i < j < |order| ==> order[i] != order[j]
    ensures Scan(m, order, plus, zero) == Fold(m, plus, zero)
  {
    if order == [] {
      assert m.Keys == {};
    } else {
      var k, rest := order[0], order[1..];
      assert order == [k] + rest;
      assert k in m;
      assert k !in rest;
      FoldPick(m, k, plus, zero);
      ScanAnyOrder(m - {k}, rest, plus, zero);
      ScanIgnores(m, k, rest, plus, zero);
    }
  }

  lemma {:induction false} ScanIgnores<K, V>(m: map<K, V>, k: K, order: seq<K>, plus: (V, V) -> V, zero: V)
    requires k !in order && forall j :: j in order ==> j in m
    ensures Scan(m - {k}, order, plus, zero) == Scan(m, order, plus, zero)
  {
    if order != [] { ScanIgnores(m, k, order[1..], plus, zero); }
  }

  /** Adding up over a listing of the keys of a map adds up over the map. */
  lemma {:induction false} SumIsTotal<T, K>(s: seq<T>, keyOf: T -> K, m: map<K, int>, f: T -> int)
    requires forall i, j :: 0 <= i < j < |s| ==> keyOf(s[i]) != keyOf(s[j])
    requires forall i :: 0 <= i < |s| ==> keyOf(s[i]) in m && m[keyOf(s[i])] == f(s[i])
    requires forall k :: k in m ==> exists i :: 0 <= i < |s| && keyOf(s[i]) == k
    ensures Sum(s, f) == Total(m)
  {
    if s == [] {
      assert m.Keys == {};
    } else {
      var front, x := s[..|s| - 1], s[|s| - 1];
      var rest := m - {keyOf(x)};
      assert keyOf(x) in m;
      TotalWithout(m, keyOf(x));
      forall k | k in rest ensures exists i :: 0 <= i < |front| && keyOf(front[i]) == k {
        var i :| 0 <= i < |s| && keyOf(s[i]) == k;
        assert front[i] == s[i];
      }
      assert forall i :: 0 <= i < |front| ==> front[i] == s[i];
      SumIsTotal(front, keyOf, rest, f);
    }
  }

  function Map<A, B>(s: seq<A>, f: A -> B): (r: seq<B>)
    ensures |r| == |s|
  {
    seq(|s|, i requires 0 <= i < |s| => f(s[i]))
  }

  lemma MapAppend<A, B>(s: seq<A>, x: A, f: A -> B)
    ensures Map(s + [x], f) == Map(s, f) + [f(x)]
  {
  }

  lemma {:induction false} SumOfMap<A, B>(s: seq<A>, f: A -> B, g: B -> int, h: A -> int)
    requires forall x :: x in s ==> h(x) == g(f(x))
    ensures Sum(Map(s, f), g) == Sum(s, h)
  {
    if s != [] {
      var front, last := s[..|s| - 1], s[|s| - 1];
      assert s == front + [last];
      MapAppend(front, last, f);
      SumAppend(Map(front, f), f(last), g);
      SumOfMap(front, f, g, h);
    }
  }

  /** A loop that maps each element. */
  method MapAll<A, B>(s: seq<A>, f: A -> B) returns (r: seq<B>)
    ensures r == Map(s, f)
  {
    r := [];
    for i := 0 to |s|
      invariant r == Map(s[..i], f)
    {
      r := r + [f(s[i])];
      assert s[..i + 1][..i] == s[..i];
    }
    assert s[..|s|] == s;
  }

  lemma MapTakeOut<A, B>(s: seq<A>, i: nat, f: A -> B)
    requires i < |s|
    ensures multiset(Map(s, f)) == multiset(Map(s[..i] + s[i + 1..], f)) + multiset{f(s[i])}
  {
    var all := Map(s, f);
    assert Map(s[..i] + s[i + 1..], f) == all[..i] + all[i + 1..];
    ElementsWithout(all, i);
    assert all[i] in multiset(all);
  }

  /** Mapping keeps equal multisets equal. */
  lemma {:induction false} MapPermutes<A, B>(s: seq<A>, t: seq<A>, f: A -> B)
    requires multiset(s) == multiset(t)
    ensures multiset(Map(s, f)) == multiset(Map(t, f))
    decreases |s|
  {
    if s == [] {
      assert |t| == |multiset(t)|;
    } else {
      var front, x := s[..|s| - 1], s[|s| - 1];
      assert s == front + [x];
      assert x in multiset(t);
      var i :| 0 <= i < |t| && t[i] == x;
      var rest := t[..i] + t[i + 1..];
      ElementsWithout(t, i);
      ElementsWithout(s, |s| - 1);
      assert s[..|s| - 1] + s[|s|..] == front;
      MapPermutes(front, rest, f);
      MapTakeOut(t, i, f);
      MapAppend(front, x, f);
    }
  }
}

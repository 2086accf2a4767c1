/** The index of a list of lines by offset. What a line is, how large it is and what the index holds for
    it are parameters: `size` measures a line, `emit` gives the entry of a line at an offset, if any. */
module LineIndex {
  import opened Wrappers

  function SizeOf<L>(size: L -> int, lines: seq<L>): int {
    if lines == [] then 0 else SizeOf(size, lines[..|lines| - 1]) + size(lines[|lines| - 1])
  }

  function Put<X>(entries: seq<X>, entry: Option<X>): seq<X> {
    match entry
    case None => entries
    case Some(x) => entries + [x]
  }

  /** The entries of the lines, the first of which begins at `offset`. */
  function Index<L, X>(size: L -> int, emit: (L, int) -> Option<X>, lines: seq<L>, offset: int): seq<X> {
    if lines == [] then []
    else Put(Index(size, emit, lines[..|lines| - 1], offset),
             emit(lines[|lines| - 1], offset + SizeOf(size, lines[..|lines| - 1])))
  }

  lemma {:induction false} SizeConcat<L>(size: L -> int, a: seq<L>, b: seq<L>)
    ensures SizeOf(size, a + b) == SizeOf(size, a) + SizeOf(size, b)
  {
    if b == [] {
      assert a + b == a;
    } else {
      SizeConcat(size, a, b[..|b| - 1]);
      assert (a + b)[..|a + b| - 1] == a + b[..|b| - 1];
    }
  }

  lemma {:induction false} IndexConcat<L, X>(size: L -> int, emit: (L, int) -> Option<X>, a: seq<L>, b: seq<L>,
                                             offset: int)
    ensures Index(size, emit, a + b, offset)
         == Index(size, emit, a, offset) + Index(size, emit, b, offset + SizeOf(size, a))
  {
    if b == [] {
      assert a + b == a;
    } else {
      var front, last := b[..|b| - 1], b[|b| - 1];
      IndexConcat(size, emit, a, front, offset);
      SizeConcat(size, a, front);
      assert (a + b)[..|a + b| - 1] == a + front;
    }
  }

  /** The entry of line number i. */
  ghost predicate EntryOf<L, X>(size: L -> int, emit: (L, int) -> Option<X>, lines: seq<L>, offset: int, x: X, i: int) {
    0 <= i < |lines| && emit(lines[i], offset + SizeOf(size, lines[..i])) == Some(x)
  }

  lemma EntryInFront<L, X>(size: L -> int, emit: (L, int) -> Option<X>, lines: seq<L>, offset: int, x: X, i: nat)
    requires i < |lines| - 1
    ensures EntryOf(size, emit, lines, offset, x, i) <==> EntryOf(size, emit, lines[..|lines| - 1], offset, x, i)
  {
    assert lines[..|lines| - 1][..i] == lines[..i];
  }

  /** An entry stands in the index exactly when it is that of some line at that line's offset. */
  lemma {:induction false} IndexExactly<L, X>(size: L -> int, emit: (L, int) -> Option<X>, lines: seq<L>, offset: int,
                                              x: X)
    ensures x in Index(size, emit, lines, offset) <==> exists i :: EntryOf(size, emit, lines, offset, x, i)
  {
    if lines != [] {
      var front := lines[..|lines| - 1];
      IndexExactly(size, emit, front, offset, x);
      forall i | 0 <= i < |front|
        ensures EntryOf(size, emit, lines, offset, x, i) <==> EntryOf(size, emit, front, offset, x, i)
      {
        EntryInFront(size, emit, lines, offset, x, i);
      }
      assert EntryOf(size, emit, lines, offset, x, |front|)
        <==> emit(lines[|front|], offset + SizeOf(size, front)) == Some(x);
    }
  }

  ghost predicate Between<X>(entries: seq<X>, offsetOf: X -> int, from: int, to: int) {
    && (forall i :: 0 <= i < |entries| ==> from <= offsetOf(entries[i]) < to)
    && (forall i, j :: 0 <= i < j < |entries| ==> offsetOf(entries[i]) < offsetOf(entries[j]))
  }

  /** Entries carry the offset they were emitted at. */
  ghost predicate Tells<L(!new), X>(emit: (L, int) -> Option<X>, offsetOf: X -> int) {
    forall line, o :: emit(line, o).Some? ==> offsetOf(emit(line, o).value) == o
  }

  /** The entries come in strictly ascending order of their offsets, all within the lines. */
  lemma {:induction false} IndexAscends<L(!new), X>(size: L -> int, emit: (L, int) -> Option<X>, offsetOf: X -> int,
                                                  lines: seq<L>, offset: int)
    requires Tells(emit, offsetOf)
    requires forall i :: 0 <= i < |lines| ==> size(lines[i]) > 0
    ensures Between(Index(size, emit, lines, offset), offsetOf, offset, offset + SizeOf(size, lines))
    ensures SizeOf(size, lines) >= 0
  {
    if lines != [] {
      var front, last := lines[..|lines| - 1], lines[|lines| - 1];
      assert forall i :: 0 <= i < |front| ==> size(front[i]) > 0;
      IndexAscends(size, emit, offsetOf, front, offset);
      assert size(last) > 0;
    }
  }

  ghost predicate Emits<L, X>(emit: (L, int) -> Option<X>, line: L) {
    forall o :: emit(line, o).Some?
  }

  /** Lines that all have an entry: one each. */
  lemma {:induction false} IndexOfAll<L, X>(size: L -> int, emit: (L, int) -> Option<X>, lines: seq<L>, offset: int)
    requires forall i :: 0 <= i < |lines| ==> Emits(emit, lines[i])
    ensures |Index(size, emit, lines, offset)| == |lines|
  {
    if lines != [] {
      var front := lines[..|lines| - 1];
      assert forall i :: 0 <= i < |front| ==> front[i] == lines[i];
      IndexOfAll(size, emit, front, offset);
      assert Emits(emit, lines[|lines| - 1]);
    }
  }

  /** And they come in order. */
  lemma {:induction false} IndexOfAllAt<L, X>(size: L -> int, emit: (L, int) -> Option<X>, lines: seq<L>, offset: int,
                                              i: nat)
    requires forall i :: 0 <= i < |lines| ==> Emits(emit, lines[i])
    requires i < |lines| == |Index(size, emit, lines, offset)|
    ensures EntryOf(size, emit, lines, offset, Index(size, emit, lines, offset)[i], i)
  {
    var front := lines[..|lines| - 1];
    assert forall j :: 0 <= j < |front| ==> front[j] == lines[j];
    IndexOfAll(size, emit, front, offset);
    assert Emits(emit, lines[|lines| - 1]);
    if i < |front| {
      IndexOfAllAt(size, emit, front, offset, i);
      assert front[..i] == lines[..i];
    }
  }
}

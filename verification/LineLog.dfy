/** Indexing a file of lines by byte offset and seeking to the indexed lines, as
    internal/history/reader.go does. What the index holds for a line is a parameter, as in LineIndex. */
module LineLog {
  import opened Wrappers
  import opened Sequences
  import opened LineIndex

  newtype Byte = x: int | 0 <= x < 256
  type Bytes = seq<Byte>

  const NEWLINE: Byte := 10

  // ---------- Lines ----------

  /** The length of what ReadBytes('\n') returns at the front of `rest`: through the first newline, else
      everything. */
  function FirstLine(rest: Bytes): (n: nat)
    ensures n <= |rest| && (rest != [] ==> n > 0)
  {
    if rest == [] then 0 else if rest[0] == NEWLINE then 1 else 1 + FirstLine(rest[1..])
  }

  predicate EndsLine(s: Bytes) {
    s == [] || s[|s| - 1] == NEWLINE
  }

  /** The lines of a file, each with its newline if it has one. */
  function Split(file: Bytes): seq<Bytes> {
    if file == [] then [] else [file[..FirstLine(file)]] + Split(file[FirstLine(file)..])
  }

  function Len(line: Bytes): int {
    |line|
  }

  lemma {:induction false} FirstLineOfLines(p: Bytes, q: Bytes)
    requires p != [] && EndsLine(p)
    ensures FirstLine(p + q) == FirstLine(p)
    ensures EndsLine(p[FirstLine(p)..])
  {
    if p[0] != NEWLINE {
      assert (p + q)[1..] == p[1..] + q;
      FirstLineOfLines(p[1..], q);
    }
  }

  lemma {:induction false} FirstLineThrough(p: Bytes, q: Bytes)
    requires NEWLINE !in p
    ensures FirstLine(p + q) == |p| + FirstLine(q)
  {
    if p == [] {
      assert p + q == q;
    } else {
      assert (p + q)[1..] == p[1..] + q;
      FirstLineThrough(p[1..], q);
    }
  }

  /** A line is free of newlines but for its last byte, which is one unless the file ends. */
  lemma {:induction false} FirstLineIsALine(rest: Bytes)
    requires rest != []
    ensures forall i :: 0 <= i < FirstLine(rest) - 1 ==> rest[i] != NEWLINE
    ensures FirstLine(rest) < |rest| ==> rest[FirstLine(rest) - 1] == NEWLINE
  {
    if rest[0] != NEWLINE && |rest| > 1 {
      FirstLineIsALine(rest[1..]);
      assert forall i :: 1 <= i < |rest| ==> rest[i] == rest[1..][i - 1];
    }
  }

  /** Whole lines followed by anything split separately. */
  lemma {:induction false} SplitConcat(p: Bytes, q: Bytes)
    requires EndsLine(p)
    ensures Split(p + q) == Split(p) + Split(q)
    decreases |p|
  {
    if p == [] {
      assert p + q == q;
    } else {
      FirstLineOfLines(p, q);
      var line, rest := p[..FirstLine(p)], p[FirstLine(p)..];
      assert p == line + rest && p + q == line + (rest + q);
      SplitConcat(rest, q);
      Associates([line], Split(rest), Split(q));
    }
  }

  lemma SplitOneLine(s: Bytes)
    requires NEWLINE !in s
    ensures Split(s + [NEWLINE]) == [s + [NEWLINE]]
  {
    var line := s + [NEWLINE];
    FirstLineThrough(s, [NEWLINE]);
    assert line + [] == line;
  }

  lemma {:induction false} NoEmptyLine(file: Bytes)
    ensures forall i :: 0 <= i < |Split(file)| ==> Len(Split(file)[i]) > 0
    decreases |file|
  {
    if file != [] {
      NoEmptyLine(file[FirstLine(file)..]);
    }
  }

  ghost function Join(lines: seq<Bytes>): Bytes {
    if lines == [] then [] else lines[0] + Join(lines[1..])
  }

  /** Nothing of the file is lost or changed by splitting it. */
  lemma {:induction false} JoinInvertsSplit(file: Bytes)
    ensures Join(Split(file)) == file
    decreases |file|
  {
    if file != [] {
      var n := FirstLine(file);
      JoinInvertsSplit(file[n..]);
      assert file == file[..n] + file[n..];
      assert Split(file)[1..] == Split(file[n..]);
    }
  }

  lemma {:induction false} SizeOfSplit(file: Bytes)
    ensures SizeOf(Len, Split(file)) == |file|
    decreases |file|
  {
    if file != [] {
      var n := FirstLine(file);
      SizeOfSplit(file[n..]);
      SizeConcat(Len, [file[..n]], Split(file[n..]));
    }
  }

  // ---------- The index of a file ----------

  /** What is read after seeking to an offset. */
  function LineAt(file: Bytes, offset: int): Bytes {
    if 0 <= offset <= |file| then file[offset..][..FirstLine(file[offset..])] else []
  }

  /** indexSegmentFile, for a file that can be read; `corrupt` says of a line whether it counts as such. */
  method IndexSegmentFile<X>(file: Bytes, emit: (Bytes, int) -> Option<X>, corrupt: Bytes -> int)
    returns (refs: seq<X>, corruptCount: int)
    ensures refs == Index(Len, emit, Split(file), 0)
    ensures corruptCount == SizeOf(corrupt, Split(file))
  {
    refs, corruptCount := [], 0;
    var offset := 0;
    var eof := false;
    ghost var done: seq<Bytes> := [];
    assert file[0..] == file && [] + Split(file) == Split(file);
    while !eof
      invariant 0 <= offset <= |file| && (eof ==> offset == |file|)
      invariant Taken(file, offset, done) && offset == SizeOf(Len, done)
      invariant refs == Index(Len, emit, done, 0) && corruptCount == SizeOf(corrupt, done)
      decreases |file| - offset, !eof
    {
      var line := LineAt(file, offset);
      eof := |line| == 0 || line[|line| - 1] != NEWLINE;
      if |line| > 0 {
        TakeLine(file, offset, done, line);
        refs := Put(refs, emit(line, offset));
        corruptCount := corruptCount + corrupt(line);
        done := done + [line];
        offset := offset + |line|;
      }
    }
    AllTaken(file, done);
  }

  /** `done` are the lines of the file in front of `offset`. */
  ghost predicate Taken(file: Bytes, offset: int, done: seq<Bytes>) {
    0 <= offset <= |file| && done + Split(file[offset..]) == Split(file)
  }

  lemma AllTaken(file: Bytes, done: seq<Bytes>)
    requires Taken(file, |file|, done)
    ensures done == Split(file)
  {
    assert file[|file|..] == [] && done + [] == done;
  }

  lemma TakeLine(file: Bytes, offset: int, done: seq<Bytes>, line: Bytes)
    requires Taken(file, offset, done) && line == LineAt(file, offset) && line != []
    ensures Taken(file, offset + |line|, done + [line])
    ensures line[|line| - 1] != NEWLINE ==> offset + |line| == |file|
  {
    var rest := file[offset..];
    assert rest[|line|..] == file[offset + |line|..];
    FirstLineIsALine(rest);
    var lines := Split(rest[|line|..]);
    assert Split(rest) == [line] + lines;
    Associates(done, [line], lines);
  }

  // ---------- Reading back ----------

  predicate LineStart(file: Bytes, offset: int) {
    0 <= offset < |file| && (offset == 0 || file[offset - 1] == NEWLINE)
  }

  /** Line number i starts at the summed size of the lines before it, and is what is read there. */
  lemma {:induction false} LineFound(file: Bytes, i: nat)
    requires i < |Split(file)|
    ensures LineStart(file, SizeOf(Len, Split(file)[..i]))
    ensures LineAt(file, SizeOf(Len, Split(file)[..i])) == Split(file)[i]
    decreases |file|
  {
    var n := FirstLine(file);
    var first, rest := file[..n], file[n..];
    if i == 0 {
      assert Split(file)[..0] == [] && file[0..] == file;
    } else {
      BehindFirst(file, i);
      LineFound(rest, i - 1);
      var o := SizeOf(Len, Split(rest)[..i - 1]);
      StartInSuffix(file, n, o);
    }
  }

  lemma BehindFirst(file: Bytes, i: nat)
    requires file != [] && 0 < i <= |Split(file)|
    ensures var lines := Split(file[FirstLine(file)..]);
            && 0 < i <= |lines| + 1 && (i <= |lines| ==> Split(file)[i] == lines[i - 1])
            && SizeOf(Len, Split(file)[..i]) == FirstLine(file) + SizeOf(Len, lines[..i - 1])
  {
    var first, lines := file[..FirstLine(file)], Split(file[FirstLine(file)..]);
    assert ([first] + lines)[..i] == [first] + lines[..i - 1];
    SizeConcat(Len, [first], lines[..i - 1]);
  }

  lemma StartInSuffix(file: Bytes, n: nat, o: nat)
    requires file != [] && n == FirstLine(file) && LineStart(file[n..], o)
    ensures LineStart(file, n + o)
  {
    FirstLineIsALine(file);
    assert file[n..][o] == file[n + o];
    assert o > 0 ==> file[n..][o - 1] == file[n + o - 1];
  }

  /** And every line start is that of some line. */
  lemma {:induction false} StartIsFound(file: Bytes, o: int) returns (i: nat)
    requires LineStart(file, o)
    ensures i < |Split(file)| && SizeOf(Len, Split(file)[..i]) == o
    decreases |file|
  {
    var n := FirstLine(file);
    FirstLineIsALine(file);
    if o == 0 {
      i := 0;
    } else {
      assert n <= o;
      i := StartIsFound(file[n..], o - n);
      i := i + 1;
      BehindFirst(file, i);
    }
  }

  /** An entry stands in the index exactly when a line that has it starts at some offset. */
  lemma IndexedExactly<X>(file: Bytes, emit: (Bytes, int) -> Option<X>, x: X)
    ensures x in Index(Len, emit, Split(file), 0)
       <==> exists o :: LineStart(file, o) && emit(LineAt(file, o), o) == Some(x)
  {
    IndexExactly(Len, emit, Split(file), 0, x);
    if i :| EntryOf(Len, emit, Split(file), 0, x, i) {
      LineFound(file, i);
    }
    if o :| LineStart(file, o) && emit(LineAt(file, o), o) == Some(x) {
      var i := StartIsFound(file, o);
      LineFound(file, i);
      assert EntryOf(Len, emit, Split(file), 0, x, i);
    }
  }

  /** When every line has an entry, entry number i belongs to line number i. */
  lemma EntryFound<X>(file: Bytes, emit: (Bytes, int) -> Option<X>, i: nat) returns (offset: int)
    requires forall j :: 0 <= j < |Split(file)| ==> Emits(emit, Split(file)[j])
    requires i < |Split(file)| == |Index(Len, emit, Split(file), 0)|
    ensures LineStart(file, offset) && LineAt(file, offset) == Split(file)[i]
    ensures emit(Split(file)[i], offset) == Some(Index(Len, emit, Split(file), 0)[i])
  {
    IndexOfAllAt(Len, emit, Split(file), 0, i);
    LineFound(file, i);
    offset := 0 + SizeOf(Len, Split(file)[..i]);
  }

  // ---------- Growth ----------

  /** Where the last, unterminated line begins. */
  function TailStart(file: Bytes): (s: nat)
    ensures s <= |file| && EndsLine(file[..s]) && NEWLINE !in file[s..]
    ensures EndsLine(file) <==> s == |file|
  {
    if EndsLine(file) then |file|
    else
      var front := file[..|file| - 1];
      var s := TailStart(front);
      assert file[..s] == front[..s] && file[s..] == front[s..] + [file[|file| - 1]];
      s
  }

  /** What follows a prefix of whole lines adds entries behind those of the prefix and changes none. */
  lemma IndexOfPrefix<X>(p: Bytes, q: Bytes, emit: (Bytes, int) -> Option<X>, corrupt: Bytes -> int)
    requires EndsLine(p)
    ensures Index(Len, emit, Split(p + q), 0) == Index(Len, emit, Split(p), 0) + Index(Len, emit, Split(q), |p|)
    ensures SizeOf(corrupt, Split(p + q)) == SizeOf(corrupt, Split(p)) + SizeOf(corrupt, Split(q))
  {
    SplitConcat(p, q);
    SizeOfSplit(p);
    IndexConcat(Len, emit, Split(p), Split(q), 0);
    SizeConcat(corrupt, Split(p), Split(q));
  }

  lemma EntriesBefore<X>(p: Bytes, q: Bytes, emit: (Bytes, int) -> Option<X>, offsetOf: X -> int, x: X)
    requires EndsLine(p) && Tells(emit, offsetOf)
    ensures x in Index(Len, emit, Split(p), 0) <==> x in Index(Len, emit, Split(p + q), 0) && offsetOf(x) < |p|
  {
    IndexOfPrefix(p, q, emit, Len);
    SizeOfSplit(p);
    NoEmptyLine(p);
    NoEmptyLine(q);
    IndexAscends(Len, emit, offsetOf, Split(p), 0);
    IndexAscends(Len, emit, offsetOf, Split(q), |p|);
  }

  lemma LinesStay(p: Bytes, q: Bytes, o: nat)
    requires EndsLine(p) && o < |p|
    ensures LineAt(p + q, o) == LineAt(p, o)
  {
    assert (p + q)[o..] == p[o..] + q;
    FirstLineOfLines(p[o..], q);
  }

  /** Two files that agree on a prefix of whole lines have the same entries in it, and the same lines are
      read for them: the log may be cut, torn or extended anywhere behind it. */
  lemma SharedLinesSharedEntries<X>(f: Bytes, g: Bytes, n: nat, emit: (Bytes, int) -> Option<X>, offsetOf: X -> int,
                                    x: X)
    requires n <= |f| && n <= |g| && f[..n] == g[..n] && EndsLine(f[..n]) && Tells(emit, offsetOf)
    ensures Index(Len, emit, Split(f[..n]), 0) <= Index(Len, emit, Split(g), 0)
    ensures x in Index(Len, emit, Split(f), 0) && offsetOf(x) < n
       <==> x in Index(Len, emit, Split(g), 0) && offsetOf(x) < n
    ensures x in Index(Len, emit, Split(f), 0) && offsetOf(x) < n ==> LineAt(f, offsetOf(x)) == LineAt(g, offsetOf(x))
  {
    var p := f[..n];
    EntriesBefore(p, f[n..], emit, offsetOf, x);
    EntriesBefore(p, g[n..], emit, offsetOf, x);
    IndexOfPrefix(p, g[n..], emit, Len);
    assert f == p + f[n..] && g == p + g[n..];
    IndexedExactly(f, emit, x);
    if 0 <= offsetOf(x) < n {
      LinesStay(p, f[n..], offsetOf(x));
      LinesStay(p, g[n..], offsetOf(x));
    }
  }

  // ---------- Appending ----------

  /** Payloads as the writer appends them, one line each. */
  function Terminated(payloads: seq<Bytes>): (lines: seq<Bytes>)
    ensures |lines| == |payloads| && forall i :: 0 <= i < |lines| ==> lines[i] == payloads[i] + [NEWLINE]
  {
    if payloads == [] then [] else Terminated(payloads[..|payloads| - 1]) + [payloads[|payloads| - 1] + [NEWLINE]]
  }

  function Appended(payloads: seq<Bytes>): Bytes {
    if payloads == [] then []
    else Appended(payloads[..|payloads| - 1]) + (payloads[|payloads| - 1] + [NEWLINE])
  }

  ghost predicate SingleLines(payloads: seq<Bytes>) {
    forall i :: 0 <= i < |payloads| ==> NEWLINE !in payloads[i]
  }

  lemma {:induction false} SplitAppended(payloads: seq<Bytes>)
    requires SingleLines(payloads)
    ensures EndsLine(Appended(payloads)) && Split(Appended(payloads)) == Terminated(payloads)
  {
    if payloads != [] {
      var front, last := payloads[..|payloads| - 1], payloads[|payloads| - 1];
      SplitAppended(front);
      SplitConcat(Appended(front), last + [NEWLINE]);
      SplitOneLine(last);
    }
  }

  lemma {:induction false} AppendedConcat(a: seq<Bytes>, b: seq<Bytes>)
    ensures Appended(a + b) == Appended(a) + Appended(b)
  {
    if b == [] {
      assert a + b == a;
    } else {
      AppendedConcat(a, b[..|b| - 1]);
      assert (a + b)[..|a + b| - 1] == a + b[..|b| - 1];
      Associates(Appended(a), Appended(b[..|b| - 1]), b[|b| - 1] + [NEWLINE]);
    }
  }

  lemma AppendedOne(payload: Bytes)
    ensures Appended([payload]) == payload + [NEWLINE]
  {
    var one := [payload];
    assert one[..0] == [] && one[0] == payload;
  }

  /** The line that the first payload behind an unterminated tail ends up on. */
  function Glued(tail: Bytes, first: Bytes): Bytes {
    tail + first + [NEWLINE]
  }

  /** Any file is whole lines and a tail without a newline, empty unless the file is torn. */
  lemma FileIsHeadAndTail(file: Bytes, first: Bytes)
    ensures var s := TailStart(file);
            && file == file[..s] + file[s..] && EndsLine(file[..s]) && NEWLINE !in file[s..]
            && file + (first + [NEWLINE]) == file[..s] + Glued(file[s..], first)
  {
  }

  lemma GluedLine<X>(head: Bytes, line: Bytes, emit: (Bytes, int) -> Option<X>, corrupt: Bytes -> int)
    requires EndsLine(head) && Split(line) == [line]
    ensures Index(Len, emit, Split(head + line), 0) == Put(Index(Len, emit, Split(head), 0), emit(line, |head|))
    ensures SizeOf(corrupt, Split(head + line)) == SizeOf(corrupt, Split(head)) + corrupt(line)
  {
    IndexOfPrefix(head, line, emit, corrupt);
  }

  /** Payloads appended behind whole lines and a torn tail: what stood on whole lines is untouched, the
      first payload shares its line with the tail, all others are indexed at their offsets. */
  lemma TornTail<X>(head: Bytes, tail: Bytes, first: Bytes, later: seq<Bytes>,
                    emit: (Bytes, int) -> Option<X>, corrupt: Bytes -> int)
    requires EndsLine(head) && NEWLINE !in tail && NEWLINE !in first && SingleLines(later)
    ensures Index(Len, emit, Split(head + Glued(tail, first) + Appended(later)), 0)
         == Put(Index(Len, emit, Split(head), 0), emit(Glued(tail, first), |head|))
            + Index(Len, emit, Terminated(later), |head + Glued(tail, first)|)
    ensures SizeOf(corrupt, Split(head + Glued(tail, first) + Appended(later)))
         == SizeOf(corrupt, Split(head)) + corrupt(Glued(tail, first)) + SizeOf(corrupt, Terminated(later))
  {
    SplitOneLine(tail + first);
    LinesBehind(head, Glued(tail, first), later, emit, corrupt);
  }

  lemma LinesBehind<X>(head: Bytes, line: Bytes, later: seq<Bytes>, emit: (Bytes, int) -> Option<X>,
                       corrupt: Bytes -> int)
    requires EndsLine(head) && Split(line) == [line] && line != [] && EndsLine(line) && SingleLines(later)
    ensures Index(Len, emit, Split(head + line + Appended(later)), 0)
         == Put(Index(Len, emit, Split(head), 0), emit(line, |head|))
            + Index(Len, emit, Terminated(later), |head + line|)
    ensures SizeOf(corrupt, Split(head + line + Appended(later)))
         == SizeOf(corrupt, Split(head)) + corrupt(line) + SizeOf(corrupt, Terminated(later))
  {
    var whole := head + line;
    assert EndsLine(whole) by {
      assert whole[|whole| - 1] == line[|line| - 1];
    }
    GluedLine(head, line, emit, corrupt);
    WholeTail(whole, later, emit, corrupt);
  }

  /** Behind a file of whole lines nothing is lost. */
  lemma WholeTail<X>(file: Bytes, payloads: seq<Bytes>, emit: (Bytes, int) -> Option<X>, corrupt: Bytes -> int)
    requires EndsLine(file) && SingleLines(payloads)
    ensures Index(Len, emit, Split(file + Appended(payloads)), 0)
         == Index(Len, emit, Split(file), 0) + Index(Len, emit, Terminated(payloads), |file|)
    ensures SizeOf(corrupt, Split(file + Appended(payloads)))
         == SizeOf(corrupt, Split(file)) + SizeOf(corrupt, Terminated(payloads))
  {
    IndexOfPrefix(file, Appended(payloads), emit, corrupt);
    SplitAppended(payloads);
  }

  /** A payload whose line has whole lines before it is read back as that line. */
  lemma PayloadFound(before: Bytes, payload: Bytes, after: Bytes)
    requires NEWLINE !in payload
    ensures LineAt(before + (payload + [NEWLINE]) + after, |before|) == payload + [NEWLINE]
  {
    var whole := before + (payload + [NEWLINE]) + after;
    assert whole[|before|..] == payload + ([NEWLINE] + after);
    FirstLineThrough(payload, [NEWLINE] + after);
  }

  /** After a torn tail at most the next appended payload is lost: each later one is indexed at the offset
      where it was written, and its line is what is read there. */
  lemma TornTailLosesOne<X>(file: Bytes, first: Bytes, later: seq<Bytes>, i: nat, emit: (Bytes, int) -> Option<X>)
    requires NEWLINE !in first && SingleLines(later) && i < |later|
    ensures var offset := |file| + |first| + 1 + |Appended(later[..i])|;
            var whole := file + (first + [NEWLINE]) + Appended(later);
            && LineAt(whole, offset) == later[i] + [NEWLINE]
            && (emit(later[i] + [NEWLINE], offset).Some? ==>
                  emit(later[i] + [NEWLINE], offset).value in Index(Len, emit, Split(whole), 0))
  {
    var base := file + (first + [NEWLINE]);
    var whole := base + Appended(later);
    var before := Appended(later[..i]);
    var offset := |base| + |before|;
    PayloadWithin(base, later, i);
    StartsBehind(base, before, whole, later[..i]);
    var entry := emit(later[i] + [NEWLINE], offset);
    if entry.Some? {
      IndexedExactly(whole, emit, entry.value);
      assert LineStart(whole, offset) && emit(LineAt(whole, offset), offset) == Some(entry.value);
    }
  }

  lemma PayloadWithin(base: Bytes, payloads: seq<Bytes>, i: nat)
    requires i < |payloads| && NEWLINE !in payloads[i]
    ensures base + Appended(payloads[..i]) <= base + Appended(payloads)
    ensures |base + Appended(payloads[..i])| < |base + Appended(payloads)|
    ensures LineAt(base + Appended(payloads), |base| + |Appended(payloads[..i])|) == payloads[i] + [NEWLINE]
  {
    var before, line, after := Appended(payloads[..i]), payloads[i] + [NEWLINE], Appended(payloads[i + 1..]);
    assert payloads == payloads[..i] + ([payloads[i]] + payloads[i + 1..]);
    AppendedConcat(payloads[..i], [payloads[i]] + payloads[i + 1..]);
    AppendedConcat([payloads[i]], payloads[i + 1..]);
    AppendedOne(payloads[i]);
    Associates(base, before, line + after);
    Associates(base + before, line, after);
    PayloadFound(base + before, payloads[i], after);
  }

  lemma StartsBehind(base: Bytes, before: Bytes, whole: Bytes, payloads: seq<Bytes>)
    requires base != [] && EndsLine(base) && before == Appended(payloads)
    requires base + before <= whole && |base + before| < |whole|
    ensures LineStart(whole, |base| + |before|)
  {
    var p := base + before;
    if before != [] {
      assert before[|before| - 1] == NEWLINE;
    }
    assert p[|p| - 1] == NEWLINE;
    assert whole[|p| - 1] == p[|p| - 1];
  }
}

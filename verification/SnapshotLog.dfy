/** The snapshot index: internal/history/reader.go over the lines of LineLog. A segment file is named by
    its day. */
module SnapshotLog {
  import opened Wrappers
  import opened Sorting
  import opened Sums
  import opened Sequences
  import opened LineIndex
  import opened LineLog
  import opened Records

  type Day = int

  datatype SnapshotRef = SnapshotRef(
    day: Day, offset: int, capturedAt: int, incomingCount: nat, outgoingCount: nat, totalCount: nat, connCount: nat)

  function RefOf(day: Day, offset: int, r: SnapshotRecord): SnapshotRef {
    var incoming, outgoing := |Elements(r.incoming)|, |Elements(r.outgoing)|;
    SnapshotRef(day, offset, r.capturedAt, incoming, outgoing, incoming + outgoing, incoming + outgoing)
  }

  function OffsetOf(r: SnapshotRef): int {
    r.offset
  }

  // ---------- What a line holds ----------

  datatype Kind = Blank | Corrupt(error: DecodeError) | Good(record: SnapshotRecord)

  function Classify(codec: Codec, line: Bytes): Kind {
    var trimmed := codec.trim(line);
    if trimmed == [] then Blank
    else match Decode(codec, trimmed)
         case Err(e) => Corrupt(e)
         case Ok(record) => Good(record)
  }

  function Classifier(codec: Codec): Bytes -> Kind {
    (line: Bytes) => Classify(codec, line)
  }

  /** The ref of a good line. */
  function Emit(classify: Bytes -> Kind, day: Day): (Bytes, int) -> Option<SnapshotRef> {
    (line: Bytes, offset: int) =>
      match classify(line)
      case Good(record) => Some(RefOf(day, offset, record))
      case _ => None
  }

  function CountsAsCorrupt(classify: Bytes -> Kind): Bytes -> int {
    (line: Bytes) => if classify(line).Corrupt? then 1 else 0
  }

  lemma EmitTells(classify: Bytes -> Kind, day: Day)
    ensures Tells(Emit(classify, day), OffsetOf)
  {
  }

  function Refs(classify: Bytes -> Kind, day: Day, file: Bytes): seq<SnapshotRef> {
    Index(Len, Emit(classify, day), Split(file), 0)
  }

  function CorruptCount(classify: Bytes -> Kind, file: Bytes): int {
    SizeOf(CountsAsCorrupt(classify), Split(file))
  }

  /** A line that is not blank and does not decode. */
  function Undecoded(codec: Codec): Bytes -> bool {
    (line: Bytes) => codec.trim(line) != [] && Decode(codec, codec.trim(line)).Err?
  }

  /** The corrupt lines are those. */
  lemma {:induction false} CorruptAreUndecoded(codec: Codec, lines: seq<Bytes>)
    ensures SizeOf(CountsAsCorrupt(Classifier(codec)), lines) == |Filter(lines, Undecoded(codec))|
  {
    if lines != [] { CorruptAreUndecoded(codec, lines[..|lines| - 1]); }
  }

  // ---------- Reading a snapshot ----------

  datatype ReadError = CannotOpen | EmptySnapshot | Undecodable(error: DecodeError)

  /** ReadSnapshot; contents are None when the file cannot be opened. */
  function ReadSnapshot(codec: Codec, contents: Option<Bytes>, offset: int): Result<SnapshotRecord, ReadError> {
    match contents
    case None => Err(CannotOpen)
    case Some(file) =>
      var line := LineAt(file, offset);
      if |line| == 0 then Err(EmptySnapshot)
      else match Decode(codec, codec.trim(line))
           case Err(e) => Err(Undecodable(e))
           case Ok(record) => Ok(record)
  }

  lemma ReadsGoodLines(codec: Codec, file: Bytes, offset: int, record: SnapshotRecord)
    requires LineStart(file, offset) && Classifier(codec)(LineAt(file, offset)) == Good(record)
    ensures ReadSnapshot(codec, Some(file), offset) == Ok(record)
  {
  }

  /** A ref is in the index of a file exactly when a line starts at its offset, that line reads as a record
      and the ref is the one made from it. */
  lemma IndexedExactlyReadable(codec: Codec, day: Day, file: Bytes, r: SnapshotRef)
    ensures r in Refs(Classifier(codec), day, file)
       <==> exists record :: LineStart(file, r.offset) && Classifier(codec)(LineAt(file, r.offset)) == Good(record)
                             && r == RefOf(day, r.offset, record)
    ensures r in Refs(Classifier(codec), day, file) ==>
              && ReadSnapshot(codec, Some(file), r.offset).Ok?
              && r == RefOf(day, r.offset, ReadSnapshot(codec, Some(file), r.offset).value)
  {
    IndexedExactlyAt(Classifier(codec), day, file, r);
    if r in Refs(Classifier(codec), day, file) {
      ReadsGoodLines(codec, file, r.offset, Classifier(codec)(LineAt(file, r.offset)).record);
    }
  }

  lemma IndexedExactlyAt(classify: Bytes -> Kind, day: Day, file: Bytes, r: SnapshotRef)
    ensures r in Refs(classify, day, file)
       <==> LineStart(file, r.offset) && classify(LineAt(file, r.offset)).Good?
            && r == RefOf(day, r.offset, classify(LineAt(file, r.offset)).record)
  {
    var emit := Emit(classify, day);
    IndexedExactly(file, emit, r);
    if o :| LineStart(file, o) && emit(LineAt(file, o), o) == Some(r) {
      EmitTells(classify, day);
      assert OffsetOf(emit(LineAt(file, o), o).value) == o;
    }
    if LineStart(file, r.offset) && classify(LineAt(file, r.offset)).Good?
       && r == RefOf(day, r.offset, classify(LineAt(file, r.offset)).record) {
      assert emit(LineAt(file, r.offset), r.offset) == Some(r);
    }
  }

  /** The refs of a file come in ascending order of their offsets. */
  lemma RefsAscend(classify: Bytes -> Kind, day: Day, file: Bytes)
    ensures var refs := Refs(classify, day, file);
            && (forall i :: 0 <= i < |refs| ==> refs[i].day == day)
            && (forall i, j :: 0 <= i < j < |refs| ==> refs[i].offset < refs[j].offset)
  {
    EmitTells(classify, day);
    NoEmptyLine(file);
    IndexAscends(Len, Emit(classify, day), OffsetOf, Split(file), 0);
    var refs := Refs(classify, day, file);
    forall i | 0 <= i < |refs| ensures refs[i].day == day {
      IndexedExactlyAt(classify, day, file, refs[i]);
    }
    assert forall i, j :: 0 <= i < j < |refs| ==> OffsetOf(refs[i]) < OffsetOf(refs[j]);
  }

  // ---------- The log grows and tears ----------

  /** Two versions of a file that agree on a prefix of whole lines index and read the same in it, however
      either goes on: the log may have been cut, torn or extended behind it. */
  lemma LogGrowth(codec: Codec, day: Day, f: Bytes, g: Bytes, n: nat, r: SnapshotRef)
    requires n <= |f| && n <= |g| && f[..n] == g[..n] && EndsLine(f[..n])
    ensures Refs(Classifier(codec), day, f[..n]) <= Refs(Classifier(codec), day, g)
    ensures r in Refs(Classifier(codec), day, f) && r.offset < n
       <==> r in Refs(Classifier(codec), day, g) && r.offset < n
    ensures r in Refs(Classifier(codec), day, f) && r.offset < n ==>
              ReadSnapshot(codec, Some(f), r.offset) == ReadSnapshot(codec, Some(g), r.offset)
  {
    EmitTells(Classifier(codec), day);
    SharedLinesSharedEntries(f, g, n, Emit(Classifier(codec), day), OffsetOf, r);
  }

  /** A payload that is one line and decodes. */
  ghost predicate Intact(classify: Bytes -> Kind, payload: Bytes) {
    NEWLINE !in payload && classify(payload + [NEWLINE]).Good?
  }

  ghost predicate AllIntact(classify: Bytes -> Kind, payloads: seq<Bytes>) {
    forall i :: 0 <= i < |payloads| ==> Intact(classify, payloads[i])
  }

  lemma {:induction false} NoneCorrupt(classify: Bytes -> Kind, payloads: seq<Bytes>)
    requires AllIntact(classify, payloads)
    ensures SizeOf(CountsAsCorrupt(classify), Terminated(payloads)) == 0
  {
    if payloads != [] {
      NoneCorrupt(classify, payloads[..|payloads| - 1]);
      assert Intact(classify, payloads[|payloads| - 1]);
    }
  }

  /** Whatever a crash left in the file, appending intact payloads loses at most the first of them: each
      later one is indexed at the offset where it was written and reads as its record. */
  lemma TornTailRecovers(codec: Codec, day: Day, file: Bytes, first: Bytes, later: seq<Bytes>, i: nat, whole: Bytes,
                         offset: int)
    requires NEWLINE !in first && AllIntact(Classifier(codec), later) && i < |later|
    requires whole == file + (first + [NEWLINE]) + Appended(later)
    requires offset == |file| + |first| + 1 + |Appended(later[..i])|
    ensures ReadSnapshot(codec, Some(whole), offset) == Ok(Classifier(codec)(later[i] + [NEWLINE]).record)
    ensures RefOf(day, offset, Classifier(codec)(later[i] + [NEWLINE]).record) in Refs(Classifier(codec), day, whole)
  {
    var record := LaterIsIndexed(Classifier(codec), day, file, first, later, i, whole, offset);
    ReadsGoodLines(codec, whole, offset, record);
  }

  lemma LaterIsIndexed(classify: Bytes -> Kind, day: Day, file: Bytes, first: Bytes, later: seq<Bytes>, i: nat,
                       whole: Bytes, offset: int)
    returns (record: SnapshotRecord)
    requires NEWLINE !in first && AllIntact(classify, later) && i < |later|
    requires whole == file + (first + [NEWLINE]) + Appended(later)
    requires offset == |file| + |first| + 1 + |Appended(later[..i])|
    ensures classify(later[i] + [NEWLINE]) == Good(record)
    ensures LineStart(whole, offset) && LineAt(whole, offset) == later[i] + [NEWLINE]
    ensures RefOf(day, offset, record) in Refs(classify, day, whole)
  {
    assert Intact(classify, later[i]);
    record := classify(later[i] + [NEWLINE]).record;
    TornTailLosesOne(file, first, later, i, Emit(classify, day));
    IndexedExactlyAt(classify, day, whole, RefOf(day, offset, record));
  }

  /** No more than one line becomes corrupt by it, and none if the file ended with a whole line. */
  lemma TornTailCorruptsOne(classify: Bytes -> Kind, file: Bytes, first: Bytes, later: seq<Bytes>)
    requires NEWLINE !in first && AllIntact(classify, later)
    ensures var whole := file + (first + [NEWLINE]) + Appended(later);
            && CorruptCount(classify, whole) <= CorruptCount(classify, file[..TailStart(file)]) + 1
            && (EndsLine(file) && Intact(classify, first) ==>
                  CorruptCount(classify, whole) == CorruptCount(classify, file))
  {
    var s := TailStart(file);
    var head, tail := file[..s], file[s..];
    FileIsHeadAndTail(file, first);
    TornTail(head, tail, first, later, Emit(classify, 0), CountsAsCorrupt(classify));
    NoneCorrupt(classify, later);
    if EndsLine(file) {
      assert head == file && Glued(tail, first) == first + [NEWLINE];
    }
  }

  // ---------- The index of a directory ----------

  predicate RefLess(a: SnapshotRef, b: SnapshotRef) {
    if a.capturedAt != b.capturedAt then a.capturedAt < b.capturedAt
    else if a.day != b.day then a.day < b.day
    else a.offset < b.offset
  }

  /** A segment as listed, with its contents when they can be read. */
  datatype Segment = Segment(day: Day, contents: Option<Bytes>)

  function SegmentRefs(classify: Bytes -> Kind, s: Segment): seq<SnapshotRef> {
    match s.contents
    case None => []
    case Some(file) => Refs(classify, s.day, file)
  }

  function SegmentCorrupt(classify: Bytes -> Kind, s: Segment): int {
    match s.contents
    case None => 0
    case Some(file) => CorruptCount(classify, file)
  }

  function Flatten<S, X>(items: seq<S>, f: S -> seq<X>): seq<X> {
    if items == [] then [] else Flatten(items[..|items| - 1], f) + f(items[|items| - 1])
  }

  lemma {:induction false} FlattenHas<S, X>(items: seq<S>, f: S -> seq<X>, x: X)
    ensures x in Flatten(items, f) <==> exists i :: 0 <= i < |items| && x in f(items[i])
  {
    if items != [] {
      var front, last := items[..|items| - 1], items[|items| - 1];
      FlattenHas(front, f, x);
      assert items[|items| - 1] == last && forall i :: 0 <= i < |front| ==> front[i] == items[i];
    }
  }

  function RefsIn(classify: Bytes -> Kind): Segment -> seq<SnapshotRef> {
    (s: Segment) => SegmentRefs(classify, s)
  }

  function CorruptIn(classify: Bytes -> Kind): Segment -> int {
    (s: Segment) => SegmentCorrupt(classify, s)
  }

  function AllRefs(classify: Bytes -> Kind, files: seq<Segment>): seq<SnapshotRef> {
    Flatten(files, RefsIn(classify))
  }

  function AllCorrupt(classify: Bytes -> Kind, files: seq<Segment>): int {
    Sum(files, CorruptIn(classify))
  }

  datatype Loaded = Loaded(refs: seq<SnapshotRef>, files: nat, corrupt: int)

  predicate Readable(s: Segment) {
    s.contents.Some?
  }

  method IndexSegment(classify: Bytes -> Kind, s: Segment) returns (refs: seq<SnapshotRef>, corrupt: int)
    requires Readable(s)
    ensures refs == SegmentRefs(classify, s) && corrupt == SegmentCorrupt(classify, s)
  {
    refs, corrupt := IndexSegmentFile(s.contents.value, Emit(classify, s.day), CountsAsCorrupt(classify));
  }

  method IndexSegments(classify: Bytes -> Kind, files: seq<Segment>,
                       ghost refsIn: Segment -> seq<SnapshotRef>, ghost corruptIn: Segment -> int)
    returns (ok: bool, refs: seq<SnapshotRef>, corrupt: int)
    requires forall s {:trigger Readable(s)} :: Readable(s) ==>
               refsIn(s) == SegmentRefs(classify, s) && corruptIn(s) == SegmentCorrupt(classify, s)
    ensures ok <==> forall i :: 0 <= i < |files| ==> files[i].contents.Some?
    ensures ok ==> refs == Flatten(files, refsIn) && corrupt == Sum(files, corruptIn)
  {
    refs, corrupt := [], 0;
    for k := 0 to |files|
      invariant refs == Flatten(files[..k], refsIn) && corrupt == Sum(files[..k], corruptIn)
      invariant forall i :: 0 <= i < k ==> files[i].contents.Some?
    {
      var s := files[k];
      if !Readable(s) {
        return false, refs, corrupt;
      }
      var fileRefs, fileCorrupt := IndexSegment(classify, s);
      assert files[..k + 1][..k] == files[..k];
      corrupt := corrupt + fileCorrupt;
      refs := refs + fileRefs;
    }
    assert files[..|files|] == files;
    ok := true;
  }

  /** loadIndexFromFiles: all segments or an error, then one order over all refs. */
  method LoadIndexFromFiles(classify: Bytes -> Kind, files: seq<Segment>) returns (loaded: Option<Loaded>)
    ensures loaded.Some? <==> forall i :: 0 <= i < |files| ==> files[i].contents.Some?
    ensures loaded.Some? ==>
              loaded.value == Loaded(Sort(AllRefs(classify, files), RefLess), |files|, AllCorrupt(classify, files))
  {
    var ok, refs, corrupt := IndexSegments(classify, files, RefsIn(classify), CorruptIn(classify));
    if !ok {
      return None;
    }
    loaded := Some(Loaded(Sort(refs, RefLess), |files|, corrupt));
  }

  ghost predicate DaysAscend(files: seq<Segment>) {
    forall i, j :: 0 <= i < j < |files| ==> files[i].day < files[j].day
  }

  /** Before sorting, refs are grouped by day and ascend by offset within the day. */
  ghost predicate Grouped(refs: seq<SnapshotRef>) {
    forall i, j :: 0 <= i < j < |refs| ==>
      refs[i].day < refs[j].day || (refs[i].day == refs[j].day && refs[i].offset < refs[j].offset)
  }

  ghost predicate AllBefore(refs: seq<SnapshotRef>, day: Day) {
    forall i :: 0 <= i < |refs| ==> refs[i].day < day
  }

  lemma {:induction false} AllRefsGrouped(classify: Bytes -> Kind, files: seq<Segment>, later: Day)
    requires DaysAscend(files)
    requires forall i :: 0 <= i < |files| ==> files[i].day < later
    ensures Grouped(AllRefs(classify, files)) && AllBefore(AllRefs(classify, files), later)
  {
    if files != [] {
      var front, last := files[..|files| - 1], files[|files| - 1];
      assert forall i :: 0 <= i < |front| ==> front[i] == files[i];
      AllRefsGrouped(classify, front, last.day);
      if last.contents.Some? {
        RefsAscend(classify, last.day, last.contents.value);
      }
    }
  }

  /** By time, refs of the same time by file and those of the same file by offset. */
  ghost predicate InTimeOrder(refs: seq<SnapshotRef>) {
    forall i, j :: 0 <= i < j < |refs| ==>
      || refs[i].capturedAt < refs[j].capturedAt
      || (refs[i].capturedAt == refs[j].capturedAt && refs[i].day < refs[j].day)
      || (refs[i].capturedAt == refs[j].capturedAt && refs[i].day == refs[j].day && refs[i].offset < refs[j].offset)
  }

  /** The loaded index is the one ascending arrangement of the refs of all segments. */
  lemma LoadedIsOrdered(classify: Bytes -> Kind, files: seq<Segment>)
    requires DaysAscend(files)
    ensures Ascending(Sort(AllRefs(classify, files), RefLess), RefLess)
    ensures multiset(Sort(AllRefs(classify, files), RefLess)) == multiset(AllRefs(classify, files))
    ensures InTimeOrder(Sort(AllRefs(classify, files), RefLess))
  {
    AllRefsGrouped(classify, files, if files == [] then 0 else files[|files| - 1].day + 1);
    SortAscending(AllRefs(classify, files), RefLess);
  }
}

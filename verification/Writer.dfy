/** Appending snapshots to daily segments: internal/history/writer.go. Records may come with any time; the
    clock is the latest time that anything happened at. */
module Writer {
  import opened Wrappers
  import opened Sequences
  import opened Sorting
  import opened Sums
  import opened LineLog
  import opened Records
  import opened SnapshotLog
  import opened SnapshotRoundTrip
  import opened Retention

  /** What the file system does during one append: whether the segment opens, whether and what the two
      prunes can remove, and how many bytes a failing write gets out. */
  datatype Disk = Disk(opens: bool, listable: bool, stuck: set<Day>,
                       shortWrite: Option<nat>, listableAfter: bool, stuckAfter: set<Day>)

  datatype AppendError = OpenFailed | PruneFailed | MarshalFailed | WriteFailed

  datatype AppendResult = AppendResult(segment: Day, removedByAge: int)

  /** The zero time.Time, in nanoseconds before 1970. */
  const ZERO_TIME := -62_135_596_800_000_000_000

  function CaptureTime(record: SnapshotRecord, now: int): int {
    if record.capturedAt == ZERO_TIME then now else record.capturedAt
  }

  function Later(a: int, b: int): int {
    if a < b then b else a
  }

  lemma NormalKeepsTime(r: SnapshotRecord)
    ensures NormalRecord(r).capturedAt == r.capturedAt
  {
  }

  // ---------- What an append changes ----------

  datatype View = View(segments: Segments, file: Option<Day>, appendCount: nat,
                       written: Segments, log: seq<SnapshotRecord>, orderly: bool)

  /** The view with the record's segment open: a rotation creates it if it is not there. */
  function Opening(v: View, day: Day): View {
    if v.file == Some(day) then v
    else v.(file := Some(day), segments := WithDay(v.segments, day), written := WithDay(v.written, day),
            orderly := v.orderly && !Gone(v.segments, v.written, day))
  }

  /** The view with these bytes written to the open segment; `line` is what was to be written, and `comesBack`
      whether it reads as the record. */
  function Writing(v: View, r: SnapshotRecord, day: Day, line: Bytes, comesBack: bool, added: Bytes): View {
    v.(segments := Grown(v.segments, day, added), written := Grown(v.written, day, added),
       appendCount := if added == line then v.appendCount + 1 else v.appendCount,
       log := if added == line then v.log + [r] else v.log,
       orderly := v.orderly && (added == [] || (added == line && comesBack)))
  }

  /** Segments other than the one of the day only go, and only when they have expired. */
  ghost predicate Remains(before: Segments, after: Segments, day: Day, hours: int, now: int) {
    && (forall d :: d in after ==> d in before && after[d] == before[d])
    && (forall d :: d in before && d !in after ==>
          d != day && d * 86_400_000_000_000 + 86_400_000_000_000 < now - hours * 3_600_000_000_000)
  }

  /** No segment that ended before the cutoff remains. */
  ghost predicate NoneExpired(segments: Segments, hours: int, now: int) {
    forall d :: d in segments ==> d * 86_400_000_000_000 + 86_400_000_000_000 >= now - hours * 3_600_000_000_000
  }

  /** What goes wrong before anything is written, if anything does. */
  function TroubleBefore(v: View, day: Day, writable: bool, every: int, disk: Disk): Option<AppendError> {
    if v.file != Some(day) && !disk.opens then Some(OpenFailed)
    else if v.file != Some(day) && every != 0 && !disk.listable then Some(PruneFailed)
    else if !writable then Some(MarshalFailed)
    else None
  }

  predicate CountsOut(count: nat, every: int) {
    every > 0 && count % every == 0
  }

  /** What goes wrong with the write and after it. */
  function TroubleBehind(v: View, every: int, disk: Disk): Option<AppendError> {
    if disk.shortWrite.Some? then Some(WriteFailed)
    else if CountsOut(v.appendCount + 1, every) && !disk.listableAfter then Some(PruneFailed)
    else None
  }

  /** What goes wrong in an append, if anything does. */
  function Trouble(v: View, day: Day, writable: bool, every: int, disk: Disk): Option<AppendError> {
    var before := TroubleBefore(v, day, writable, every, disk);
    if before.Some? then before else TroubleBehind(v, every, disk)
  }

  /** The result tells exactly what went wrong. */
  predicate Answers<T, E(==)>(result: Result<T, E>, trouble: Option<E>) {
    match trouble
    case None => result.Ok?
    case Some(e) => result.Err? && result.error == e
  }

  /** The bytes of a line that a write gets out. */
  function GotOut(line: Bytes, shortWrite: Option<nat>): (bytes: Bytes)
    requires line != []
    ensures shortWrite.None? ==> bytes == line
    ensures shortWrite.Some? ==> bytes < line
  {
    match shortWrite
    case None => line
    case Some(n) => line[..if n < |line| then n else |line| - 1]
  }

  /** What reaches the open segment. */
  function Added(v: View, day: Day, line: Bytes, writable: bool, every: int, disk: Disk): Bytes
    requires line != []
  {
    if TroubleBefore(v, day, writable, every, disk).Some? then [] else GotOut(line, disk.shortWrite)
  }

  /** One append: whatever goes wrong, the segment of the record's day has what it had and what was written,
      the others at most expire, and only a whole line counts and enters the log. */
  ghost predicate Appending(v: View, w: View, r: SnapshotRecord, line: Bytes, comesBack: bool, hours: int,
                            result: Result<AppendResult, AppendError>, added: Bytes) {
    var day := DayOf(r.capturedAt);
    if result == Err(OpenFailed) then
      w == v.(file := None) && added == []
    else
      var full := Writing(Opening(v, day), r, day, line, comesBack, added);
      && w == full.(segments := w.segments)
      && Remains(full.segments, w.segments, day, hours, r.capturedAt)
      && (result.Ok? ==> result.value == AppendResult(day, |full.segments| - |w.segments|))
  }

  /** Pruning happens after a rotation and at every so many appends, unless it is switched off. */
  ghost predicate PrunedWhenDue(v: View, w: View, day: Day, hours: int, now: int, every: int, disk: Disk) {
    && PrunedAtOpening(v, w, day, hours, now, every, disk)
    && (CountsOut(w.appendCount, every) && disk.stuckAfter == {} ==> NoneExpired(w.segments, hours, now))
  }

  ghost predicate PrunedAtOpening(v: View, w: View, day: Day, hours: int, now: int, every: int, disk: Disk) {
    && (every == 0 ==> w.segments.Keys == Opening(v, day).segments.Keys)
    && (every > 0 && v.file != Some(day) && disk.stuck == {} ==> NoneExpired(w.segments, hours, now))
  }

  /** All that an append promises: what it does, when it succeeds and what it reports, how much it writes, and
      that it prunes when a prune is due. */
  ghost predicate AppendDone(v: View, w: View, r: SnapshotRecord, line: Bytes, writable: bool, comesBack: bool,
                             hours: int,
                           every: int, disk: Disk, result: Result<AppendResult, AppendError>, added: Bytes)
    requires line != []
  {
    var day := DayOf(r.capturedAt);
    && Appending(v, w, r, line, comesBack, hours, result, added)
    && Answers(result, Trouble(v, day, writable, every, disk))
    && added == Added(v, day, line, writable, every, disk)
    && (result.Ok? ==> PrunedWhenDue(v, w, day, hours, r.capturedAt, every, disk))
  }

  // ---------- The parts of an append ----------

  /** The segment is open, and perhaps others were pruned. */
  ghost predicate Opened(v: View, w: View, day: Day, hours: int, every: int, now: int, disk: Disk,
                         result: Result<nat, AppendError>) {
    && Answers(result, TroubleBefore(v, day, true, every, disk))
    && if result == Err(OpenFailed) then
         w == v.(file := None)
       else
         var o := Opening(v, day);
         && w == o.(segments := w.segments)
         && Remains(o.segments, w.segments, day, hours, now)
         && (result.Ok? ==> result.value == |o.segments| - |w.segments|)
         && (result.Ok? ==> PrunedAtOpening(v, w, day, hours, now, every, disk))
  }

  /** Behind the whole line perhaps others were pruned. */
  ghost predicate Counted(v: View, w: View, day: Day, hours: int, every: int, now: int, disk: Disk,
                          pruned: Result<nat, PruneError>) {
    && w == v.(segments := w.segments)
    && Remains(v.segments, w.segments, day, hours, now)
    && (pruned.Err? <==> CountsOut(v.appendCount, every) && !disk.listableAfter)
    && (pruned.Ok? ==>
          && pruned.value == |v.segments| - |w.segments|
          && (every == 0 ==> w.segments == v.segments)
          && (CountsOut(v.appendCount, every) && disk.stuckAfter == {} ==> NoneExpired(w.segments, hours, now)))
  }

  lemma NothingWritten(v: View, r: SnapshotRecord, day: Day, line: Bytes, comesBack: bool)
    requires line != []
    ensures Writing(v, r, day, line, comesBack, []) == v
  {
    NothingGrown(v.segments, day);
    NothingGrown(v.written, day);
  }

  lemma StopsBeforeWriting(v: View, w: View, r: SnapshotRecord, line: Bytes, writable: bool, comesBack: bool,
                           hours: int, every: int, disk: Disk, rotation: Result<nat, AppendError>)
    requires Opened(v, w, DayOf(r.capturedAt), hours, every, r.capturedAt, disk, rotation) && line != []
    requires rotation.Err? || !writable
    ensures AppendDone(v, w, r, line, writable, comesBack, hours, every, disk,
                       Err(if rotation.Err? then rotation.error else MarshalFailed), [])
  {
    NothingWritten(Opening(v, DayOf(r.capturedAt)), r, DayOf(r.capturedAt), line, comesBack);
  }

  /** Opening and writing, without the count and its prune. */
  lemma OpenedThenWritten(v: View, open: View, r: SnapshotRecord, day: Day, line: Bytes, comesBack: bool, hours: int,
                          every: int, now: int, disk: Disk, rotation: nat, added: Bytes)
    requires Opened(v, open, day, hours, every, now, disk, Ok(rotation))
    ensures var full := Writing(Opening(v, day), r, day, line, comesBack, added);
            var w := Writing(open, r, day, line, comesBack, added);
            && w == full.(segments := w.segments)
            && Remains(full.segments, w.segments, day, hours, now)
            && rotation == |full.segments| - |w.segments|
  {
    var o := Opening(v, day);
  }

  lemma FailsWriting(v: View, open: View, r: SnapshotRecord, line: Bytes, comesBack: bool, hours: int,
                     every: int, disk: Disk, rotation: nat, added: Bytes)
    requires Opened(v, open, DayOf(r.capturedAt), hours, every, r.capturedAt, disk, Ok(rotation))
    requires line != [] && disk.shortWrite.Some? && added == GotOut(line, disk.shortWrite)
    ensures AppendDone(v, Writing(open, r, DayOf(r.capturedAt), line, comesBack, added), r, line, true, comesBack,
                     hours, every, disk, Err(WriteFailed), added)
  {
    OpenedThenWritten(v, open, r, DayOf(r.capturedAt), line, comesBack, hours, every, r.capturedAt, disk, rotation,
                      added);
  }

  lemma CompletesAppending(v: View, open: View, w: View, r: SnapshotRecord, line: Bytes, comesBack: bool, hours: int,
                           every: int, disk: Disk, rotation: nat, pruned: Result<nat, PruneError>)
    requires Opened(v, open, DayOf(r.capturedAt), hours, every, r.capturedAt, disk, Ok(rotation))
    requires Counted(Writing(open, r, DayOf(r.capturedAt), line, comesBack, line), w, DayOf(r.capturedAt), hours, every,
                     r.capturedAt, disk, pruned)
    ensures Appending(v, w, r, line, comesBack, hours, Completion(DayOf(r.capturedAt), rotation, pruned), line)
  {
    var day, wrote := DayOf(r.capturedAt), Writing(open, r, DayOf(r.capturedAt), line, comesBack, line);
    OpenedThenWritten(v, open, r, day, line, comesBack, hours, every, r.capturedAt, disk, rotation, line);
  }

  function Completion(day: Day, rotation: nat, pruned: Result<nat, PruneError>): Result<AppendResult, AppendError> {
    if pruned.Err? then Err(PruneFailed) else Ok(AppendResult(day, rotation + pruned.value))
  }

  lemma CompletesPruned(v: View, open: View, w: View, r: SnapshotRecord, line: Bytes, comesBack: bool, hours: int,
                        every: int, disk: Disk, rotation: nat, pruned: Result<nat, PruneError>)
    requires Opened(v, open, DayOf(r.capturedAt), hours, every, r.capturedAt, disk, Ok(rotation))
    requires Counted(Writing(open, r, DayOf(r.capturedAt), line, comesBack, line), w, DayOf(r.capturedAt), hours, every,
                     r.capturedAt, disk, pruned)
    ensures pruned.Err? <==> CountsOut(v.appendCount + 1, every) && !disk.listableAfter
    ensures pruned.Ok? ==> PrunedWhenDue(v, w, DayOf(r.capturedAt), hours, r.capturedAt, every, disk)
  {
    var wrote := Writing(open, r, DayOf(r.capturedAt), line, comesBack, line);
    assert w.appendCount == wrote.appendCount == v.appendCount + 1;
    if pruned.Ok? {
      StaysPruned(v, open, wrote, w, DayOf(r.capturedAt), hours, r.capturedAt, every, disk, line);
    }
  }

  lemma Completes(v: View, w: View, r: SnapshotRecord, line: Bytes, comesBack: bool, hours: int,
                  every: int, disk: Disk, rotation: nat, pruned: Result<nat, PruneError>)
    requires Appending(v, w, r, line, comesBack, hours, Completion(DayOf(r.capturedAt), rotation, pruned), line)
    requires line != [] && disk.shortWrite.None?
    requires TroubleBefore(v, DayOf(r.capturedAt), true, every, disk) == None
    requires pruned.Err? <==> CountsOut(v.appendCount + 1, every) && !disk.listableAfter
    requires pruned.Ok? ==> PrunedWhenDue(v, w, DayOf(r.capturedAt), hours, r.capturedAt, every, disk)
    ensures AppendDone(v, w, r, line, true, comesBack, hours, every, disk,
                       Completion(DayOf(r.capturedAt), rotation, pruned), line)
  {
  }

  /** No prune of the rotation is undone by what comesBack. */
  lemma StaysPruned(v: View, open: View, wrote: View, w: View, day: Day, hours: int, now: int, every: int,
                    disk: Disk, added: Bytes)
    requires PrunedAtOpening(v, open, day, hours, now, every, disk)
    requires wrote.segments == Grown(open.segments, day, added)
    requires Remains(wrote.segments, w.segments, day, hours, now)
    requires every == 0 ==> w.segments == wrote.segments
    ensures PrunedAtOpening(v, w, day, hours, now, every, disk)
  {
    forall d | d in w.segments ensures d in open.segments {
      assert d in wrote.segments.Keys;
    }
  }

  // ---------- What an append means ----------

  /** When an append succeeds. */
  lemma AppendSucceedsExactly(v: View, w: View, r: SnapshotRecord, line: Bytes, writable: bool, comesBack: bool,
                              hours: int, every: int, disk: Disk, result: Result<AppendResult, AppendError>,
                              added: Bytes)
    requires line != [] && AppendDone(v, w, r, line, writable, comesBack, hours, every, disk, result, added)
    ensures result.Ok? <==>
              && (v.file == Some(DayOf(r.capturedAt)) || (disk.opens && (every == 0 || disk.listable)))
              && writable && disk.shortWrite.None?
              && (disk.listableAfter || every <= 0 || (v.appendCount + 1) % every != 0)
    ensures result.Ok? ==> added == line && w.log == v.log + [r] && w.appendCount == v.appendCount + 1
    ensures result == Err(OpenFailed) <==> v.file != Some(DayOf(r.capturedAt)) && !disk.opens
  {
  }

  /** The bytes stand at the end of the day's segment. */
  predicate Reaches(before: Segments, after: Segments, day: Day, added: Bytes) {
    day in after && after[day] == Content(before, day) + added
  }

  /** The day had not ended before the window began. */
  predicate Within(day: Day, window: int, clock: int) {
    day * 86_400_000_000_000 + 86_400_000_000_000 >= clock - window * 3_600_000_000_000
  }

  /** The open file is the day's and has lost its name. */
  predicate Unlinked(v: View, day: Day) {
    v.file == Some(day) && day !in v.segments
  }

  /** What is written reaches the directory exactly if the open file has its name, and it can only have lost it
      when the day is out of the window. */
  lemma ReachesSegment(v: View, w: View, r: SnapshotRecord, line: Bytes, comesBack: bool, hours: int,
                       result: Result<AppendResult, AppendError>, added: Bytes, window: int, before: int, clock: int)
    requires Appending(v, w, r, line, comesBack, hours, result, added)
    requires Kept(v.segments, v.written, window, before) && (v.file.Some? ==> v.file.value in v.written)
    requires before <= clock
    ensures result != Err(OpenFailed) ==>
              (Reaches(v.segments, w.segments, DayOf(r.capturedAt), added) <==> !Unlinked(v, DayOf(r.capturedAt)))
    ensures Unlinked(v, DayOf(r.capturedAt)) ==> !Within(DayOf(r.capturedAt), window, clock)
  {
    var day := DayOf(r.capturedAt);
    if result != Err(OpenFailed) {
      var full := Writing(Opening(v, day), r, day, line, comesBack, added);
      assert !Unlinked(v, day) ==> day in full.segments && full.segments[day] == Content(v.segments, day) + added;
    }
  }

  /** A write that is cut short with something written. */
  predicate Torn(disk: Disk) {
    disk.shortWrite.Some? && disk.shortWrite.value > 0
  }

  /** What the directory needs to stay orderly: a lawful codec, a record whose aliases agree, of a day that is
      not out of the window, and a write that is not torn. */
  ghost predicate KeepsOrder(orderly: bool, codec: Codec, record: SnapshotRecord, r: SnapshotRecord, window: int,
                             clock: int, disk: Disk) {
    && orderly && Lawful(codec) && AliasesAgree(record)
    && Within(DayOf(r.capturedAt), window, clock) && !Torn(disk)
  }

  lemma StaysOrderly(v: View, w: View, codec: Codec, record: SnapshotRecord, window: int, clock: int, hours: int,
                     every: int, disk: Disk, result: Result<AppendResult, AppendError>, added: Bytes)
    requires var r := NormalRecord(record);
             && KeepsOrder(v.orderly, codec, record, r, window, clock, disk)
             && AppendDone(v, w, r, codec.marshal(r) + [NEWLINE], codec.writable(r), ComesBack(codec, r),
                           hours, every, disk, result, added)
    requires Kept(v.segments, v.written, window, clock)
    ensures w.orderly
  {
    var r := NormalRecord(record);
    assert !Gone(v.segments, v.written, DayOf(r.capturedAt));
    if codec.writable(r) { LawfulReturns(codec, record); }
  }

  /** The index lists these records in this order, nothing else and nothing corrupt, and each of its refs
      reads as its record. */
  ghost predicate ReadsBack(codec: Codec, segments: Segments, loaded: Loaded, records: seq<SnapshotRecord>) {
    && loaded.corrupt == 0 && |loaded.refs| == |records|
    && forall i :: 0 <= i < |records| ==>
         var ref := loaded.refs[i];
         && ref == RefOf(DayOf(records[i].capturedAt), ref.offset, records[i])
         && ref.day in segments
         && ReadSnapshot(codec, Some(segments[ref.day]), ref.offset) == Ok(records[i])
  }

  /** The same in some order, which is the one of their times. */
  ghost predicate ReadsBackByTime(codec: Codec, segments: Segments, loaded: Loaded, records: seq<SnapshotRecord>) {
    exists arranged :: Arranges(arranged, records) && ReadsBack(codec, segments, loaded, arranged)
  }

  lemma RefsReadBack(codec: Codec, segments: Segments, loaded: Loaded, records: seq<SnapshotRecord>)
    requires RefsFor(Classifier(codec), segments, loaded.refs, records) && loaded.corrupt == 0
    ensures ReadsBack(codec, segments, loaded, records)
  {
    forall i | 0 <= i < |records|
      ensures var ref := loaded.refs[i];
              && ref == RefOf(DayOf(records[i].capturedAt), ref.offset, records[i])
              && ref.day in segments
              && ReadSnapshot(codec, Some(segments[ref.day]), ref.offset) == Ok(records[i]) {
      RefReads(codec, segments, loaded.refs, records, i);
      assert RefFor(Classifier(codec), segments[loaded.refs[i].day], loaded.refs[i], records[i]);
    }
  }

  /** The refs of the segments of a directory, as they are listed, are the refs of the directory. */
  lemma ListedRefs(codec: Codec, segments: Segments, files: seq<Segment>)
    requires DaysAscend(files) && DaysIn(files) == segments.Keys
    requires forall i :: 0 <= i < |files| ==>
               files[i].day in segments && files[i].contents == Some(segments[files[i].day])
    ensures forall ref :: ref in Sort(AllRefs(Classifier(codec), files), RefLess) <==>
              ref.day in segments && ref in Refs(Classifier(codec), ref.day, segments[ref.day])
  {
    LoadedIsOrdered(Classifier(codec), files);
    SameElements(Sort(AllRefs(Classifier(codec), files), RefLess), AllRefs(Classifier(codec), files));
    forall ref ensures ref in AllRefs(Classifier(codec), files) <==>
                         ref.day in segments && ref in Refs(Classifier(codec), ref.day, segments[ref.day])
    {
      FlattenHas(files, RefsIn(Classifier(codec)), ref);
      if i :| 0 <= i < |files| && ref in RefsIn(Classifier(codec))(files[i]) {
        RefsAscend(Classifier(codec), files[i].day, segments[files[i].day]);
      }
      if ref.day in segments && ref in Refs(Classifier(codec), ref.day, segments[ref.day]) {
        assert ref.day in DaysIn(files);
        var i :| 0 <= i < |files| && files[i].day == ref.day;
        assert ref in RefsIn(Classifier(codec))(files[i]);
      }
    }
  }

  lemma LoadsByTime(codec: Codec, segments: Segments, log: seq<SnapshotRecord>, files: seq<Segment>, loaded: Loaded)
    requires AllReturn(Classifier(codec), codec.marshal, log)
    requires DaysAscend(files) && DaysIn(files) == segments.Keys && Faithful(files, segments, codec.marshal, log)
    requires loaded.refs == Sort(AllRefs(Classifier(codec), files), RefLess)
    requires loaded.corrupt == AllCorrupt(Classifier(codec), files)
    ensures ReadsBackByTime(codec, segments, loaded, Retained(log, segments.Keys))
    ensures TimesAscend(log) ==> ReadsBack(codec, segments, loaded, Retained(log, segments.Keys))
  {
    LoadReturnsRetained(Classifier(codec), codec.marshal, log, segments, files);
    var arranged :| RefsFor(Classifier(codec), segments, loaded.refs, arranged)
                    && Arranges(arranged, Retained(log, DaysIn(files)));
    RefsReadBack(codec, segments, loaded, arranged);
    if TimesAscend(log) { RefsReadBack(codec, segments, loaded, Retained(log, segments.Keys)); }
  }

  // ---------- Listing ----------

  method ListSegmentFiles(segments: Segments) returns (files: seq<Segment>)
    ensures DaysAscend(files) && DaysIn(files) == segments.Keys && |files| == |segments|
    ensures forall i :: 0 <= i < |files| ==>
              files[i].day in segments && files[i].contents == Some(segments[files[i].day])
  {
    var listed := ListDays(segments);
    files := [];
    for i := 0 to |listed|
      invariant |files| == i
      invariant forall j :: 0 <= j < i ==>
                  listed[j] in segments && files[j] == Segment(listed[j], Some(segments[listed[j]]))
    {
      assert listed[i] in listed;
      files := files + [Segment(listed[i], Some(segments[listed[i]]))];
    }
    forall d | d in segments ensures d in DaysIn(files) {
      assert d in listed;
      var i :| 0 <= i < |listed| && listed[i] == d;
      assert files[i].day == d;
    }
    assert DaysIn(files) == segments.Keys;
    SizeOfListing(listed, segments.Keys);
    assert |segments.Keys| == |segments|;
  }

  // ---------- The writer ----------

  /** Which of the steps to a new writer the system lets pass. */
  datatype Start = Start(createsDir: bool, opensLock: bool, locks: bool)

  datatype StartError = NoDataDir | CannotCreateDir | CannotOpenLock | AlreadyLocked

  class SnapshotWriter {
    const codec: Codec
    const retentionHours: int
    const pruneEverySnapshots: int
    var segments: Segments
    var file: Option<Day>
    var currentSegment: Option<Day>
    var appendCount: nat
    var locked: bool

    ghost var clock: int
    ghost var window: int
    ghost var written: Segments
    ghost var log: seq<SnapshotRecord>
    ghost var orderly: bool

    ghost function Seen(): View
      reads this
    {
      View(segments, file, appendCount, written, log, orderly)
    }

    /** The open segment was created; it has its name as long as it is in the directory. */
    ghost predicate FileKnown()
      reads this
    {
      file.Some? ==> currentSegment == file && file.value in written
    }

    ghost predicate Valid()
      reads this
    {
      && 1 <= window <= retentionHours && pruneEverySnapshots >= 0
      && FileKnown()
      && Kept(segments, written, window, clock)
      && (orderly ==> Orderly(codec, segments, written, log))
    }

    /** The writer that NewSnapshotWriter returns, on whatever the directory holds. `recorded` are the records
        that the directory is thought to hold: the writer is orderly if it holds them and nothing else. */
    constructor (codec: Codec, retentionHours: int, pruneEverySnapshots: int, existing: Segments,
                 ghost recorded: seq<SnapshotRecord>, ghost now: int)
      ensures Valid() && segments == existing == written && file == None && appendCount == 0 && locked
      ensures this.codec == codec && log == recorded && clock == now && window == this.retentionHours
      ensures this.retentionHours == if retentionHours <= 0 then 168 else retentionHours
      ensures this.pruneEverySnapshots == if pruneEverySnapshots < 0 then 10 else pruneEverySnapshots
      ensures orderly <==> FilledBy(codec, existing, recorded)
    {
      this.codec := codec;
      this.retentionHours := if retentionHours <= 0 then 168 else retentionHours;
      this.pruneEverySnapshots := if pruneEverySnapshots < 0 then 10 else pruneEverySnapshots;
      segments, file, currentSegment, appendCount, locked := existing, None, None, 0, true;
      clock, window, written, log := now, if retentionHours <= 0 then 168 else retentionHours, existing, recorded;
      orderly := FilledBy(codec, existing, recorded);
    }

    /** NewSnapshotWriter, with what it asks of the system in turn. */
    static method NewSnapshotWriter(codec: Codec, dataDir: string, retentionHours: int, pruneEverySnapshots: int,
                                    start: Start, existing: Segments, ghost recorded: seq<SnapshotRecord>,
                                    ghost now: int)
      returns (w: Result<SnapshotWriter, StartError>)
      ensures w.Ok? <==> dataDir != "" && start == Start(true, true, true)
      ensures w == Err(AlreadyLocked) <==> dataDir != "" && start == Start(true, true, false)
      ensures w == Err(CannotOpenLock) <==> dataDir != "" && start.createsDir && !start.opensLock
      ensures w == Err(CannotCreateDir) <==> dataDir != "" && !start.createsDir
      ensures w == Err(NoDataDir) <==> dataDir == ""
      ensures w.Ok? ==>
                && fresh(w.value) && w.value.Valid() && w.value.locked && w.value.file == None
                && w.value.codec == codec && w.value.segments == existing && w.value.log == recorded
                && w.value.clock == now && w.value.window == w.value.retentionHours
                && w.value.retentionHours == (if retentionHours <= 0 then 168 else retentionHours)
                && w.value.pruneEverySnapshots == (if pruneEverySnapshots < 0 then 10 else pruneEverySnapshots)
                && (w.value.orderly <==> FilledBy(codec, existing, recorded))
    {
      if dataDir == "" {
        return Err(NoDataDir);
      }
      if !start.createsDir {
        return Err(CannotCreateDir);
      }
      if !start.opensLock {
        return Err(CannotOpenLock);
      }
      if !start.locks {
        return Err(AlreadyLocked);
      }
      var writer := new SnapshotWriter(codec, retentionHours, pruneEverySnapshots, existing, recorded, now);
      w := Ok(writer);
    }

    /** rotateSegmentLocked */
    method RotateSegment(day: Day, opens: bool) returns (ok: bool)
      requires Valid() && file != Some(day)
      modifies `segments, `file, `currentSegment, `written, `orderly
      ensures Valid() && ok == opens
      ensures Seen() == if ok then Opening(old(Seen()), day) else old(Seen()).(file := None)
    {
      file := None;
      if !opens {
        return false;
      }
      KeptByOpening(segments, written, window, clock, day);
      orderly := orderly && !Gone(segments, written, day);
      if orderly { OrderlyByOpening(codec, segments, written, log, day); }
      segments, written := WithDay(segments, day), WithDay(written, day);
      file, currentSegment := Some(day), Some(day);
      ok := true;
    }

    /** PruneDataDirByAge on the writer's directory, by the writer itself or by the daemon around it. */
    method Prune(hours: int, now: int, listable: bool, stuck: set<Day>) returns (r: Result<nat, PruneError>)
      requires Valid() && hours >= window && now <= clock
      modifies `segments
      ensures Valid()
      ensures segments == if listable then Pruned(old(segments), hours, now, stuck) else old(segments)
      ensures r == if listable then Ok(|old(segments)| - |segments|) else Err(CannotList)
    {
      segments, r := PruneDataDirByAge(segments, hours, now, listable, stuck);
      if listable {
        KeptByPrune(old(segments), written, window, clock, hours, now, stuck);
      }
    }

    /** The write of the line to the open file. */
    method WriteLine(r: SnapshotRecord, day: Day, shortWrite: Option<nat>) returns (ok: bool, ghost added: Bytes)
      requires Valid() && file == Some(day) && day == DayOf(r.capturedAt)
      modifies `segments, `written, `log, `orderly, `appendCount
      ensures Valid() && ok == shortWrite.None? && added == GotOut(codec.marshal(r) + [NEWLINE], shortWrite)
      ensures Seen() == Writing(old(Seen()), r, day, codec.marshal(r) + [NEWLINE], ComesBack(codec, r), added)
    {
      var line := codec.marshal(r) + [NEWLINE];
      var bytes := GotOut(line, shortWrite);
      ghost var comesBack := ComesBack(codec, r);
      KeptByWrite(segments, written, window, clock, day, bytes);
      if orderly && bytes == line && comesBack { OrderlyByWrite(codec, segments, written, log, r, day); }
      if bytes == [] {
        NothingGrown(segments, day);
        NothingGrown(written, day);
      }
      orderly := orderly && (bytes == [] || (bytes == line && comesBack));
      segments, written := Grown(segments, day, bytes), Grown(written, day, bytes);
      if shortWrite.None? {
        log := log + [r];
        appendCount := appendCount + 1;
      }
      ok, added := shortWrite.None?, bytes;
    }

    /** Opening the record's segment, with the prune that comesBack a rotation. */
    method OpenSegment(day: Day, now: int, disk: Disk) returns (result: Result<nat, AppendError>)
      requires Valid() && now <= clock && day == DayOf(now)
      modifies `segments, `file, `currentSegment, `written, `orderly
      ensures Valid() && Opened(old(Seen()), Seen(), day, retentionHours, pruneEverySnapshots, now, disk, result)
    {
      if file.Some? && currentSegment == Some(day) {
        return Ok(0);
      }
      ghost var v := Seen();
      var ok := RotateSegment(day, disk.opens);
      if !ok {
        return Err(OpenFailed);
      }
      var pruned := Ok(0);
      if pruneEverySnapshots != 0 {
        pruned := Prune(retentionHours, now, disk.listable, disk.stuck);
      }
      result := if pruned.Err? then Err(PruneFailed) else Ok(pruned.value);
    }

    /** The prune that comes at every so many appends. */
    method PruneOnCount(day: Day, now: int, disk: Disk) returns (pruned: Result<nat, PruneError>)
      requires Valid() && day == DayOf(now) && now <= clock
      modifies `segments
      ensures Valid() && Counted(old(Seen()), Seen(), day, retentionHours, pruneEverySnapshots, now, disk, pruned)
    {
      pruned := Ok(0);
      if pruneEverySnapshots > 0 && appendCount % pruneEverySnapshots == 0 {
        pruned := Prune(retentionHours, now, disk.listableAfter, disk.stuckAfter);
      }
    }

    /** Behind the opening, which found the writer at `v` and removed some segments: the write, the count and
        the prune that may come with it. */
    method WriteAndCount(r: SnapshotRecord, disk: Disk, rotation: nat, ghost v: View)
      returns (result: Result<AppendResult, AppendError>, ghost added: Bytes)
      requires Valid() && r.capturedAt <= clock && file == Some(DayOf(r.capturedAt))
      requires Opened(v, Seen(), DayOf(r.capturedAt), retentionHours, pruneEverySnapshots, r.capturedAt, disk,
                      Ok(rotation))
      requires TroubleBefore(v, DayOf(r.capturedAt), codec.writable(r), pruneEverySnapshots, disk) == None
      modifies `segments, `written, `log, `orderly, `appendCount
      ensures Valid()
      ensures AppendDone(v, Seen(), r, codec.marshal(r) + [NEWLINE], codec.writable(r), ComesBack(codec, r),
                       retentionHours, pruneEverySnapshots, disk, result, added)
    {
      ghost var open, line, comesBack := Seen(), codec.marshal(r) + [NEWLINE], ComesBack(codec, r);
      var day := DayOf(r.capturedAt);
      var ok;
      ok, added := WriteLine(r, day, disk.shortWrite);
      ghost var wrote := Seen();
      if !ok {
        FailsWriting(v, open, r, line, comesBack, retentionHours, pruneEverySnapshots, disk, rotation, added);
        return Err(WriteFailed), added;
      }
      var pruned := PruneOnCount(day, r.capturedAt, disk);
      CompletesAppending(v, open, Seen(), r, line, comesBack, retentionHours, pruneEverySnapshots, disk, rotation,
                         pruned);
      CompletesPruned(v, open, Seen(), r, line, comesBack, retentionHours, pruneEverySnapshots, disk, rotation, pruned);
      Completes(v, Seen(), r, line, comesBack, retentionHours, pruneEverySnapshots, disk, rotation, pruned);
      result := Completion(day, rotation, pruned);
    }

    method AppendStored(r: SnapshotRecord, disk: Disk)
      returns (result: Result<AppendResult, AppendError>, ghost added: Bytes)
      requires Valid()
      modifies this
      ensures Valid() && clock == Later(old(clock), r.capturedAt) && window == old(window) && locked == old(locked)
      ensures AppendDone(old(Seen()), Seen(), r, codec.marshal(r) + [NEWLINE], codec.writable(r),
                       ComesBack(codec, r), retentionHours, pruneEverySnapshots, disk, result, added)
    {
      ghost var v, line, comesBack := Seen(), codec.marshal(r) + [NEWLINE], ComesBack(codec, r);
      var writable := codec.writable(r);
      AdvanceTo(r.capturedAt);
      var rotation := OpenSegment(DayOf(r.capturedAt), r.capturedAt, disk);
      if rotation.Err? || !writable {
        StopsBeforeWriting(v, Seen(), r, line, writable, comesBack, retentionHours, pruneEverySnapshots, disk,
                           rotation);
        return Err(if rotation.Err? then rotation.error else MarshalFailed), [];
      }
      result, added := WriteAndCount(r, disk, rotation.value, v);
    }

    /** Append. `r` is the record as it is stored, `added` what reached the open file. */
    method Append(record: SnapshotRecord, now: int, disk: Disk)
      returns (result: Result<AppendResult, AppendError>, ghost added: Bytes, ghost r: SnapshotRecord)
      requires Valid()
      modifies this
      ensures r == NormalRecord(record.(capturedAt := CaptureTime(record, now)))
      ensures r.capturedAt == if record.capturedAt == -62_135_596_800_000_000_000 then now else record.capturedAt
      ensures Valid() && clock == Later(old(clock), r.capturedAt) && window == old(window) && locked == old(locked)
      ensures AppendDone(old(Seen()), Seen(), r, codec.marshal(r) + [NEWLINE], codec.writable(r),
                         ComesBack(codec, r), retentionHours, pruneEverySnapshots, disk, result, added)
      ensures result != Err(OpenFailed) ==>
                (Reaches(old(segments), segments, DayOf(r.capturedAt), added)
                 <==> !Unlinked(old(Seen()), DayOf(r.capturedAt)))
      ensures Unlinked(old(Seen()), DayOf(r.capturedAt)) ==> !Within(DayOf(r.capturedAt), window, clock)
      ensures KeepsOrder(old(orderly), codec, record, r, window, old(clock), disk) ==> orderly
    {
      var stored := NormalizeSnapshotRecord(record.(capturedAt := CaptureTime(record, now)));
      NormalKeepsTime(record.(capturedAt := CaptureTime(record, now)));
      r := stored;
      ghost var v, before := Seen(), clock;
      assert Kept(v.segments, v.written, window, before) && (v.file.Some? ==> v.file.value in v.written);
      result, added := AppendStored(stored, disk);
      ReachesSegment(v, Seen(), r, codec.marshal(r) + [NEWLINE], ComesBack(codec, r), retentionHours, result,
                     added,
                     window, before, clock);
      if KeepsOrder(v.orderly, codec, record, r, window, before, disk) {
        StaysOrderly(v, Seen(), codec, record.(capturedAt := CaptureTime(record, now)), window, before, retentionHours,
                     pruneEverySnapshots, disk, result, added);
      }
    }

    /** A prune around the writer: by the daemon at its start and every midnight, or by the prune command with
        a window of its own. */
    method PruneOutside(hours: int, now: int, listable: bool, stuck: set<Day>) returns (r: Result<nat, PruneError>)
      requires Valid()
      modifies this
      ensures Valid() && clock == Later(old(clock), now) && locked == old(locked)
      ensures window == if 1 <= hours < old(window) then hours else old(window)
      ensures Seen() == old(Seen()).(segments := segments)
      ensures segments == if hours >= 1 && listable then Pruned(old(segments), hours, now, stuck) else old(segments)
      ensures r == if hours < 1 then Err(BadRetention) else if !listable then Err(CannotList)
                   else Ok(|old(segments)| - |segments|)
      ensures r.Ok? && stuck == {} ==> NoneExpired(segments, hours, now)
      ensures Remains(old(segments), segments, DayOf(now), hours, now)
    {
      AdvanceTo(now);
      if hours < 1 {
        segments, r := PruneDataDirByAge(segments, hours, now, listable, stuck);
        return;
      }
      KeptByShorter(segments, written, window, clock, if hours < window then hours else window);
      window := if hours < window then hours else window;
      r := Prune(hours, now, listable, stuck);
    }

    method Close()
      requires Valid()
      modifies `file, `locked
      ensures Valid() && Seen() == old(Seen()).(file := None) && !locked
    {
      file, locked := None, false;
    }

    /** LoadIndex of the directory as it stands, whatever it holds: the refs of its segments, each reading as
        the record it was made from. If the directory is orderly these are one ref per retained record and
        nothing corrupt, in time order; and in append order if the records were appended in time order. */
    method LoadIndex() returns (loaded: Option<Loaded>)
      requires Valid()
      ensures loaded.Some? && loaded.value.files == |segments|
      ensures forall ref :: ref in loaded.value.refs <==>
                ref.day in segments && ref in Refs(Classifier(codec), ref.day, segments[ref.day])
      ensures orderly ==> ReadsBackByTime(codec, segments, loaded.value, Retained(log, segments.Keys))
      ensures orderly && TimesAscend(log) ==> ReadsBack(codec, segments, loaded.value, Retained(log, segments.Keys))
    {
      var files := ListSegmentFiles(segments);
      loaded := LoadIndexFromFiles(Classifier(codec), files);
      ListedRefs(codec, segments, files);
      if orderly {
        forall i | 0 <= i < |files|
          ensures segments[files[i].day] == Appended(Map(On(log, files[i].day), codec.marshal)) {
          assert Content(written, files[i].day) == written[files[i].day];
        }
        LoadsByTime(codec, segments, log, files, loaded.value);
      }
    }

    ghost method AdvanceTo(now: int)
      requires Valid()
      modifies `clock
      ensures Valid() && clock == Later(old(clock), now)
    {
      clock := Later(clock, now);
    }
  }

  // ---------- Over every run ----------

  /** Over every run of appends and prunes, whatever their times: what was written to a segment that is still
      within the shortest window any prune used is there in full. */
  lemma NothingYoungLost(w: SnapshotWriter, time: int)
    requires w.Valid() && DayOf(time) in w.written
    requires time >= w.clock - w.window * 3_600_000_000_000
    ensures DayOf(time) in w.segments && w.segments[DayOf(time)] == w.written[DayOf(time)]
  {
  }

  /** The open segment has its name at least until its day has expired. */
  lemma OpenSegmentIsThere(w: SnapshotWriter)
    requires w.Valid() && w.file.Some? && Within(w.file.value, w.window, w.clock)
    ensures w.file.value in w.segments && w.segments[w.file.value] == w.written[w.file.value]
  {
  }

  /** So every record still within the window is among the retained ones, which LoadIndex returns. */
  lemma YoungIsRetained(w: SnapshotWriter, r: SnapshotRecord)
    requires w.Valid() && w.orderly && r in w.log
    requires r.capturedAt >= w.clock - w.window * 3_600_000_000_000
    ensures r in Retained(w.log, w.segments.Keys)
  {
    RecordedDayWritten(w.codec, w.written, w.log, r);
    NothingYoungLost(w, r.capturedAt);
    FilterHas(w.log, OfDays(w.segments.Keys), r);
  }

  /** What an orderly writer leaves behind is what the next one calls orderly, with the retained records. */
  lemma RestartIsOrderly(w: SnapshotWriter)
    requires w.Valid() && w.orderly
    ensures FilledBy(w.codec, w.segments, Retained(w.log, w.segments.Keys))
  {
    RetainedFill(w.codec, w.segments, w.written, w.log);
  }

  /** A file system on which everything works. */
  const FINE := Disk(true, true, {}, None, true, {})

  lemma NothingInTheWay(v: View, w: View, r: SnapshotRecord, line: Bytes, comesBack: bool, hours: int,
                        result: Result<AppendResult, AppendError>, added: Bytes)
    requires line != [] && AppendDone(v, w, r, line, true, comesBack, hours, 0, FINE, result, added)
    ensures result.Ok? && w.file == Some(DayOf(r.capturedAt)) && w.log == v.log + [r]
    ensures w.segments.Keys == Opening(v, DayOf(r.capturedAt)).segments.Keys
    ensures v.file == None ==> w.segments.Keys == v.segments.Keys + {DayOf(r.capturedAt)}
  {
  }

  lemma StoredOnFirstDay(record: SnapshotRecord, now: int)
    requires 0 <= record.capturedAt < 86_400_000_000_000
    ensures record.(capturedAt := CaptureTime(record, now)) == record && DayOf(NormalRecord(record).capturedAt) == 0
  {
    NormalKeepsTime(record);
  }

  /** An append with nothing in the way, of a record of the first day. */
  method AppendSmoothly(w: SnapshotWriter, record: SnapshotRecord) returns (result: Result<AppendResult, AppendError>)
    requires w.Valid() && w.pruneEverySnapshots == 0 && w.codec.writable(NormalRecord(record))
    requires 0 <= record.capturedAt < 86_400_000_000_000
    modifies w
    ensures w.Valid() && result.Ok? && w.file == Some(0) && w.window == old(w.window)
    ensures w.log == old(w.log) + [NormalRecord(record)]
    ensures old(w.file) == Some(0) ==> w.segments.Keys == old(w.segments).Keys
    ensures old(w.file) == None ==> w.segments.Keys == old(w.segments).Keys + {0}
  {
    ghost var v := w.Seen();
    ghost var added, r;
    StoredOnFirstDay(record, 0);
    result, added, r := w.Append(record, 0, FINE);
    NothingInTheWay(v, w.Seen(), r, w.codec.marshal(r) + [NEWLINE], ComesBack(w.codec, r), w.retentionHours,
                    result, added);
  }

  /** An append that comes late can report success and be lost: the segment that is still open for its day was
      pruned before. */
  method LateAppendIsLost(codec: Codec, early: SnapshotRecord, late: SnapshotRecord)
    returns (w: SnapshotWriter, result: Result<AppendResult, AppendError>)
    requires codec.writable(NormalRecord(early)) && codec.writable(NormalRecord(late))
    requires 0 <= early.capturedAt <= late.capturedAt < 86_400_000_000_000
    ensures fresh(w) && w.Valid() && result.Ok?
    ensures NormalRecord(late) in w.log && w.segments == map[]
  {
    w := new SnapshotWriter(codec, 1, 0, map[], [], 0);
    result := AppendSmoothly(w, early);
    var pruned := w.PruneOutside(1, 3 * 86_400_000_000_000, true, {});
    assert Expired(0, 1, 3 * 86_400_000_000_000) && w.segments.Keys == {};
    result := AppendSmoothly(w, late);
  }
}

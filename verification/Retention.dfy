/** Pruning old segments, and what appends and prunes keep of a directory: internal/history/prune.go and
    internal/history/writer.go. A directory is a map from day to bytes; days have 24 hours, times are
    nanoseconds. */
module Retention {
  import opened Wrappers
  import opened Sequences
  import opened Sorting
  import opened Sums
  import opened LineLog
  import opened Records
  import opened SnapshotLog
  import opened SnapshotRoundTrip

  type Segments = map<Day, Bytes>

  /** The segment ended before the cutoff. */
  predicate Expired(day: Day, hours: int, now: int) {
    (day + 1) * 86_400_000_000_000 < now - hours * 3_600_000_000_000
  }

  lemma ExpiredIsPast(day: Day, hours: int, now: int)
    requires hours >= 0 && Expired(day, hours, now)
    ensures day < DayOf(now)
  {
  }

  // ---------- Pruning ----------

  datatype PruneError = BadRetention | CannotList

  predicate Stays(d: Day, hours: int, now: int, stuck: set<Day>) {
    d == DayOf(now) || !Expired(d, hours, now) || d in stuck
  }

  function Pruned(segments: Segments, hours: int, now: int, stuck: set<Day>): Segments {
    map d | d in segments && Stays(d, hours, now, stuck) :: segments[d]
  }

  method ListDays<V>(segments: map<Day, V>) returns (days: seq<Day>)
    ensures forall i, j :: 0 <= i < j < |days| ==> days[i] < days[j]
    ensures forall d :: d in days <==> d in segments
  {
    var listed := InSomeOrder(segments.Keys);
    var less := (a: Day, b: Day) => a < b;
    SortAscending(listed, less);
    SameElements(listed, Sort(listed, less));
    days := Sort(listed, less);
    assert forall i, j :: 0 <= i < j < |days| ==> less(days[i], days[j]);
  }

  /** PruneDataDirByAge; `stuck` are the segments whose removal fails. */
  method PruneDataDirByAge(segments: Segments, retentionHours: int, now: int, listable: bool, stuck: set<Day>)
    returns (left: Segments, result: Result<nat, PruneError>)
    ensures retentionHours < 1 ==> left == segments && result == Err(BadRetention)
    ensures retentionHours >= 1 && !listable ==> left == segments && result == Err(CannotList)
    ensures retentionHours >= 1 && listable ==>
              left == Pruned(segments, retentionHours, now, stuck) && result == Ok(|segments| - |left|)
    ensures retentionHours >= 1 && listable ==>
              var cutoff := now - retentionHours * 3_600_000_000_000;
              forall d :: d in segments ==>
                (d in left <==>
                   d == DayOf(now) || d in stuck || d * 86_400_000_000_000 + 86_400_000_000_000 >= cutoff)
  {
    left := segments;
    if retentionHours < 1 {
      return left, Err(BadRetention);
    }
    if !listable {
      return left, Err(CannotList);
    }
    var removed;
    ghost var goes, files := (d: Day) => !Stays(d, retentionHours, now, stuck), [];
    left, removed, files := RemoveExpired(segments, DayOf(now), (d: Day) => Expired(d, retentionHours, now), stuck,
                                          goes);
    WithoutIsPruned(segments, files, goes, retentionHours, now, stuck);
    result := Ok(removed);
  }

  function Without<V>(segments: map<Day, V>, files: seq<Day>, goes: Day -> bool): map<Day, V> {
    if files == [] then segments
    else
      var left, last := Without(segments, files[..|files| - 1], goes), files[|files| - 1];
      if goes(last) then left - {last} else left
  }

  lemma {:induction false} WithoutHas<V>(segments: map<Day, V>, files: seq<Day>, goes: Day -> bool, d: Day)
    ensures var left := Without(segments, files, goes);
            && (d in left <==> d in segments && !(d in files && goes(d)))
            && (d in left ==> left[d] == segments[d])
  {
    if files != [] {
      WithoutHas(segments, files[..|files| - 1], goes, d);
      assert files == files[..|files| - 1] + [files[|files| - 1]];
    }
  }

  lemma OneMoreFile<V>(segments: map<Day, V>, files: seq<Day>, k: nat, goes: Day -> bool)
    requires k < |files| && (forall d :: d in files ==> d in segments)
    requires forall i, j :: 0 <= i < j < |files| ==> files[i] < files[j]
    ensures var left := Without(segments, files[..k], goes);
            && files[k] in left
            && Without(segments, files[..k + 1], goes) == if goes(files[k]) then left - {files[k]} else left
  {
    assert files[..k + 1][..k] == files[..k];
    WithoutHas(segments, files[..k], goes, files[k]);
    assert files[k] in files && files[k] !in files[..k];
  }

  /** The removal loop; which segments have expired is passed in. */
  method RemoveExpired<V>(segments: map<Day, V>, currentSegment: Day, expired: Day -> bool, stuck: set<Day>,
                          ghost goes: Day -> bool)
    returns (left: map<Day, V>, removed: nat, ghost files: seq<Day>)
    requires forall d :: goes(d) <==> d != currentSegment && expired(d) && d !in stuck
    ensures left == Without(segments, files, goes) && forall d :: d in segments ==> d in files
    ensures removed == |segments| - |left|
  {
    left, removed := segments, 0;
    var listed := ListDays(segments);
    for k := 0 to |listed|
      invariant left == Without(segments, listed[..k], goes)
      invariant |left| + removed == |segments|
    {
      var d := listed[k];
      OneMoreFile(segments, listed, k, goes);
      if d == currentSegment {
        continue;
      }
      if expired(d) {
        if d !in stuck {
          left := left - {d};
          removed := removed + 1;
        }
      }
    }
    assert listed[..|listed|] == listed;
    files := listed;
  }

  lemma WithoutIsPruned(segments: Segments, files: seq<Day>, goes: Day -> bool, hours: int, now: int, stuck: set<Day>)
    requires forall d :: d in segments ==> d in files
    requires forall d :: goes(d) <==> !Stays(d, hours, now, stuck)
    ensures Without(segments, files, goes) == Pruned(segments, hours, now, stuck)
  {
    var left, pruned := Without(segments, files, goes), Pruned(segments, hours, now, stuck);
    forall d: Day ensures d in left <==> d in pruned
                  ensures d in left ==> left[d] == segments[d] {
      WithoutHas(segments, files, goes, d);
      assert goes(d) <==> !Stays(d, hours, now, stuck);
    }
    assert left.Keys == pruned.Keys;
  }

  /** If removals succeed, no segment that ended before the cutoff remains. */
  lemma PruneLeavesNoneExpired(segments: Segments, hours: int, now: int)
    requires hours >= 0
    ensures forall d :: d in Pruned(segments, hours, now, {}) ==>
              d * 86_400_000_000_000 + 86_400_000_000_000 >= now - hours * 3_600_000_000_000
  {
    forall d | d in Pruned(segments, hours, now, {})
      ensures d * 86_400_000_000_000 + 86_400_000_000_000 >= now - hours * 3_600_000_000_000
    {
      if Expired(d, hours, now) { ExpiredIsPast(d, hours, now); }
    }
  }

  /** What a prune removes had ended before the cutoff, and is not the current segment. */
  lemma PruneRemovesOnlyExpired(segments: Segments, hours: int, now: int, stuck: set<Day>, d: Day)
    requires d in segments && d !in Pruned(segments, hours, now, stuck)
    ensures d * 86_400_000_000_000 + 86_400_000_000_000 < now - hours * 3_600_000_000_000 && d != DayOf(now)
  {
  }

  /** Exactly the expired segments can go: anything else stays, unchanged. */
  lemma PruneKeepsTheRest(segments: Segments, hours: int, now: int, stuck: set<Day>, d: Day)
    requires d in segments
    requires d * 86_400_000_000_000 + 86_400_000_000_000 >= now - hours * 3_600_000_000_000 || d == DayOf(now)
    ensures d in Pruned(segments, hours, now, stuck) && Pruned(segments, hours, now, stuck)[d] == segments[d]
  {
  }

  // ---------- What the directory keeps ----------

  function Content(segments: Segments, day: Day): Bytes {
    if day in segments then segments[day] else []
  }

  /** Opening a segment creates it if it is not there. */
  function WithDay(segments: Segments, day: Day): Segments {
    segments[day := Content(segments, day)]
  }

  /** Bytes reach a segment as long as it has its name. */
  function Grown(segments: Segments, day: Day, bytes: Bytes): Segments {
    if day in segments then segments[day := segments[day] + bytes] else segments
  }

  /** A segment that was there is gone. */
  predicate Gone(segments: Segments, written: Segments, day: Day) {
    day in written && day !in segments
  }

  /** `written` is all that was ever written, day by day; `window` is the shortest window that any prune
      used. A segment is there in full or has expired. */
  ghost predicate Kept(segments: Segments, written: Segments, window: int, clock: int) {
    && (forall d :: d in segments ==> d in written)
    && (forall d :: d in written && !Expired(d, window, clock) ==> d in segments && segments[d] == written[d])
  }

  lemma KeptByPrune(segments: Segments, written: Segments, window: int, clock: int, hours: int, now: int,
                    stuck: set<Day>)
    requires Kept(segments, written, window, clock) && window <= hours && now <= clock
    ensures Kept(Pruned(segments, hours, now, stuck), written, window, clock)
  {
    forall d | d in segments && d !in Pruned(segments, hours, now, stuck) ensures Expired(d, window, clock) {
    }
  }

  lemma KeptByShorter(segments: Segments, written: Segments, window: int, clock: int, shorter: int)
    requires Kept(segments, written, window, clock) && shorter <= window
    ensures Kept(segments, written, shorter, clock)
  {
  }

  lemma KeptByOpening(segments: Segments, written: Segments, window: int, clock: int, day: Day)
    requires Kept(segments, written, window, clock)
    ensures Kept(WithDay(segments, day), WithDay(written, day), window, clock)
  {
  }

  lemma KeptByWrite(segments: Segments, written: Segments, window: int, clock: int, day: Day, bytes: Bytes)
    requires Kept(segments, written, window, clock)
    ensures Kept(Grown(segments, day, bytes), Grown(written, day, bytes), window, clock)
  {
  }

  // ---------- The log ----------

  /** The segments were filled by these records alone, each on its own line. */
  ghost predicate FilledBy(codec: Codec, written: Segments, log: seq<SnapshotRecord>) {
    && AllReturn(Classifier(codec), codec.marshal, log)
    && forall d :: Content(written, d) == Appended(Map(On(log, d), codec.marshal))
  }

  /** And the segments that are there are as they were written. */
  ghost predicate Orderly(codec: Codec, segments: Segments, written: Segments, log: seq<SnapshotRecord>) {
    && FilledBy(codec, written, log)
    && forall d :: d in segments ==> d in written && segments[d] == written[d]
  }

  /** The record's line comes back as the record. */
  ghost predicate ComesBack(codec: Codec, r: SnapshotRecord) {
    Returns(Classifier(codec), codec.marshal, r)
  }

  lemma OrderlyByOpening(codec: Codec, segments: Segments, written: Segments, log: seq<SnapshotRecord>, day: Day)
    requires Orderly(codec, segments, written, log) && !Gone(segments, written, day)
    ensures Orderly(codec, WithDay(segments, day), WithDay(written, day), log)
  {
    assert forall d :: Content(WithDay(written, day), d) == Content(written, d);
  }

  lemma NothingGrown(segments: Segments, day: Day)
    ensures Grown(segments, day, []) == segments
  {
    assert day in segments ==> segments[day] + [] == segments[day];
  }

  lemma FilledByOneMore(codec: Codec, written: Segments, log: seq<SnapshotRecord>, r: SnapshotRecord, day: Day)
    requires FilledBy(codec, written, log) && ComesBack(codec, r) && day == DayOf(r.capturedAt) && day in written
    ensures FilledBy(codec, Grown(written, day, codec.marshal(r) + [NEWLINE]), log + [r])
  {
    var after := Grown(written, day, codec.marshal(r) + [NEWLINE]);
    forall d ensures Content(after, d) == Appended(Map(On(log + [r], d), codec.marshal)) {
      ContentOneMore(codec, written, log, r, day, d);
    }
  }

  lemma OrderlyByWrite(codec: Codec, segments: Segments, written: Segments, log: seq<SnapshotRecord>,
                       r: SnapshotRecord, day: Day)
    requires Orderly(codec, segments, written, log)
    requires ComesBack(codec, r) && day == DayOf(r.capturedAt) && day in written
    ensures var line := codec.marshal(r) + [NEWLINE];
            Orderly(codec, Grown(segments, day, line), Grown(written, day, line), log + [r])
  {
    FilledByOneMore(codec, written, log, r, day);
  }

  lemma ContentOneMore(codec: Codec, written: Segments, log: seq<SnapshotRecord>, r: SnapshotRecord, day: Day, d: Day)
    requires DayOf(r.capturedAt) == day && day in written
    requires Content(written, d) == Appended(Map(On(log, d), codec.marshal))
    ensures Content(Grown(written, day, codec.marshal(r) + [NEWLINE]), d)
         == Appended(Map(On(log + [r], d), codec.marshal))
  {
    FilterAppend(log, r, OfDay(d));
    if d == day {
      MapAppend(On(log, d), r, codec.marshal);
    }
  }

  // ---------- Starting again ----------

  lemma OnRetained(log: seq<SnapshotRecord>, days: set<Day>, day: Day)
    ensures On(Retained(log, days), day) == if day in days then On(log, day) else []
  {
    if day in days {
      FilterTwice(log, OfDays(days), OfDay(day), OfDay(day));
    } else {
      FilterTwice(log, OfDays(days), OfDay(day), (r: SnapshotRecord) => false);
      FilterNone(log, (r: SnapshotRecord) => false);
    }
  }

  /** What prunes have left of an orderly directory was filled by the retained records alone. So a writer
      that opens it again goes on as orderly as before. */
  lemma RetainedFill(codec: Codec, segments: Segments, written: Segments, log: seq<SnapshotRecord>)
    requires Orderly(codec, segments, written, log)
    ensures FilledBy(codec, segments, Retained(log, segments.Keys))
  {
    var kept := Retained(log, segments.Keys);
    forall r | r in kept ensures r in log { FilterHas(log, OfDays(segments.Keys), r); }
    assert AllReturn(Classifier(codec), codec.marshal, kept) by {
      assert forall r :: r in log ==> Returns(Classifier(codec), codec.marshal, r);
    }
    forall d ensures Content(segments, d) == Appended(Map(On(kept, d), codec.marshal)) {
      OnRetained(log, segments.Keys, d);
      assert d in segments ==> Content(written, d) == segments[d];
    }
  }

  /** A day that has records was written to. */
  lemma RecordedDayWritten(codec: Codec, written: Segments, log: seq<SnapshotRecord>, r: SnapshotRecord)
    requires FilledBy(codec, written, log) && r in log
    ensures DayOf(r.capturedAt) in written
  {
    var day := DayOf(r.capturedAt);
    FilterHas(log, OfDay(day), r);
    assert Content(written, day) != [];
  }

}

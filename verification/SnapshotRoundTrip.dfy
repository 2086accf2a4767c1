/** What an index over intact segments holds: one ref per record, in the order of the records. The record
    type is a parameter; `encode` gives the line of a record without its newline. */
module SnapshotRoundTrip {
  import opened Wrappers
  import opened Sequences
  import opened Sorting
  import opened Sums
  import opened LineIndex
  import opened LineLog
  import opened Records
  import opened SnapshotLog

  function DayOf(time: int): Day {
    time / 86_400_000_000_000
  }

  /** A day lasts 24 hours, in nanoseconds. */
  lemma DayIs(time: int, day: Day)
    ensures DayOf(time) == day <==> day * 86_400_000_000_000 <= time < day * 86_400_000_000_000 + 86_400_000_000_000
  {
  }

  function OfDay(day: Day): SnapshotRecord -> bool {
    (r: SnapshotRecord) => DayOf(r.capturedAt) == day
  }

  function OfDays(days: set<Day>): SnapshotRecord -> bool {
    (r: SnapshotRecord) => DayOf(r.capturedAt) in days
  }

  /** The records of one day. */
  function On(log: seq<SnapshotRecord>, day: Day): seq<SnapshotRecord> {
    Filter(log, OfDay(day))
  }

  /** The records of the given days. */
  function Retained(log: seq<SnapshotRecord>, days: set<Day>): seq<SnapshotRecord> {
    Filter(log, OfDays(days))
  }

  ghost predicate TimesAscend(log: seq<SnapshotRecord>) {
    forall i, j :: 0 <= i < j < |log| ==> log[i].capturedAt <= log[j].capturedAt
  }

  /** A line that comes back as its record. */
  ghost predicate Returns(classify: Bytes -> Kind, encode: SnapshotRecord -> Bytes, r: SnapshotRecord) {
    NEWLINE !in encode(r) && classify(encode(r) + [NEWLINE]) == Good(r)
  }

  ghost predicate AllReturn(classify: Bytes -> Kind, encode: SnapshotRecord -> Bytes, log: seq<SnapshotRecord>) {
    forall i :: 0 <= i < |log| ==> Returns(classify, encode, log[i])
  }

  /** The ref is the one of the record, and the record is what stands at its offset. */
  ghost predicate RefFor(classify: Bytes -> Kind, file: Bytes, ref: SnapshotRef, r: SnapshotRecord) {
    && ref == RefOf(DayOf(r.capturedAt), ref.offset, r)
    && LineStart(file, ref.offset) && classify(LineAt(file, ref.offset)) == Good(r)
  }

  ghost predicate RefsFor(classify: Bytes -> Kind, segments: map<Day, Bytes>, refs: seq<SnapshotRef>,
                          log: seq<SnapshotRecord>) {
    && |refs| == |log|
    && forall i :: 0 <= i < |refs| ==>
         refs[i].day in segments && RefFor(classify, segments[refs[i].day], refs[i], log[i])
  }

  /** Line by line, the file holds these records. */
  ghost predicate Holds(classify: Bytes -> Kind, lines: seq<Bytes>, log: seq<SnapshotRecord>) {
    |lines| == |log| && forall i :: 0 <= i < |lines| ==> classify(lines[i]) == Good(log[i])
  }

  lemma AppendedHolds(classify: Bytes -> Kind, encode: SnapshotRecord -> Bytes, log: seq<SnapshotRecord>)
    requires AllReturn(classify, encode, log)
    ensures AllIntact(classify, Map(log, encode))
    ensures Holds(classify, Terminated(Map(log, encode)), log)
  {
    var payloads, lines := Map(log, encode), Terminated(Map(log, encode));
    forall i | 0 <= i < |log| ensures Intact(classify, payloads[i]) && classify(lines[i]) == Good(log[i]) {
      assert Returns(classify, encode, log[i]);
      assert payloads[i] == encode(log[i]) && lines[i] == payloads[i] + [NEWLINE];
    }
  }

  /** One segment: a ref for every record that was appended to it, in that order. */
  lemma SegmentRoundTrip(classify: Bytes -> Kind, encode: SnapshotRecord -> Bytes, day: Day, log: seq<SnapshotRecord>,
                         file: Bytes)
    requires AllReturn(classify, encode, log) && file == Appended(Map(log, encode))
    requires forall i :: 0 <= i < |log| ==> DayOf(log[i].capturedAt) == day
    ensures |Refs(classify, day, file)| == |log| && CorruptCount(classify, file) == 0
    ensures forall i :: 0 <= i < |log| ==> RefFor(classify, file, Refs(classify, day, file)[i], log[i])
  {
    AppendedHolds(classify, encode, log);
    SplitAppended(Map(log, encode));
    NoneCorrupt(classify, Map(log, encode));
    IndexOfAll(Len, Emit(classify, day), Split(file), 0);
    forall i | 0 <= i < |log| ensures RefFor(classify, file, Refs(classify, day, file)[i], log[i]) {
      EntryIs(classify, day, file, i, log[i]);
    }
  }

  lemma EntryIs(classify: Bytes -> Kind, day: Day, file: Bytes, i: nat, r: SnapshotRecord)
    requires forall j :: 0 <= j < |Split(file)| ==> Emits(Emit(classify, day), Split(file)[j])
    requires i < |Split(file)| == |Refs(classify, day, file)|
    requires classify(Split(file)[i]) == Good(r) && DayOf(r.capturedAt) == day
    ensures RefFor(classify, file, Refs(classify, day, file)[i], r)
  {
    var offset := EntryFound(file, Emit(classify, day), i);
    assert Emit(classify, day)(Split(file)[i], offset) == Some(RefOf(day, offset, r));
  }

  /** The latest day's records are the end of the retained ones. */
  lemma {:induction false} LatestDayLast(log: seq<SnapshotRecord>, days: set<Day>, latest: Day)
    requires TimesAscend(log) && latest in days && forall d :: d in days ==> d <= latest
    ensures Retained(log, days) == Retained(log, days - {latest}) + On(log, latest)
  {
    if log != [] {
      var front, last := log[..|log| - 1], log[|log| - 1];
      LatestDayLast(front, days, latest);
      if DayOf(last.capturedAt) < latest {
        FilterNone(front, OfDay(latest));
      }
    }
  }

  /** In any order, the retained records are those of one day and those of the others. */
  lemma {:induction false} OneDayApart(log: seq<SnapshotRecord>, days: set<Day>, day: Day)
    requires day in days
    ensures multiset(Retained(log, days)) == multiset(Retained(log, days - {day})) + multiset(On(log, day))
  {
    if log != [] {
      OneDayApart(log[..|log| - 1], days, day);
    }
  }

  lemma OnAre(log: seq<SnapshotRecord>, day: Day)
    ensures forall i :: 0 <= i < |On(log, day)| ==> On(log, day)[i] in log && DayOf(On(log, day)[i].capturedAt) == day
  {
    forall i | 0 <= i < |On(log, day)| ensures On(log, day)[i] in log && DayOf(On(log, day)[i].capturedAt) == day {
      FilterHas(log, OfDay(day), On(log, day)[i]);
    }
  }

  lemma {:induction false} RetainedAscends(log: seq<SnapshotRecord>, days: set<Day>)
    requires TimesAscend(log)
    ensures TimesAscend(Retained(log, days))
    ensures forall i :: 0 <= i < |Retained(log, days)| ==> Retained(log, days)[i] in log
  {
    if log != [] {
      RetainedAscends(log[..|log| - 1], days);
    }
  }

  ghost function DaysIn(files: seq<Segment>): set<Day> {
    set i | 0 <= i < |files| :: files[i].day
  }

  lemma DaysInAppend(front: seq<Segment>, last: Segment)
    requires DaysAscend(front + [last])
    ensures DaysIn(front + [last]) - {last.day} == DaysIn(front)
    ensures last.day in DaysIn(front + [last])
    ensures forall d :: d in DaysIn(front + [last]) ==> d <= last.day
  {
    var all := front + [last];
    assert all[|front|] == last;
    forall d | d in DaysIn(all) ensures d <= last.day && (d != last.day ==> d in DaysIn(front)) {
      var i :| 0 <= i < |all| && all[i].day == d;
      assert i < |front| ==> all[i] == front[i];
    }
    forall d | d in DaysIn(front) ensures d in DaysIn(all) && d != last.day {
      var i :| 0 <= i < |front| && front[i].day == d;
      assert all[i] == front[i];
    }
  }

  /** Each listed segment holds exactly the records of its day. */
  ghost predicate Faithful(files: seq<Segment>, segments: map<Day, Bytes>, encode: SnapshotRecord -> Bytes,
                           log: seq<SnapshotRecord>) {
    forall i :: 0 <= i < |files| ==>
      && files[i].day in segments && files[i].contents == Some(segments[files[i].day])
      && segments[files[i].day] == Appended(Map(On(log, files[i].day), encode))
  }

  lemma SegmentRefsFor(classify: Bytes -> Kind, encode: SnapshotRecord -> Bytes, log: seq<SnapshotRecord>,
                       segments: map<Day, Bytes>, s: Segment)
    requires AllReturn(classify, encode, log)
    requires s.day in segments && s.contents == Some(segments[s.day])
    requires segments[s.day] == Appended(Map(On(log, s.day), encode))
    ensures RefsFor(classify, segments, SegmentRefs(classify, s), On(log, s.day)) && SegmentCorrupt(classify, s) == 0
  {
    OnAre(log, s.day);
    assert AllReturn(classify, encode, On(log, s.day)) by {
      assert forall r :: r in log ==> Returns(classify, encode, r);
    }
    SegmentRoundTrip(classify, encode, s.day, On(log, s.day), segments[s.day]);
    RefsAscend(classify, s.day, segments[s.day]);
  }

  function OnDayOf(log: seq<SnapshotRecord>): Segment -> seq<SnapshotRecord> {
    (s: Segment) => On(log, s.day)
  }

  /** The records of the listed segments, segment by segment. */
  function ByDay(log: seq<SnapshotRecord>, files: seq<Segment>): seq<SnapshotRecord> {
    Flatten(files, OnDayOf(log))
  }

  lemma RefsForBoth(classify: Bytes -> Kind, segments: map<Day, Bytes>, a: seq<SnapshotRef>, la: seq<SnapshotRecord>,
                    b: seq<SnapshotRef>, lb: seq<SnapshotRecord>)
    requires RefsFor(classify, segments, a, la) && RefsFor(classify, segments, b, lb)
    ensures RefsFor(classify, segments, a + b, la + lb)
  {
  }

  /** All segments: a ref for every record, segment by segment. */
  lemma {:induction false} DirectoryRoundTrip(classify: Bytes -> Kind, encode: SnapshotRecord -> Bytes,
                                             log: seq<SnapshotRecord>, segments: map<Day, Bytes>,
                                             files: seq<Segment>)
    requires AllReturn(classify, encode, log) && Faithful(files, segments, encode, log)
    ensures RefsFor(classify, segments, AllRefs(classify, files), ByDay(log, files))
    ensures AllCorrupt(classify, files) == 0
  {
    if files != [] {
      var front, last := files[..|files| - 1], files[|files| - 1];
      DirectoryRoundTrip(classify, encode, log, segments, front);
      SegmentRefsFor(classify, encode, log, segments, last);
      RefsForBoth(classify, segments, AllRefs(classify, front), ByDay(log, front), SegmentRefs(classify, last),
                  On(log, last.day));
    }
  }

  /** These are the retained records, in their order if they came in time order. */
  lemma {:induction false} ByDayAreRetained(log: seq<SnapshotRecord>, files: seq<Segment>)
    requires DaysAscend(files)
    ensures multiset(ByDay(log, files)) == multiset(Retained(log, DaysIn(files)))
    ensures TimesAscend(log) ==> ByDay(log, files) == Retained(log, DaysIn(files))
  {
    if files == [] {
      assert DaysIn(files) == {};
      FilterNone(log, OfDays({}));
    } else {
      var front, last := files[..|files| - 1], files[|files| - 1];
      assert files == front + [last];
      ByDayAreRetained(log, front);
      DaysInAppend(front, last);
      OneDayApart(log, DaysIn(files), last.day);
      if TimesAscend(log) { LatestDayLast(log, DaysIn(files), last.day); }
    }
  }

  /** Refs of records in time order need no sorting. */
  lemma AlreadySorted(classify: Bytes -> Kind, segments: map<Day, Bytes>, refs: seq<SnapshotRef>,
                      log: seq<SnapshotRecord>)
    requires RefsFor(classify, segments, refs, log) && TimesAscend(log) && Grouped(refs)
    ensures Sort(refs, RefLess) == refs
  {
    forall i, j | 0 <= i < j < |refs| ensures RefLess(refs[i], refs[j]) {
      assert RefFor(classify, segments[refs[i].day], refs[i], log[i]);
      assert RefFor(classify, segments[refs[j].day], refs[j], log[j]);
    }
    SortOfAscending(refs, RefLess);
  }

  /** The record a ref stands for; `other` if it stands for none. */
  function Standing(classify: Bytes -> Kind, segments: map<Day, Bytes>, other: SnapshotRecord)
    : SnapshotRef -> SnapshotRecord
  {
    (ref: SnapshotRef) =>
      if ref.day !in segments then other
      else match classify(LineAt(segments[ref.day], ref.offset))
           case Good(r) => r
           case _ => other
  }

  /** The records in the order of their refs: a permutation of the given ones, in time order. */
  ghost predicate Arranges(records: seq<SnapshotRecord>, log: seq<SnapshotRecord>) {
    multiset(records) == multiset(log) && TimesAscend(records)
  }

  lemma RefsForAre(classify: Bytes -> Kind, segments: map<Day, Bytes>, refs: seq<SnapshotRef>,
                   log: seq<SnapshotRecord>, other: SnapshotRecord)
    requires RefsFor(classify, segments, refs, log)
    ensures Map(refs, Standing(classify, segments, other)) == log
  {
    forall i | 0 <= i < |refs| ensures Standing(classify, segments, other)(refs[i]) == log[i] {
      assert RefFor(classify, segments[refs[i].day], refs[i], log[i]);
    }
  }

  /** However refs for records are sorted, they are refs for the same records, arranged in time order. */
  lemma SortedRefsFor(classify: Bytes -> Kind, segments: map<Day, Bytes>, refs: seq<SnapshotRef>,
                      log: seq<SnapshotRecord>, sorted: seq<SnapshotRef>, other: SnapshotRecord)
    requires RefsFor(classify, segments, refs, log)
    requires Ascending(sorted, RefLess) && multiset(sorted) == multiset(refs)
    ensures var records := Map(sorted, Standing(classify, segments, other));
            RefsFor(classify, segments, sorted, records) && Arranges(records, log)
  {
    var f := Standing(classify, segments, other);
    var records := Map(sorted, f);
    RefsForAre(classify, segments, refs, log, other);
    MapPermutes(sorted, refs, f);
    SameElements(sorted, refs);
    forall i | 0 <= i < |sorted|
      ensures sorted[i].day in segments && RefFor(classify, segments[sorted[i].day], sorted[i], records[i])
    {
      assert sorted[i] in refs;
      var j :| 0 <= j < |refs| && refs[j] == sorted[i];
      assert RefFor(classify, segments[refs[j].day], refs[j], log[j]);
    }
    forall i, j | 0 <= i < j < |records| ensures records[i].capturedAt <= records[j].capturedAt {
      assert RefLess(sorted[i], sorted[j]);
    }
  }

  lemma LoadsArranged(classify: Bytes -> Kind, segments: map<Day, Bytes>, refs: seq<SnapshotRef>,
                      sorted: seq<SnapshotRef>, byDay: seq<SnapshotRecord>, retained: seq<SnapshotRecord>)
    requires RefsFor(classify, segments, refs, byDay) && multiset(byDay) == multiset(retained)
    requires Ascending(sorted, RefLess) && multiset(sorted) == multiset(refs)
    ensures exists records :: RefsFor(classify, segments, sorted, records) && Arranges(records, retained)
  {
    if byDay == [] {
      assert refs == [] && |multiset(sorted)| == |sorted|;
      assert RefsFor(classify, segments, sorted, []) && Arranges([], retained);
    } else {
      SortedRefsFor(classify, segments, refs, byDay, sorted, byDay[0]);
      assert Arranges(Map(sorted, Standing(classify, segments, byDay[0])), retained);
    }
  }

  /** The loaded index holds exactly one ref per retained record and nothing corrupt, arranged in time order;
      and so in append order if the records were appended in time order. */
  lemma LoadReturnsRetained(classify: Bytes -> Kind, encode: SnapshotRecord -> Bytes, log: seq<SnapshotRecord>,
                            segments: map<Day, Bytes>, files: seq<Segment>)
    requires AllReturn(classify, encode, log)
    requires DaysAscend(files) && Faithful(files, segments, encode, log)
    ensures AllCorrupt(classify, files) == 0
    ensures exists records :: RefsFor(classify, segments, Sort(AllRefs(classify, files), RefLess), records)
                              && Arranges(records, Retained(log, DaysIn(files)))
    ensures TimesAscend(log) ==>
              RefsFor(classify, segments, Sort(AllRefs(classify, files), RefLess), Retained(log, DaysIn(files)))
  {
    var refs, byDay := AllRefs(classify, files), ByDay(log, files);
    DirectoryRoundTrip(classify, encode, log, segments, files);
    ByDayAreRetained(log, files);
    LoadedIsOrdered(classify, files);
    LoadsArranged(classify, segments, refs, Sort(refs, RefLess), byDay, Retained(log, DaysIn(files)));
    if TimesAscend(log) {
      AllRefsGrouped(classify, files, if files == [] then 0 else files[|files| - 1].day + 1);
      RetainedAscends(log, DaysIn(files));
      AlreadySorted(classify, segments, refs, byDay);
    }
  }

  /** Reading through a ref of the index gives the record it stands for. */
  lemma RefReads(codec: Codec, segments: map<Day, Bytes>, refs: seq<SnapshotRef>, log: seq<SnapshotRecord>, i: nat)
    requires RefsFor(Classifier(codec), segments, refs, log) && i < |refs|
    ensures refs[i].day in segments
    ensures ReadSnapshot(codec, Some(segments[refs[i].day]), refs[i].offset) == Ok(log[i])
  {
    assert RefFor(Classifier(codec), segments[refs[i].day], refs[i], log[i]);
    ReadsGoodLines(codec, segments[refs[i].day], refs[i].offset, log[i]);
  }

  /** A lawful codec returns every writable normalised record whose aliases agree. */
  lemma LawfulReturns(codec: Codec, r: SnapshotRecord)
    requires Lawful(codec) && codec.writable(NormalRecord(r)) && AliasesAgree(r)
    ensures Returns(Classifier(codec), codec.marshal, NormalRecord(r))
  {
    Records.RoundTrip(codec, r);
    assert LawfulAt(codec, NormalRecord(r));
  }
}

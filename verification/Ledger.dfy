/** What torn writes cost: internal/history/writer.go and internal/history/reader.go over runs in which writes
    are cut short. A ledger says where each record of the log stands, if its line is its own. */
module Ledger {
  import opened Wrappers
  import opened Sequences
  import opened LineLog
  import opened Records
  import opened SnapshotLog
  import opened SnapshotRoundTrip
  import opened Retention
  import opened Writer

  /** `places` goes along with the log; `tears` counts the lines that were torn. */
  datatype Ledger = Ledger(places: seq<Option<nat>>, tears: nat)

  /** A whole line that reads as the record starts at the offset. */
  ghost predicate StandsAt(classify: Bytes -> Kind, file: Bytes, offset: nat, r: SnapshotRecord) {
    && LineStart(file, offset) && classify(LineAt(file, offset)) == Good(r)
    && offset + |LineAt(file, offset)| <= |file| && EndsLine(file[..offset + |LineAt(file, offset)|])
  }

  /** Whatever is appended, a whole line stands. */
  lemma StandsOn(classify: Bytes -> Kind, file: Bytes, offset: nat, r: SnapshotRecord, bytes: Bytes)
    requires StandsAt(classify, file, offset, r)
    ensures StandsAt(classify, file + bytes, offset, r)
  {
    var n := offset + |LineAt(file, offset)|;
    var more := file[n..] + bytes;
    assert file == file[..n] + file[n..] && file + bytes == file[..n] + more;
    LinesStay(file[..n], file[n..], offset);
    LinesStay(file[..n], more, offset);
    assert (file + bytes)[..n] == file[..n];
  }

  /** A line that is appended behind whole lines stands. */
  lemma NewLineStands(classify: Bytes -> Kind, encode: SnapshotRecord -> Bytes, file: Bytes, r: SnapshotRecord)
    requires EndsLine(file) && Returns(classify, encode, r)
    ensures StandsAt(classify, file + (encode(r) + [NEWLINE]), |file|, r)
  {
    var whole := file + (encode(r) + [NEWLINE]);
    PayloadFound(file, encode(r), []);
    assert whole + [] == whole && whole[..|whole|] == whole;
  }

  // ---------- The books ----------

  predicate IsMissing(place: Option<nat>) {
    place.None?
  }

  function Missing(places: seq<Option<nat>>): nat {
    |Filter(places, IsMissing)|
  }

  function TornDays(written: Segments): set<Day> {
    set d | d in written && !EndsLine(written[d])
  }

  ghost predicate AllPlaced(codec: Codec, written: Segments, log: seq<SnapshotRecord>, places: seq<Option<nat>>) {
    && |places| == |log|
    && forall i :: 0 <= i < |log| && places[i].Some? ==>
         StandsAt(Classifier(codec), Content(written, DayOf(log[i].capturedAt)), places[i].value, log[i])
  }

  /** Each placed record stands; every record that is not placed, and every torn end of a segment, has a tear
      of its own. */
  ghost predicate Books(codec: Codec, segments: Segments, written: Segments, log: seq<SnapshotRecord>, l: Ledger) {
    && (forall d :: d in segments ==> d in written && segments[d] == written[d])
    && AllPlaced(codec, written, log, l.places)
    && Missing(l.places) + |TornDays(written)| <= l.tears
  }

  /** Any directory will do to begin with; its torn segments count as tears. */
  lemma BooksBegin(codec: Codec, existing: Segments)
    ensures Books(codec, existing, existing, [], Ledger([], |TornDays(existing)|))
  {
  }

  lemma BooksByPrune(codec: Codec, segments: Segments, written: Segments, log: seq<SnapshotRecord>, l: Ledger,
                     left: Segments)
    requires Books(codec, segments, written, log, l)
    requires forall d :: d in left ==> d in segments && left[d] == segments[d]
    ensures Books(codec, left, written, log, l)
  {
  }

  lemma BooksByOpening(codec: Codec, segments: Segments, written: Segments, log: seq<SnapshotRecord>, l: Ledger,
                       day: Day)
    requires Books(codec, segments, written, log, l) && !Gone(segments, written, day)
    ensures Books(codec, WithDay(segments, day), WithDay(written, day), log, l)
  {
    assert TornDays(WithDay(written, day)) == TornDays(written);
    assert forall d :: Content(WithDay(written, day), d) == Content(written, d);
  }

  lemma PlacedOn(codec: Codec, written: Segments, log: seq<SnapshotRecord>, places: seq<Option<nat>>, day: Day,
                 bytes: Bytes)
    requires AllPlaced(codec, written, log, places)
    ensures AllPlaced(codec, Grown(written, day, bytes), log, places)
  {
    var after := Grown(written, day, bytes);
    forall i | 0 <= i < |log| && places[i].Some?
      ensures StandsAt(Classifier(codec), Content(after, DayOf(log[i].capturedAt)), places[i].value, log[i])
    {
      var d := DayOf(log[i].capturedAt);
      if d == day && d in written {
        StandsOn(Classifier(codec), written[d], places[i].value, log[i], bytes);
      }
    }
  }

  /** The place of a line that is appended to the day's segment. */
  function PlaceOf(written: Segments, day: Day): Option<nat> {
    if EndsLine(Content(written, day)) then Some(|Content(written, day)|) else None
  }

  lemma PlacedMore(codec: Codec, written: Segments, log: seq<SnapshotRecord>, places: seq<Option<nat>>,
                   r: SnapshotRecord, day: Day)
    requires AllPlaced(codec, written, log, places) && day == DayOf(r.capturedAt) && day in written
    requires ComesBack(codec, r)
    ensures AllPlaced(codec, Grown(written, day, codec.marshal(r) + [NEWLINE]), log + [r],
                      places + [PlaceOf(written, day)])
  {
    var line := codec.marshal(r) + [NEWLINE];
    PlacedOn(codec, written, log, places, day, line);
    if EndsLine(written[day]) { NewLineStands(Classifier(codec), codec.marshal, written[day], r); }
  }

  /** A whole line repairs a torn segment. */
  lemma TornByLine(written: Segments, day: Day, payload: Bytes)
    requires day in written
    ensures TornDays(Grown(written, day, payload + [NEWLINE])) == TornDays(written) - {day}
  {
    var file := written[day] + (payload + [NEWLINE]);
    assert file[|file| - 1] == NEWLINE;
  }

  lemma BooksByLine(codec: Codec, segments: Segments, written: Segments, log: seq<SnapshotRecord>, l: Ledger,
                    r: SnapshotRecord, day: Day)
    requires Books(codec, segments, written, log, l)
    requires day == DayOf(r.capturedAt) && day in written && ComesBack(codec, r)
    ensures var line := codec.marshal(r) + [NEWLINE];
            Books(codec, Grown(segments, day, line), Grown(written, day, line), log + [r],
                  l.(places := l.places + [PlaceOf(written, day)]))
  {
    PlacedMore(codec, written, log, l.places, r, day);
    TornByLine(written, day, codec.marshal(r));
    FilterAppend(l.places, PlaceOf(written, day), IsMissing);
    WithoutOne(TornDays(written), day);
  }

  lemma WithoutOne<T>(items: set<T>, item: T)
    ensures |items - {item}| == if item in items then |items| - 1 else |items|
  {
    if item !in items {
      assert items - {item} == items;
    }
  }

  lemma BooksByTear(codec: Codec, segments: Segments, written: Segments, log: seq<SnapshotRecord>, l: Ledger,
                    day: Day, bytes: Bytes)
    requires Books(codec, segments, written, log, l)
    ensures Books(codec, Grown(segments, day, bytes), Grown(written, day, bytes), log, l.(tears := l.tears + 1))
  {
    PlacedOn(codec, written, log, l.places, day, bytes);
    var torn := TornDays(Grown(written, day, bytes));
    assert torn <= TornDays(written) + {day};
    SmallerSet(torn, TornDays(written) + {day});
  }

  lemma {:induction false} SmallerSet<T>(a: set<T>, b: set<T>)
    requires a <= b
    ensures |a| <= |b|
  {
    if |a| > 0 {
      var d :| d in a;
      SmallerSet(a - {d}, b - {d});
      WithoutOne(a, d);
      WithoutOne(b, d);
    }
  }

  // ---------- An append, and the index ----------

  /** The ledger after an append that got `added` out of `line`. */
  function Entered(l: Ledger, written: Segments, day: Day, line: Bytes, added: Bytes): Ledger {
    if added == line then l.(places := l.places + [PlaceOf(written, day)])
    else if added == [] then l
    else l.(tears := l.tears + 1)
  }

  lemma BooksByWriting(codec: Codec, v: View, r: SnapshotRecord, day: Day, comesBack: bool, added: Bytes, l: Ledger)
    requires Books(codec, v.segments, v.written, v.log, l) && day == DayOf(r.capturedAt) && day in v.written
    requires added == codec.marshal(r) + [NEWLINE] ==> ComesBack(codec, r)
    ensures var line := codec.marshal(r) + [NEWLINE];
            var w := Writing(v, r, day, line, comesBack, added);
            Books(codec, w.segments, w.written, w.log, Entered(l, v.written, day, line, added))
  {
    var line := codec.marshal(r) + [NEWLINE];
    if added == line {
      BooksByLine(codec, v.segments, v.written, v.log, l, r, day);
    } else if added == [] {
      NothingGrown(v.segments, day);
      NothingGrown(v.written, day);
    } else {
      BooksByTear(codec, v.segments, v.written, v.log, l, day, added);
    }
  }

  lemma BooksByAppend(codec: Codec, v: View, w: View, r: SnapshotRecord, comesBack: bool, hours: int,
                      result: Result<AppendResult, AppendError>, added: Bytes, l: Ledger)
    requires Books(codec, v.segments, v.written, v.log, l) && !Gone(v.segments, v.written, DayOf(r.capturedAt))
    requires v.file.Some? ==> v.file.value in v.written
    requires Appending(v, w, r, codec.marshal(r) + [NEWLINE], comesBack, hours, result, added)
    requires added == codec.marshal(r) + [NEWLINE] ==> ComesBack(codec, r)
    ensures Books(codec, w.segments, w.written, w.log,
                  Entered(l, v.written, DayOf(r.capturedAt), codec.marshal(r) + [NEWLINE], added))
  {
    var day := DayOf(r.capturedAt);
    if result != Err(OpenFailed) {
      var o := Opening(v, day);
      if v.file != Some(day) { BooksByOpening(codec, v.segments, v.written, v.log, l, day); }
      BooksByWriting(codec, o, r, day, comesBack, added, l);
      var full := Writing(o, r, day, codec.marshal(r) + [NEWLINE], comesBack, added);
      BooksByPrune(codec, full.segments, full.written, full.log,
                   Entered(l, v.written, day, codec.marshal(r) + [NEWLINE], added), w.segments);
    }
  }

  /** Every record of the log whose segment is there is listed and read back, but for at most one per tear. */
  ghost predicate AllButMissing(codec: Codec, segments: Segments, loaded: Loaded, log: seq<SnapshotRecord>, l: Ledger) {
    && |l.places| == |log| && Missing(l.places) <= l.tears
    && forall i :: 0 <= i < |log| && l.places[i].Some? && DayOf(log[i].capturedAt) in segments ==>
         var day := DayOf(log[i].capturedAt);
         && RefOf(day, l.places[i].value, log[i]) in loaded.refs
         && ReadSnapshot(codec, Some(segments[day]), l.places[i].value) == Ok(log[i])
  }

  lemma BooksAreLoaded(codec: Codec, segments: Segments, written: Segments, log: seq<SnapshotRecord>, l: Ledger,
                       loaded: Loaded)
    requires Books(codec, segments, written, log, l)
    requires forall ref :: ref in loaded.refs <==>
               ref.day in segments && ref in Refs(Classifier(codec), ref.day, segments[ref.day])
    ensures AllButMissing(codec, segments, loaded, log, l)
  {
    forall i | 0 <= i < |log| && l.places[i].Some? && DayOf(log[i].capturedAt) in segments
      ensures var day := DayOf(log[i].capturedAt);
              && RefOf(day, l.places[i].value, log[i]) in loaded.refs
              && ReadSnapshot(codec, Some(segments[day]), l.places[i].value) == Ok(log[i])
    {
      var day, offset := DayOf(log[i].capturedAt), l.places[i].value;
      assert Content(written, day) == segments[day];
      ReadsGoodLines(codec, segments[day], offset, log[i]);
      IndexedExactlyReadable(codec, day, segments[day], RefOf(day, offset, log[i]));
    }
  }
}

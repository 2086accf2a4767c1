/** Replaying what the daemon recorded: the cursor of internal/tui/history_app.go over the index of a directory
    that internal/history/writer.go filled. */
module Replay {
  import opened Wrappers
  import opened Sequences
  import opened Records
  import opened SnapshotLog
  import opened Navigation
  import opened HistoryApp
  import SnapshotRoundTrip
  import Retention
  import Writer
  import Daemon

  /** Reading a ref from the directory. */
  function ReaderOf(codec: Codec, segments: Retention.Segments): Reader {
    (ref: SnapshotRef) =>
      if ref.day !in segments then None
      else match ReadSnapshot(codec, Some(segments[ref.day]), ref.offset)
           case Ok(r) => Some(r)
           case Err(_) => None
  }

  /** The record has rows on the shown side. */
  function HasRows(direction: Direction): SnapshotRecord -> bool {
    (r: SnapshotRecord) => |Elements(if direction == Outgoing then r.outgoing else r.incoming)| > 0
  }

  /** The active refs are those of the records to keep, in the same order. */
  lemma {:induction false} ActiveAreKept<R, T>(refs: seq<R>, records: seq<T>, i: nat, count: R -> int, keep: T -> bool)
    requires i <= |refs| == |records|
    requires forall j :: 0 <= j < |refs| ==> (count(refs[j]) > 0 <==> keep(records[j]))
    ensures var indices, kept := ActiveIndices(refs, i, count), Filter(records[..i], keep);
            && |indices| == |kept|
            && forall k :: 0 <= k < |indices| ==> 0 <= indices[k] < i && records[indices[k]] == kept[k]
  {
    if i > 0 {
      ActiveAreKept(refs, records, i - 1, count, keep);
      assert records[..i] == records[..i - 1] + [records[i - 1]];
      FilterAppend(records[..i - 1], records[i - 1], keep);
    }
  }

  lemma RefsShowRows(codec: Codec, segments: Retention.Segments, loaded: Loaded, records: seq<SnapshotRecord>,
                     direction: Direction)
    requires Writer.ReadsBack(codec, segments, loaded, records)
    ensures |loaded.refs| == |records| && AllReadable(loaded.refs, ReaderOf(codec, segments))
    ensures forall i :: 0 <= i < |records| ==>
              && ReaderOf(codec, segments)(loaded.refs[i]) == Some(records[i])
              && (CountFor(direction)(loaded.refs[i]) > 0 <==> HasRows(direction)(records[i]))
  {
  }

  /** Over an index that reads back, the k-th snapshot that the cursor can stand on shows the k-th record that
      has rows. */
  lemma StandsOnRecord(codec: Codec, segments: Retention.Segments, loaded: Loaded, records: seq<SnapshotRecord>,
                       direction: Direction, c: Cursor, k: nat)
    requires Writer.ReadsBack(codec, segments, loaded, records)
    requires StandsAt(loaded.refs, CountFor(direction), ReaderOf(codec, segments), c, k)
    ensures var shown := Filter(records, HasRows(direction));
            k < |shown| == ActiveCount(loaded.refs, |loaded.refs|, CountFor(direction)) && c.record == Some(shown[k])
  {
    RefsShowRows(codec, segments, loaded, records, direction);
    ActiveAreKept(loaded.refs, records, |records|, CountFor(direction), HasRows(direction));
    assert records[..|records|] == records;
  }

  lemma SomeActive(codec: Codec, segments: Retention.Segments, loaded: Loaded, records: seq<SnapshotRecord>,
                   direction: Direction)
    requires Writer.ReadsBack(codec, segments, loaded, records) && Filter(records, HasRows(direction)) != []
    ensures exists i :: ActiveAt(loaded.refs, i, CountFor(direction))
  {
    RefsShowRows(codec, segments, loaded, records, direction);
    var r := Filter(records, HasRows(direction))[0];
    FilterHas(records, HasRows(direction), r);
    var i :| 0 <= i < |records| && records[i] == r;
    assert ActiveAt(loaded.refs, i, CountFor(direction));
  }

  /** Replaying an index that reads back: from the oldest snapshot on, pressing next shows exactly the records
      that have rows, one after the other, until the last. */
  lemma ReplayShows(codec: Codec, segments: Retention.Segments, loaded: Loaded, records: seq<SnapshotRecord>,
                    direction: Direction, before: Cursor, times: nat)
    requires Writer.ReadsBack(codec, segments, loaded, records) && Filter(records, HasRows(direction)) != []
    ensures loaded.refs != []
    ensures var shown, count := Filter(records, HasRows(direction)), CountFor(direction);
            var read := ReaderOf(codec, segments);
            var start := Landing(loaded.refs, OldestTarget(loaded.refs, true, count), read, before);
            Presses(loaded.refs, count, read, start, times).record
            == Some(shown[Capped(times, |shown|)])
  {
    var count, read := CountFor(direction), ReaderOf(codec, segments);
    RefsShowRows(codec, segments, loaded, records, direction);
    SomeActive(codec, segments, loaded, records, direction);
    PressesVisitAll(loaded.refs, count, read, before, times);
    var start := Landing(loaded.refs, OldestTarget(loaded.refs, true, count), read, before);
    StandsOnRecord(codec, segments, loaded, records, direction, Presses(loaded.refs, count, read, start, times),
                   Capped(times, ActiveCount(loaded.refs, |loaded.refs|, count)));
  }

  /** What is on the screen: of the records with rows the one with this number, or the last, and its number. */
  ghost predicate OnScreen(record: Option<SnapshotRecord>, shown: seq<SnapshotRecord>, times: nat, pos: nat,
                           total: nat) {
    shown != [] ==>
      && record == Some(shown[Capped(times, |shown|)])
      && pos == Capped(times, |shown|) + 1 && total == |shown|
  }

  lemma StandsOnScreen(codec: Codec, segments: Retention.Segments, loaded: Loaded, records: seq<SnapshotRecord>,
                       direction: Direction, c: Cursor, times: nat, pos: nat, total: nat)
    requires Writer.ReadsBack(codec, segments, loaded, records)
    requires total == ActiveCount(loaded.refs, |loaded.refs|, CountFor(direction)) > 0
    requires pos == Capped(times, total) + 1
    requires StandsAt(loaded.refs, CountFor(direction), ReaderOf(codec, segments), c, Capped(times, total))
    ensures OnScreen(c.record, Filter(records, HasRows(direction)), times, pos, total)
  {
    StandsOnRecord(codec, segments, loaded, records, direction, c, Capped(times, total));
  }

  /** Going to the oldest snapshot and pressing next so many times. */
  method StepThrough(app: HistoryApp, codec: Codec, segments: Retention.Segments, ghost loaded: Loaded,
                     ghost records: seq<SnapshotRecord>, times: nat)
    returns (pos: nat, total: nat)
    requires Writer.ReadsBack(codec, segments, loaded, records)
    requires app.refs == loaded.refs && app.skipEmpty
    requires exists i :: ActiveAt(app.refs, i, CountFor(app.topDirection))
    modifies app
    ensures app.topDirection == old(app.topDirection)
    ensures OnScreen(app.currentRecord, Filter(records, HasRows(app.topDirection)), times, pos, total)
  {
    pos, total := app.OldestThenNext(times, ReaderOf(codec, segments));
    StandsOnScreen(codec, segments, loaded, records, app.topDirection, app.At(), times, pos, total);
  }

  /** Loading the index into the replay, going to the oldest snapshot and pressing next so many times. */
  method ReplayIndex(app: HistoryApp, codec: Codec, segments: Retention.Segments, loaded: Loaded,
                     ghost records: seq<SnapshotRecord>, times: nat)
    returns (pos: nat, total: nat)
    requires Writer.ReadsBack(codec, segments, loaded, records)
    requires app.skipEmpty && app.rangeBegin == None && app.rangeEnd == None
    modifies app
    ensures app.topDirection == old(app.topDirection)
    ensures OnScreen(app.currentRecord, Filter(records, HasRows(app.topDirection)), times, pos, total)
  {
    pos, total := 0, 0;
    ghost var target := app.ReloadIndex(true, Some(loaded.refs), ReaderOf(codec, segments));
    FilterAll(loaded.refs, InRange((r: SnapshotRef) => r.capturedAt, None, None));
    var idx, skipped, anyActive := FindNextNonEmptyIndex(loaded.refs, 0, CountFor(app.topDirection));
    if anyActive {
      pos, total := StepThrough(app, codec, segments, loaded, records, times);
    } else if Filter(records, HasRows(app.topDirection)) != [] {
      SomeActive(codec, segments, loaded, records, app.topDirection);
    }
  }

  /** From the daemon to the screen: after a run in time order without torn writes, a replay of the directory
      that begins at the oldest snapshot and goes on by next shows exactly the retained records with rows, in
      append order, each as it was stored and with its number. */
  method RunThenReplay(w: Writer.SnapshotWriter, o: Daemon.Options, events: seq<Daemon.Event>, ghost last: int,
                       app: HistoryApp, times: nat)
    returns (ghost retained: seq<SnapshotRecord>, ghost outcomes: seq<Option<SnapshotRecord>>, pos: nat, total: nat)
    requires w.Valid() && w.pruneEverySnapshots == 0 && w.orderly && Lawful(w.codec)
    requires Daemon.AllTimely(events, w.clock, w.window) && Daemon.TearsIn(events) == 0
    requires Daemon.InOrderSoFar(w.log, events, last)
    requires app.skipEmpty && app.rangeBegin == None && app.rangeEnd == None
    modifies w, app
    ensures Daemon.AllRecorded(o, w.codec, events, outcomes)
    ensures retained == SnapshotRoundTrip.Retained(old(w.log) + Daemon.Somes(outcomes), w.segments.Keys)
    ensures OnScreen(app.currentRecord, Filter(retained, HasRows(app.topDirection)), times, pos, total)
  {
    var loaded;
    loaded, outcomes := Daemon.RunThenLoad(w, o, events, last);
    retained := SnapshotRoundTrip.Retained(old(w.log) + Daemon.Somes(outcomes), w.segments.Keys);
    pos, total := ReplayIndex(app, w.codec, w.segments, loaded.value, retained, times);
  }
}

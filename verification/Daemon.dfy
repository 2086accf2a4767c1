/** The daemon's loop: capture on every tick, prune at start and at midnight: cmd/daemon.go. Collecting the
    connections, their bandwidth and the load of the system is a parameter. */
module Daemon {
  import opened Wrappers
  import opened Sequences
  import opened Records
  import opened SnapshotLog
  import opened LineLog
  import SnapshotRoundTrip
  import opened Retention
  import opened Writer
  import opened Ledger
  import Lookup
  import Aggregate
  import Text
  import Sums

  datatype Options = Options(iface: string, topLimit: int, selfPID: int, version: string)

  /** What is collected for one snapshot. */
  datatype Sample = Sample(at: int, conns: seq<Lookup.Connection>, listenPorts: set<int>, sampleSeconds: real,
                           bandwidthAvailable: bool, cpuCores: real, rssBytes: nat)

  /** What the loop wakes up for: a tick, whose collection may fail, or the time to prune. */
  datatype Event =
    | Tick(sample: Option<Sample>, now: int, disk: Disk)
    | PruneAt(at: int, listable: bool, stuck: set<Day>)

  /** The record is built of the sample: both sides aggregated and cut at the limit, the aliases left alone. */
  ghost predicate BuiltFrom(o: Options, s: Sample, r: SnapshotRecord) {
    && r.capturedAt == s.at && r.iface == o.iface && r.topLimitPerSide == o.topLimit && r.topLimit == 0
    && r.sampleSeconds == s.sampleSeconds && r.bandwidthAvailable == s.bandwidthAvailable && r.groups == None
    && r.version == o.version && r.cpuCores == s.cpuCores && r.rssBytes == s.rssBytes
    && r.incoming.Some? && Aggregate.IsBestOf(r.incoming.value, IncomingSide(o, s), o.topLimit)
    && r.outgoing.Some? && Aggregate.IsBestOf(r.outgoing.value, OutgoingSide(o, s), o.topLimit)
  }

  type Side = map<Aggregate.AggregateKey, Aggregate.Group<string>>

  function IncomingSide(o: Options, s: Sample): Side {
    var conns := Filter(s.conns, Aggregate.ListensFor(s.listenPorts, o.selfPID));
    Aggregate.Groups(Aggregate.Items(conns, Aggregate.Incoming))
  }

  function OutgoingSide(o: Options, s: Sample): Side {
    var conns := Filter(s.conns, Aggregate.DialsOutFor(s.listenPorts, o.selfPID));
    Aggregate.Groups(Aggregate.Items(conns, Aggregate.Outgoing))
  }

  /** The record as Append stores it. */
  function Stored(r: SnapshotRecord, now: int): SnapshotRecord {
    NormalRecord(r.(capturedAt := CaptureTime(r, now)))
  }

  /** What is stored of a record that the daemon built: the record itself, with the time of the capture, and
      the unwritten limit and groups filled in. */
  ghost predicate StoredAs(r: SnapshotRecord, now: int, stored: SnapshotRecord) {
    stored == r.(capturedAt := CaptureTime(r, now), topLimit := r.topLimitPerSide, groups := r.incoming)
  }

  lemma BuiltIsStored(o: Options, s: Sample, r: SnapshotRecord, now: int)
    requires BuiltFrom(o, s, r)
    ensures StoredAs(r, now, Stored(r, now))
  {
    var timed := r.(capturedAt := CaptureTime(r, now));
    NormalRecordKeeps(timed);
    Aggregate.AggregatedRowsSettled(r.incoming.value, IncomingSide(o, s), o.topLimit);
    Aggregate.AggregatedRowsSettled(r.outgoing.value, OutgoingSide(o, s), o.topLimit);
    SettledRowsStay(r.incoming.value);
    SettledRowsStay(r.outgoing.value);
  }

  predicate Own(o: Options, c: Lookup.Connection) {
    o.selfPID > 0 && c.pid == o.selfPID
  }

  /** The connections of a sample that a row of the record stands for: by peer, process and the port of the
      service, which is the local one of incoming and the remote one of outgoing connections. */
  function Behind(o: Options, s: Sample, row: SnapshotGroup, incoming: bool): Lookup.Connection -> bool {
    (c: Lookup.Connection) =>
      && !Own(o, c) && (c.localPort in s.listenPorts <==> incoming)
      && Text.NormalizeFlowIP(c.remoteIP) == row.peerIP
      && row.port == (if incoming then c.localPort else c.remotePort)
      && row.procName == (if Text.TrimSpace(c.procName) == "" then "-" else Text.TrimSpace(c.procName))
  }

  /** Every integer column of a row of the record is the sum over exactly those. */
  lemma RecordHoldsTheSample(o: Options, s: Sample, r: SnapshotRecord, row: SnapshotGroup, m: Aggregate.Measure)
    requires BuiltFrom(o, s, r)
    ensures row in r.incoming.value ==>
              Aggregate.OfRow(m)(row) == Sums.Sum(Filter(s.conns, Behind(o, s, row, true)), Aggregate.OfConnection(m))
    ensures row in r.outgoing.value ==>
              Aggregate.OfRow(m)(row) == Sums.Sum(Filter(s.conns, Behind(o, s, row, false)), Aggregate.OfConnection(m))
  {
    var listens := Aggregate.ListensFor(s.listenPorts, o.selfPID);
    var dials := Aggregate.DialsOutFor(s.listenPorts, o.selfPID);
    if row in r.incoming.value {
      SideHolds(s.conns, listens, Aggregate.Incoming, Behind(o, s, row, true), o.topLimit, r.incoming.value, row, m);
    }
    if row in r.outgoing.value {
      SideHolds(s.conns, dials, Aggregate.Outgoing, Behind(o, s, row, false), o.topLimit, r.outgoing.value, row, m);
    }
  }

  lemma SideHolds(conns: seq<Lookup.Connection>, onSide: Lookup.Connection -> bool,
                  direction: Aggregate.Direction, behind: Lookup.Connection -> bool, limit: int,
                  rows: seq<SnapshotGroup>, row: SnapshotGroup, m: Aggregate.Measure)
    requires Aggregate.IsBestOf(rows, Aggregate.Groups(Aggregate.Items(Filter(conns, onSide), direction)), limit)
    requires row in rows
    requires forall c :: c in conns ==> (behind(c) <==> onSide(c) && Aggregate.InRow(row, direction)(c))
    ensures Aggregate.OfRow(m)(row) == Sums.Sum(Filter(conns, behind), Aggregate.OfConnection(m))
  {
    var groups := Aggregate.Groups(Aggregate.Items(Filter(conns, onSide), direction));
    var all :| Aggregate.IsRanking(all, groups) && rows == Aggregate.Capped(all, limit);
    Aggregate.RowHoldsItsConnections(Filter(conns, onSide), direction, all, row, m);
    FilterTwice(conns, onSide, Aggregate.InRow(row, direction), behind);
  }

  /** Records that the daemon builds have aliases that agree, so a lawful codec returns what was stored. */
  lemma DaemonRecordsReturn(codec: Codec, o: Options, s: Sample, r: SnapshotRecord, now: int)
    requires BuiltFrom(o, s, r)
    ensures AliasesAgree(r)
    ensures Lawful(codec) && codec.writable(Stored(r, now)) ==>
              SnapshotRoundTrip.Returns(Classifier(codec), codec.marshal, Stored(r, now))
  {
    Aggregate.AggregatedRowsAgree(r.incoming.value, IncomingSide(o, s), o.topLimit);
    Aggregate.AggregatedRowsAgree(r.outgoing.value, OutgoingSide(o, s), o.topLimit);
    if Lawful(codec) && codec.writable(Stored(r, now)) {
      SnapshotRoundTrip.LawfulReturns(codec, r.(capturedAt := CaptureTime(r, now)));
    }
  }

  method Build(o: Options, s: Sample) returns (r: SnapshotRecord)
    ensures BuiltFrom(o, s, r)
  {
    var incoming, outgoing := Aggregate.SplitConnectionsByDirection(s.conns, s.listenPorts, o.selfPID);
    var incomingGroups := Aggregate.AggregateConnectionsByDirection(incoming, Aggregate.Incoming, o.topLimit);
    var outgoingGroups := Aggregate.AggregateConnectionsByDirection(outgoing, Aggregate.Outgoing, o.topLimit);
    r := SnapshotRecord(s.at, o.iface, o.topLimit, 0, s.sampleSeconds, s.bandwidthAvailable, Some(incomingGroups),
                        Some(outgoingGroups), None, o.version, s.cpuCores, s.rssBytes);
  }

  // ---------- A run ----------

  function CaptureAt(s: Sample, now: int): int {
    if s.at == ZERO_TIME then now else s.at
  }

  predicate NoneLater(log: seq<SnapshotRecord>, last: int) {
    forall i :: 0 <= i < |log| ==> log[i].capturedAt <= last
  }

  /** When the event happens to the directory, if it does. */
  function TimeOf(e: Event): Option<int> {
    match e
    case Tick(None, _, _) => None
    case Tick(Some(s), now, _) => Some(CaptureAt(s, now))
    case PruneAt(at, _, _) => Some(at)
  }

  function Advanced(clock: int, e: Event): int {
    match TimeOf(e)
    case None => clock
    case Some(at) => Later(clock, at)
  }

  predicate IsCapture(e: Event) {
    e.Tick? && e.sample.Some?
  }

  predicate InWindow(at: int, clock: int, window: int) {
    clock - window * 3_600_000_000_000 <= at
  }

  /** A capture comes no more than the window after what happened to the directory before. */
  predicate Timely(e: Event, clock: int, window: int) {
    IsCapture(e) ==> InWindow(TimeOf(e).value, clock, window)
  }

  ghost predicate AllTimely(events: seq<Event>, clock: int, window: int) {
    events != [] ==> Timely(events[0], clock, window) && AllTimely(events[1..], Advanced(clock, events[0]), window)
  }

  /** The captures come in time order; `last` is the time of the last record before them. */
  ghost predicate CapturesAscend(events: seq<Event>, last: int) {
    events != [] ==>
      if IsCapture(events[0]) then
        last <= TimeOf(events[0]).value && CapturesAscend(events[1..], TimeOf(events[0]).value)
      else CapturesAscend(events[1..], last)
  }

  predicate Tears(e: Event) {
    IsCapture(e) && Torn(e.disk)
  }

  /** How many writes are torn. */
  function TearsIn(events: seq<Event>): nat {
    |Filter(events, Tears)|
  }

  function Somes<T>(outcomes: seq<Option<T>>): seq<T> {
    Picked(outcomes, (outcome: Option<T>) => outcome)
  }

  /** What an event adds to the log: the record built of its sample, with all its rows; it is missing only if the
      segment does not open, the record cannot be marshalled or the write is cut short. */
  ghost predicate Recorded(o: Options, codec: Codec, e: Event, outcome: Option<SnapshotRecord>) {
    match e
    case PruneAt(_, _, _) => outcome == None
    case Tick(None, _, _) => outcome == None
    case Tick(Some(s), now, disk) =>
      exists r :: BuiltFrom(o, s, r) && (outcome.Some? ==> StoredAs(r, now, outcome.value))
                  && (disk.opens && disk.shortWrite.None? && codec.writable(Stored(r, now)) ==> outcome.Some?)
  }

  ghost predicate AllRecorded(o: Options, codec: Codec, events: seq<Event>, outcomes: seq<Option<SnapshotRecord>>) {
    |outcomes| == |events| && forall i :: 0 <= i < |events| ==> Recorded(o, codec, events[i], outcomes[i])
  }

  lemma WhatIsLogged(v: View, w: View, r: SnapshotRecord, line: Bytes, writable: bool, comesBack: bool, hours: int,
                     disk: Disk, result: Result<AppendResult, AppendError>, added: Bytes)
    requires line != [] && AppendDone(v, w, r, line, writable, comesBack, hours, 0, disk, result, added)
    ensures w.log == v.log + if added == line then [r] else []
    ensures disk.opens && disk.shortWrite.None? && writable ==> added == line
    ensures added == line ==> writable
    ensures added == [] || added == line || Torn(disk)
  {
  }

  lemma IsRecorded(o: Options, codec: Codec, s: Sample, now: int, disk: Disk, record: SnapshotRecord, complete: bool)
    requires BuiltFrom(o, s, record)
    requires disk.opens && disk.shortWrite.None? && codec.writable(Stored(record, now)) ==> complete
    ensures Recorded(o, codec, Tick(Some(s), now, disk), if complete then Some(Stored(record, now)) else None)
    ensures Stored(record, now).capturedAt == CaptureAt(s, now)
  {
    BuiltIsStored(o, s, record, now);
  }

  /** The ledger goes on with as many more tears. */
  predicate GoesOnWith(l: Ledger, m: Ledger, tears: nat) {
    l.places <= m.places && m.tears <= l.tears + tears
  }

  ghost predicate BooksOf(codec: Codec, v: View, l: Ledger) {
    Books(codec, v.segments, v.written, v.log, l)
  }

  /** The books after the capture, of a record that comes back. */
  lemma CaptureBooks(codec: Codec, v: View, w: View, r: SnapshotRecord, writable: bool, window: int, clock: int,
                     hours: int, disk: Disk, result: Result<AppendResult, AppendError>, added: Bytes, l: Ledger)
    requires BooksOf(codec, v, l) && Kept(v.segments, v.written, window, clock)
    requires v.file.Some? ==> v.file.value in v.written
    requires InWindow(r.capturedAt, clock, window) && (writable ==> ComesBack(codec, r))
    requires AppendDone(v, w, r, codec.marshal(r) + [NEWLINE], writable, ComesBack(codec, r), hours, 0, disk,
                        result, added)
    ensures BooksOf(codec, w, Entered(l, v.written, SnapshotRoundTrip.DayOf(r.capturedAt),
                                      codec.marshal(r) + [NEWLINE], added))
  {
    assert !Gone(v.segments, v.written, SnapshotRoundTrip.DayOf(r.capturedAt));
    WhatIsLogged(v, w, r, codec.marshal(r) + [NEWLINE], writable, ComesBack(codec, r), hours, disk, result, added);
    BooksByAppend(codec, v, w, r, ComesBack(codec, r), hours, result, added, l);
  }

  /** The effect of a capture on the log, its order and its books. */
  ghost predicate Captured(o: Options, codec: Codec, s: Sample, now: int, disk: Disk, v: View, w: View, window: int,
                           clock: int, l: Ledger, outcome: Option<SnapshotRecord>, m: Ledger) {
    && Recorded(o, codec, Tick(Some(s), now, disk), outcome)
    && (outcome.Some? ==> outcome.value.capturedAt == CaptureAt(s, now))
    && w.log == v.log + (if outcome.Some? then [outcome.value] else [])
    && (v.orderly && Lawful(codec) && !Torn(disk) && InWindow(CaptureAt(s, now), clock, window) ==> w.orderly)
    && GoesOnWith(l, m, if Torn(disk) then 1 else 0)
    && (BooksOf(codec, v, l) && Lawful(codec) && InWindow(CaptureAt(s, now), clock, window) ==> BooksOf(codec, w, m))
  }

  lemma CaptureIsDone(o: Options, codec: Codec, s: Sample, now: int, disk: Disk, v: View, w: View, window: int,
                      clock: int, hours: int, l: Ledger, record: SnapshotRecord,
                      result: Result<AppendResult, AppendError>, added: Bytes)
    requires BuiltFrom(o, s, record) && Kept(v.segments, v.written, window, clock)
    requires v.file.Some? ==> v.file.value in v.written
    requires var r := Stored(record, now);
             && AppendDone(v, w, r, codec.marshal(r) + [NEWLINE], codec.writable(r), ComesBack(codec, r), hours, 0,
                           disk, result, added)
             && (KeepsOrder(v.orderly, codec, record, r, window, clock, disk) ==> w.orderly)
    ensures var r := Stored(record, now);
            var line := codec.marshal(r) + [NEWLINE];
            Captured(o, codec, s, now, disk, v, w, window, clock, l, if added == line then Some(r) else None,
                     Entered(l, v.written, SnapshotRoundTrip.DayOf(r.capturedAt), line, added))
  {
    var r := Stored(record, now);
    var line, writable := codec.marshal(r) + [NEWLINE], codec.writable(r);
    DaemonRecordsReturn(codec, o, s, record, now);
    WhatIsLogged(v, w, r, line, writable, ComesBack(codec, r), hours, disk, result, added);
    IsRecorded(o, codec, s, now, disk, record, added == line);
    if Lawful(codec) && InWindow(CaptureAt(s, now), clock, window) && BooksOf(codec, v, l) {
      CaptureBooks(codec, v, w, r, writable, window, clock, hours, disk, result, added, l);
    }
  }

  /** One capture with its record built and stored. */
  method Capture(w: SnapshotWriter, o: Options, s: Sample, now: int, disk: Disk, ghost l: Ledger)
    returns (ghost outcome: Option<SnapshotRecord>, ghost m: Ledger)
    requires w.Valid() && w.pruneEverySnapshots == 0
    modifies w
    ensures w.Valid() && w.window == old(w.window) && w.clock == Later(old(w.clock), CaptureAt(s, now))
    ensures Captured(o, w.codec, s, now, disk, old(w.Seen()), w.Seen(), w.window, old(w.clock), l, outcome, m)
  {
    ghost var v, clock := w.Seen(), w.clock;
    var record := Build(o, s);
    assert Kept(v.segments, v.written, w.window, clock) && (v.file.Some? ==> v.file.value in v.written);
    var result;
    ghost var added, r;
    result, added, r := w.Append(record, now, disk);
    ghost var line := w.codec.marshal(r) + [NEWLINE];
    NormalKeepsTime(record.(capturedAt := CaptureTime(record, now)));
    CaptureIsDone(o, w.codec, s, now, disk, v, w.Seen(), w.window, clock, w.retentionHours, l, record, result, added);
    outcome := if added == line then Some(r) else None;
    m := Entered(l, v.written, SnapshotRoundTrip.DayOf(r.capturedAt), line, added);
  }

  /** The effect of an event, at `clock`. */
  ghost predicate Handled(o: Options, codec: Codec, e: Event, v: View, w: View, window: int, clock: int, l: Ledger,
                          outcome: Option<SnapshotRecord>, m: Ledger) {
    && Recorded(o, codec, e, outcome)
    && (outcome.Some? ==> TimeOf(e) == Some(outcome.value.capturedAt) && IsCapture(e))
    && w.log == v.log + (if outcome.Some? then [outcome.value] else [])
    && (v.orderly && Lawful(codec) && !Tears(e) && Timely(e, clock, window) ==> w.orderly)
    && GoesOnWith(l, m, if Tears(e) then 1 else 0)
    && (BooksOf(codec, v, l) && Lawful(codec) && Timely(e, clock, window) ==> BooksOf(codec, w, m))
  }

  /** One turn of the loop. */
  method Handle(w: SnapshotWriter, o: Options, e: Event, ghost l: Ledger)
    returns (ghost outcome: Option<SnapshotRecord>, ghost m: Ledger)
    requires w.Valid() && w.pruneEverySnapshots == 0
    modifies w
    ensures w.Valid() && w.window == old(w.window) && w.clock == Advanced(old(w.clock), e)
    ensures Handled(o, w.codec, e, old(w.Seen()), w.Seen(), w.window, old(w.clock), l, outcome, m)
  {
    outcome, m := None, l;
    match e {
      case PruneAt(at, listable, stuck) =>
        var pruned := w.PruneOutside(w.retentionHours, at, listable, stuck);
      case Tick(None, _, _) =>
      case Tick(Some(s), now, disk) =>
        outcome, m := Capture(w, o, s, now, disk, l);
    }
  }

  // ---------- The loop ----------

  /** The loop has got through the first k events. */
  ghost predicate SoFar(o: Options, codec: Codec, events: seq<Event>, k: nat, outcomes: seq<Option<SnapshotRecord>>,
                        before: seq<SnapshotRecord>, log: seq<SnapshotRecord>) {
    && k <= |events| && AllRecorded(o, codec, events[..k], outcomes)
    && log == before + Somes(outcomes)
  }

  lemma OneMoreEvent(o: Options, codec: Codec, events: seq<Event>, k: nat, outcomes: seq<Option<SnapshotRecord>>,
                     before: seq<SnapshotRecord>, log: seq<SnapshotRecord>, outcome: Option<SnapshotRecord>)
    requires k < |events| && SoFar(o, codec, events, k, outcomes, before, log)
    requires Recorded(o, codec, events[k], outcome)
    ensures SoFar(o, codec, events, k + 1, outcomes + [outcome], before,
                  log + if outcome.Some? then [outcome.value] else [])
  {
    forall i | 0 <= i < k + 1 ensures Recorded(o, codec, events[..k + 1][i], (outcomes + [outcome])[i]) {
      assert i < k ==> Recorded(o, codec, events[..k][i], outcomes[i]);
    }
    SomesMore(before, outcomes, outcome);
  }

  lemma SomesMore<T>(before: seq<T>, outcomes: seq<Option<T>>, outcome: Option<T>)
    ensures before + Somes(outcomes + [outcome])
         == before + Somes(outcomes) + if outcome.Some? then [outcome.value] else []
  {
    assert (outcomes + [outcome])[..|outcomes|] == outcomes;
  }

  /** The log is in time order so far, and what is left goes on in time order. */
  ghost predicate InOrderSoFar(log: seq<SnapshotRecord>, left: seq<Event>, last: int) {
    SnapshotRoundTrip.TimesAscend(log) && NoneLater(log, last) && CapturesAscend(left, last)
  }

  lemma InOrderForOne(log: seq<SnapshotRecord>, left: seq<Event>, last: int, outcome: Option<SnapshotRecord>)
    requires left != [] && InOrderSoFar(log, left, last)
    requires outcome.Some? ==> IsCapture(left[0]) && TimeOf(left[0]) == Some(outcome.value.capturedAt)
    ensures InOrderSoFar(log + if outcome.Some? then [outcome.value] else [], left[1..],
                         if IsCapture(left[0]) then TimeOf(left[0]).value else last)
  {
  }

  /** What a run can hope to keep: the timing, the order of the directory, its books, the order of the log. */
  datatype Hopes = Hopes(timely: bool, orderly: bool, books: bool, inOrder: bool)

  ghost predicate Fulfilled(codec: Codec, v: View, clock: int, window: int, left: seq<Event>, tears: nat, latest: int,
                            l: Ledger, m: Ledger, h: Hopes) {
    && (h.timely ==> Lawful(codec) && AllTimely(left, clock, window))
    && (h.timely && h.orderly && tears == 0 ==> v.orderly)
    && (h.timely && h.books ==> BooksOf(codec, v, m))
    && (h.inOrder ==> InOrderSoFar(v.log, left, latest))
    && GoesOnWith(l, m, tears)
  }

  lemma FulfilledForOne(o: Options, codec: Codec, v: View, w: View, clock: int, window: int, left: seq<Event>,
                        tears: nat, latest: int, l: Ledger, m: Ledger, n: Ledger, h: Hopes,
                        outcome: Option<SnapshotRecord>)
    requires left != [] && Fulfilled(codec, v, clock, window, left, tears, latest, l, m, h)
    requires Handled(o, codec, left[0], v, w, window, clock, m, outcome, n)
    ensures Fulfilled(codec, w, Advanced(clock, left[0]), window, left[1..], tears + if Tears(left[0]) then 1 else 0,
                      if IsCapture(left[0]) then TimeOf(left[0]).value else latest, l, n, h)
  {
    if h.inOrder { InOrderForOne(v.log, left, latest, outcome); }
  }

  /** What the run hopes for at its start. */
  ghost function HopesFor(codec: Codec, v: View, clock: int, window: int, events: seq<Event>, last: int, l: Ledger)
    : Hopes
  {
    Hopes(Lawful(codec) && AllTimely(events, clock, window), v.orderly, BooksOf(codec, v, l),
          InOrderSoFar(v.log, events, last))
  }

  lemma TearsMore(events: seq<Event>, k: nat)
    requires k < |events|
    ensures TearsIn(events[..k + 1]) == TearsIn(events[..k]) + if Tears(events[k]) then 1 else 0
    ensures events[k..][0] == events[k] && events[k..][1..] == events[k + 1..]
  {
    assert events[..k + 1] == events[..k] + [events[k]];
    FilterAppend(events[..k], events[k], Tears);
  }

  /** The loop, for any sequence of events. */
  method Run(w: SnapshotWriter, o: Options, events: seq<Event>, ghost last: int, ghost l: Ledger)
    returns (ghost outcomes: seq<Option<SnapshotRecord>>, ghost m: Ledger)
    requires w.Valid() && w.pruneEverySnapshots == 0
    modifies w
    ensures w.Valid() && w.window == old(w.window)
    ensures AllRecorded(o, w.codec, events, outcomes) && w.log == old(w.log) + Somes(outcomes)
    ensures (old(w.orderly) && Lawful(w.codec) && AllTimely(events, old(w.clock), w.window)
             && TearsIn(events) == 0) ==> w.orderly
    ensures InOrderSoFar(old(w.log), events, last) ==> SnapshotRoundTrip.TimesAscend(w.log)
    ensures GoesOnWith(l, m, TearsIn(events))
    ensures (BooksOf(w.codec, old(w.Seen()), l) && Lawful(w.codec) && AllTimely(events, old(w.clock), w.window)) ==>
              BooksOf(w.codec, w.Seen(), m)
  {
    outcomes, m := [], l;
    ghost var latest, before := last, w.log;
    ghost var h := HopesFor(w.codec, w.Seen(), w.clock, w.window, events, last, l);
    assert events[0..] == events && events[..0] == [] && before + Somes(outcomes) == before;
    for i := 0 to |events|
      invariant w.Valid() && w.window == old(w.window)
      invariant SoFar(o, w.codec, events, i, outcomes, before, w.log)
      invariant Fulfilled(w.codec, w.Seen(), w.clock, w.window, events[i..], TearsIn(events[..i]), latest, l, m, h)
    {
      ghost var v, clock := w.Seen(), w.clock;
      TearsMore(events, i);
      ghost var outcome, n := Handle(w, o, events[i], m);
      OneMoreEvent(o, w.codec, events, i, outcomes, before, v.log, outcome);
      FulfilledForOne(o, w.codec, v, w.Seen(), clock, w.window, events[i..], TearsIn(events[..i]), latest, l, m, n, h,
                      outcome);
      outcomes, m := outcomes + [outcome], n;
      latest := if IsCapture(events[i]) then TimeOf(events[i]).value else latest;
    }
    assert events[..|events|] == events;
  }

  /** A run without torn writes from an orderly directory, and a look at what it left: exactly the retained
      records come back, each reading as it was stored, by their times; and in the order in which they were
      appended, those from before the run first, if that was the order of their times. */
  method RunThenLoad(w: SnapshotWriter, o: Options, events: seq<Event>, ghost last: int)
    returns (loaded: Option<Loaded>, ghost outcomes: seq<Option<SnapshotRecord>>)
    requires w.Valid() && w.pruneEverySnapshots == 0
    requires w.orderly && Lawful(w.codec) && AllTimely(events, w.clock, w.window) && TearsIn(events) == 0
    modifies w
    ensures w.Valid() && w.orderly && AllRecorded(o, w.codec, events, outcomes)
    ensures loaded.Some?
    ensures var retained := SnapshotRoundTrip.Retained(old(w.log) + Somes(outcomes), w.segments.Keys);
            && ReadsBackByTime(w.codec, w.segments, loaded.value, retained)
            && (InOrderSoFar(old(w.log), events, last) ==> ReadsBack(w.codec, w.segments, loaded.value, retained))
  {
    ghost var m;
    outcomes, m := Run(w, o, events, last, Ledger([], 0));
    loaded := w.LoadIndex();
  }

  /** A run with torn writes from any directory whose books are kept: of the records appended, every retained
      one is listed and reads as it was stored, but for at most one per tear. */
  method RunTornThenLoad(w: SnapshotWriter, o: Options, events: seq<Event>, ghost l: Ledger)
    returns (loaded: Option<Loaded>, ghost outcomes: seq<Option<SnapshotRecord>>, ghost m: Ledger)
    requires w.Valid() && w.pruneEverySnapshots == 0
    requires BooksOf(w.codec, w.Seen(), l) && Lawful(w.codec) && AllTimely(events, w.clock, w.window)
    modifies w
    ensures w.Valid() && BooksOf(w.codec, w.Seen(), m) && AllRecorded(o, w.codec, events, outcomes)
    ensures loaded.Some? && GoesOnWith(l, m, TearsIn(events))
    ensures AllButMissing(w.codec, w.segments, loaded.value, old(w.log) + Somes(outcomes), m)
  {
    outcomes, m := Run(w, o, events, 0, l);
    loaded := w.LoadIndex();
    BooksAreLoaded(w.codec, w.segments, w.written, w.log, m, loaded.value);
  }

  /** A daemon that starts again where another one has stopped: what it finds is orderly, with the retained
      records as its log, so that RunThenLoad applies to it in turn. */
  method Restart(w: SnapshotWriter, dataDir: string, retentionHours: int, start: Start, ghost now: int)
    returns (again: Result<SnapshotWriter, StartError>)
    requires w.Valid() && w.orderly
    ensures again.Ok? <==> dataDir != "" && start == Start(true, true, true)
    ensures again.Ok? ==>
              && again.value.Valid() && again.value.orderly && again.value.pruneEverySnapshots == 0
              && again.value.segments == w.segments && again.value.codec == w.codec && again.value.clock == now
              && again.value.log == SnapshotRoundTrip.Retained(w.log, w.segments.Keys)
  {
    RestartIsOrderly(w);
    again := SnapshotWriter.NewSnapshotWriter(w.codec, dataDir, retentionHours, 0, start, w.segments,
                                              SnapshotRoundTrip.Retained(w.log, w.segments.Keys), now);
  }
}

/** Counter samples become deltas and per-tuple rows: internal/collector/bandwidth_tracker.go and
    internal/collector/socket_bandwidth_tracker.go. Seconds and rates are reals. */
module Bandwidth {
  import opened Wrappers
  import opened Text
  import opened Sums

  datatype TupleBandwidth = TupleBandwidth(
    txBytesDelta: int, rxBytesDelta: int, totalBytesDelta: int,
    txBytesPerSec: real, rxBytesPerSec: real, totalBytesPerSec: real)

  datatype BandwidthSnapshot = BandwidthSnapshot(
    byTuple: map<FlowTuple, TupleBandwidth>, sampleSeconds: real, available: bool)

  datatype ConntrackFlow = ConntrackFlow(
    state: string, orig: FlowTuple, reply: FlowTuple, origBytes: int, replyBytes: int)

  datatype SocketCounter = SocketCounter(tuple: FlowTuple, bytesAcked: int, bytesReceived: int)

  /** A pair of byte counters, or of byte deltas, one per direction. */
  datatype Counters = Counters(up: int, down: int)

  /** One observed pair of counters; the key is a flow identifier or a socket's tuple. */
  datatype Reading<K> = Reading(key: K, counters: Counters)

  const MAX_DELTA_PER_FLOW := 12_500_000_000
  const NO_TRAFFIC := TupleBandwidth(0, 0, 0, 0.0, 0.0, 0.0)

  function ClampDelta(v: int): int {
    if v < 0 then 0 else if v > MAX_DELTA_PER_FLOW then 0 else v
  }

  // ---------- Deltas ----------

  /** The counters stored for the next sample; a key read twice keeps its last reading. */
  function LastReadings<K>(readings: seq<Reading<K>>): map<K, Counters> {
    if readings == [] then map[]
    else
      var r := readings[|readings| - 1];
      LastReadings(readings[..|readings| - 1])[r.key := r.counters]
  }

  /** Traffic since the previous sample; nothing for the first sample or a key not seen in it. */
  function Delta<K>(prev: Option<map<K, Counters>>, r: Reading<K>): Counters {
    if prev.Some? && r.key in prev.value then
      var p := prev.value[r.key];
      Counters(ClampDelta(r.counters.up - p.up), ClampDelta(r.counters.down - p.down))
    else Counters(0, 0)
  }

  /** What sample i is compared with. */
  function Previous<K>(samples: seq<seq<Reading<K>>>, i: nat): Option<map<K, Counters>>
    requires i <= |samples|
  {
    if i == 0 then None else Some(LastReadings(samples[i - 1]))
  }

  function KeyedUp<K(==)>(prev: Option<map<K, Counters>>, key: K): Reading<K> -> int {
    (r: Reading<K>) => if r.key == key then Delta(prev, r).up else 0
  }

  function KeyedDown<K(==)>(prev: Option<map<K, Counters>>, key: K): Reading<K> -> int {
    (r: Reading<K>) => if r.key == key then Delta(prev, r).down else 0
  }

  /** Everything reported for a key over the first n samples. */
  function Reported<K(==)>(samples: seq<seq<Reading<K>>>, key: K, n: nat): Counters
    requires n <= |samples|
  {
    if n == 0 then Counters(0, 0)
    else
      var before, prev := Reported(samples, key, n - 1), Previous(samples, n - 1);
      Counters(before.up + Sum(samples[n - 1], KeyedUp(prev, key)),
               before.down + Sum(samples[n - 1], KeyedDown(prev, key)))
  }

  function Rise(now: int, before: int): int {
    if now > before then now - before else 0
  }

  function Increment<K>(prev: Option<map<K, Counters>>, r: Reading<K>): Counters {
    if prev.Some? && r.key in prev.value then
      Counters(Rise(r.counters.up, prev.value[r.key].up), Rise(r.counters.down, prev.value[r.key].down))
    else Counters(0, 0)
  }

  function IncrementUp<K(==)>(prev: Option<map<K, Counters>>, key: K): Reading<K> -> int {
    (r: Reading<K>) => if r.key == key then Increment(prev, r).up else 0
  }

  function IncrementDown<K(==)>(prev: Option<map<K, Counters>>, key: K): Reading<K> -> int {
    (r: Reading<K>) => if r.key == key then Increment(prev, r).down else 0
  }

  /** The positive increments of a key between adjacent samples. */
  function Increments<K(==)>(samples: seq<seq<Reading<K>>>, key: K, n: nat): Counters
    requires n <= |samples|
  {
    if n == 0 then Counters(0, 0)
    else
      var before, prev := Increments(samples, key, n - 1), Previous(samples, n - 1);
      Counters(before.up + Sum(samples[n - 1], IncrementUp(prev, key)),
               before.down + Sum(samples[n - 1], IncrementDown(prev, key)))
  }

  /** Whatever the counters do, no more is reported than they rose between adjacent samples. */
  lemma {:induction false} NeverOverReports<K>(samples: seq<seq<Reading<K>>>, key: K, n: nat)
    requires n <= |samples|
    ensures Reported(samples, key, n).up <= Increments(samples, key, n).up
    ensures Reported(samples, key, n).down <= Increments(samples, key, n).down
  {
    if n > 0 {
      NeverOverReports(samples, key, n - 1);
      var prev := Previous(samples, n - 1);
      SumAtMost(samples[n - 1], KeyedUp(prev, key), IncrementUp(prev, key));
      SumAtMost(samples[n - 1], KeyedDown(prev, key), IncrementDown(prev, key));
    }
  }

  ghost predicate OnceAt<K>(readings: seq<Reading<K>>, key: K, at: nat) {
    at < |readings| && readings[at].key == key
    && forall i :: 0 <= i < |readings| && i != at ==> readings[i].key != key
  }

  ghost predicate PresentOnce<K>(readings: seq<Reading<K>>, key: K) {
    exists at: nat :: OnceAt(readings, key, at)
  }

  /** The counters of a key that was read exactly once. */
  ghost function CountersOf<K>(readings: seq<Reading<K>>, key: K): Counters
    requires PresentOnce(readings, key)
  {
    var at: nat :| OnceAt(readings, key, at);
    readings[at].counters
  }

  lemma {:induction false} LastReadingsMisses<K>(readings: seq<Reading<K>>, key: K)
    requires forall i :: 0 <= i < |readings| ==> readings[i].key != key
    ensures key !in LastReadings(readings)
  {
    if readings != [] { LastReadingsMisses(readings[..|readings| - 1], key); }
  }

  /** Reading `at` is the last one of its key. */
  ghost predicate LastAt<K>(readings: seq<Reading<K>>, key: K, at: nat) {
    at < |readings| && readings[at].key == key && forall i :: at < i < |readings| ==> readings[i].key != key
  }

  lemma {:induction false} LastReadingCounts<K>(readings: seq<Reading<K>>, key: K, at: nat)
    requires LastAt(readings, key, at)
    ensures key in LastReadings(readings) && LastReadings(readings)[key] == readings[at].counters
  {
    if at < |readings| - 1 { LastReadingCounts(readings[..|readings| - 1], key, at); }
  }

  lemma {:induction false} SumOfOne<T>(s: seq<T>, f: T -> int, at: nat)
    requires at < |s| && forall i :: 0 <= i < |s| && i != at ==> f(s[i]) == 0
    ensures Sum(s, f) == f(s[at])
  {
    if at < |s| - 1 {
      SumOfOne(s[..|s| - 1], f, at);
    } else {
      SumSame(s[..|s| - 1], f, _ => 0);
      SumZero(s[..|s| - 1]);
    }
  }

  lemma {:induction false} SumZero<T>(s: seq<T>)
    ensures Sum(s, (_: T) => 0) == 0
  {
    if s != [] {
      SumSame(s[..|s| - 1], (_: T) => 0, _ => 0);
      SumZero(s[..|s| - 1]);
      SumSame(s, (_: T) => 0, _ => 0);
    }
  }

  ghost predicate Steps<K>(samples: seq<seq<Reading<K>>>, key: K, i: nat)
    requires 0 < i < |samples|
    requires forall j :: 0 <= j < |samples| ==> PresentOnce(samples[j], key)
  {
    var now, before := CountersOf(samples[i], key), CountersOf(samples[i - 1], key);
    0 <= now.up - before.up <= MAX_DELTA_PER_FLOW && 0 <= now.down - before.down <= MAX_DELTA_PER_FLOW
  }

  lemma StepAddsUp<K>(before: seq<Reading<K>>, now: seq<Reading<K>>, key: K)
    requires PresentOnce(before, key) && PresentOnce(now, key)
    requires 0 <= CountersOf(now, key).up - CountersOf(before, key).up <= MAX_DELTA_PER_FLOW
    requires 0 <= CountersOf(now, key).down - CountersOf(before, key).down <= MAX_DELTA_PER_FLOW
    ensures Sum(now, KeyedUp(Some(LastReadings(before)), key)) == CountersOf(now, key).up - CountersOf(before, key).up
    ensures Sum(now, KeyedDown(Some(LastReadings(before)), key))
         == CountersOf(now, key).down - CountersOf(before, key).down
  {
    var at: nat :| OnceAt(now, key, at) && now[at].counters == CountersOf(now, key);
    var was: nat :| OnceAt(before, key, was) && before[was].counters == CountersOf(before, key);
    LastReadingCounts(before, key, was);
    SumOfOne(now, KeyedUp(Some(LastReadings(before)), key), at);
    SumOfOne(now, KeyedDown(Some(LastReadings(before)), key), at);
  }

  lemma FirstAddsNothing<K>(now: seq<Reading<K>>, key: K)
    requires PresentOnce(now, key)
    ensures Sum(now, KeyedUp(None, key)) == 0 && Sum(now, KeyedDown(None, key)) == 0
  {
    var at: nat :| OnceAt(now, key, at) && now[at].counters == CountersOf(now, key);
    SumOfOne(now, KeyedUp(None, key), at);
    SumOfOne(now, KeyedDown(None, key), at);
  }

  /** A key read once in every sample, with counters that never fall and never jump past the cap,
      is reported exactly its last reading minus its first. */
  lemma {:induction false} DeltasTelescope<K>(samples: seq<seq<Reading<K>>>, key: K, n: nat)
    requires 0 < n <= |samples|
    requires forall j :: 0 <= j < |samples| ==> PresentOnce(samples[j], key)
    requires forall i: nat :: 0 < i < |samples| ==> Steps(samples, key, i)
    ensures Reported(samples, key, n).up
         == CountersOf(samples[n - 1], key).up - CountersOf(samples[0], key).up
    ensures Reported(samples, key, n).down
         == CountersOf(samples[n - 1], key).down - CountersOf(samples[0], key).down
  {
    if n > 1 {
      DeltasTelescope(samples, key, n - 1);
      assert Steps(samples, key, n - 1);
      StepAddsUp(samples[n - 2], samples[n - 1], key);
    } else {
      assert Reported(samples, key, 0) == Counters(0, 0);
      FirstAddsNothing(samples[0], key);
    }
  }

  // ---------- Rows ----------

  /** Bytes that one reading adds to the row of one tuple. */
  datatype Contribution = Contribution(tuple: FlowTuple, tx: int, rx: int)

  predicate Counted(c: Contribution) {
    c.tuple.srcPort != 0 && c.tuple.dstPort != 0
  }

  function TxFor(t: FlowTuple): Contribution -> int {
    (c: Contribution) => if Counted(c) && c.tuple == t then c.tx else 0
  }

  function RxFor(t: FlowTuple): Contribution -> int {
    (c: Contribution) => if Counted(c) && c.tuple == t then c.rx else 0
  }

  /** The rate a delta amounts to; zero when no time has passed. */
  function PerSecond(sampleSec: real): int -> real {
    (delta: int) => if sampleSec > 0.0 then delta as real / sampleSec else 0.0
  }

  /** addTupleBandwidth; the rates are recomputed from the accumulated deltas. */
  function AddTupleBandwidth(rows: map<FlowTuple, TupleBandwidth>, c: Contribution, rate: int -> real)
    : map<FlowTuple, TupleBandwidth>
  {
    if c.tuple.srcPort == 0 || c.tuple.dstPort == 0 then rows
    else
      var current := if c.tuple in rows then rows[c.tuple] else NO_TRAFFIC;
      var tx, rx := current.txBytesDelta + c.tx, current.rxBytesDelta + c.rx;
      var total := current.totalBytesDelta + (c.tx + c.rx);
      rows[c.tuple := TupleBandwidth(tx, rx, total, rate(tx), rate(rx), rate(total))]
  }

  /** Each row holds the sums of the contributions to its tuple, and their rates over the interval. */
  ghost predicate RowFor(row: TupleBandwidth, cs: seq<Contribution>, t: FlowTuple, rate: int -> real) {
    && row.txBytesDelta == Sum(cs, TxFor(t))
    && row.rxBytesDelta == Sum(cs, RxFor(t))
    && row.totalBytesDelta == row.txBytesDelta + row.rxBytesDelta
    && row.txBytesPerSec == rate(row.txBytesDelta)
    && row.rxBytesPerSec == rate(row.rxBytesDelta)
    && row.totalBytesPerSec == rate(row.totalBytesDelta)
  }

  ghost predicate Touched(cs: seq<Contribution>, t: FlowTuple) {
    exists i :: 0 <= i < |cs| && Counted(cs[i]) && cs[i].tuple == t
  }

  ghost predicate RowsFor(rows: map<FlowTuple, TupleBandwidth>, cs: seq<Contribution>, rate: int -> real) {
    && (forall t :: t in rows <==> Touched(cs, t))
    && (forall t :: t in rows ==> RowFor(rows[t], cs, t, rate))
  }

  lemma {:induction false} NoContribution(cs: seq<Contribution>, t: FlowTuple)
    requires forall i :: 0 <= i < |cs| && Counted(cs[i]) ==> cs[i].tuple != t
    ensures Sum(cs, TxFor(t)) == 0 && Sum(cs, RxFor(t)) == 0
  {
    if cs != [] { NoContribution(cs[..|cs| - 1], t); }
  }

  lemma LastTouches(cs: seq<Contribution>, c: Contribution, t: FlowTuple)
    ensures Touched(cs + [c], t) <==> Touched(cs, t) || (Counted(c) && c.tuple == t)
  {
    assert (cs + [c])[|cs|] == c && forall i :: 0 <= i < |cs| ==> (cs + [c])[i] == cs[i];
  }

  lemma AddKeepsKeys(rows: map<FlowTuple, TupleBandwidth>, cs: seq<Contribution>, c: Contribution,
                     rate: int -> real, t: FlowTuple)
    requires t in rows <==> Touched(cs, t)
    ensures t in AddTupleBandwidth(rows, c, rate) <==> Touched(cs + [c], t)
  {
    LastTouches(cs, c, t);
  }

  lemma AddKeepsRow(rows: map<FlowTuple, TupleBandwidth>, cs: seq<Contribution>, c: Contribution,
                    rate: int -> real, t: FlowTuple)
    requires t in rows <==> Touched(cs, t)
    requires t in rows ==> RowFor(rows[t], cs, t, rate)
    requires t in AddTupleBandwidth(rows, c, rate)
    ensures RowFor(AddTupleBandwidth(rows, c, rate)[t], cs + [c], t, rate)
  {
    SumAppend(cs, c, TxFor(t));
    SumAppend(cs, c, RxFor(t));
    if t !in rows { NoContribution(cs, t); }
  }

  lemma AddKeepsRows(rows: map<FlowTuple, TupleBandwidth>, cs: seq<Contribution>, c: Contribution, rate: int -> real)
    requires RowsFor(rows, cs, rate)
    ensures RowsFor(AddTupleBandwidth(rows, c, rate), cs + [c], rate)
  {
    var after := AddTupleBandwidth(rows, c, rate);
    forall t ensures t in after <==> Touched(cs + [c], t) {
      AddKeepsKeys(rows, cs, c, rate, t);
    }
    forall t | t in after ensures RowFor(after[t], cs + [c], t, rate) {
      AddKeepsRow(rows, cs, c, rate, t);
    }
  }

  function AllTx(): Contribution -> int { (c: Contribution) => if Counted(c) then c.tx else 0 }

  function AllRx(): Contribution -> int { (c: Contribution) => if Counted(c) then c.rx else 0 }

  function TxColumn(rows: map<FlowTuple, TupleBandwidth>): map<FlowTuple, int> {
    map t | t in rows :: rows[t].txBytesDelta
  }

  function RxColumn(rows: map<FlowTuple, TupleBandwidth>): map<FlowTuple, int> {
    map t | t in rows :: rows[t].rxBytesDelta
  }

  function AddAll(cs: seq<Contribution>, rate: int -> real): map<FlowTuple, TupleBandwidth> {
    if cs == [] then map[] else AddTupleBandwidth(AddAll(cs[..|cs| - 1], rate), cs[|cs| - 1], rate)
  }

  lemma AddMovesColumns(rows: map<FlowTuple, TupleBandwidth>, c: Contribution, rate: int -> real)
    ensures var after := AddTupleBandwidth(rows, c, rate);
            && Total(TxColumn(after)) == Total(TxColumn(rows)) + AllTx()(c)
            && Total(RxColumn(after)) == Total(RxColumn(rows)) + AllRx()(c)
  {
    if Counted(c) {
      var row := AddTupleBandwidth(rows, c, rate)[c.tuple];
      assert TxColumn(rows[c.tuple := row]) == TxColumn(rows)[c.tuple := row.txBytesDelta];
      assert RxColumn(rows[c.tuple := row]) == RxColumn(rows)[c.tuple := row.rxBytesDelta];
      TotalUpdate(TxColumn(rows), c.tuple, row.txBytesDelta);
      TotalUpdate(RxColumn(rows), c.tuple, row.rxBytesDelta);
    }
  }

  lemma {:induction false} AddAllGivesRows(cs: seq<Contribution>, rate: int -> real)
    ensures RowsFor(AddAll(cs, rate), cs, rate)
  {
    if cs != [] {
      var front, c := cs[..|cs| - 1], cs[|cs| - 1];
      AddAllGivesRows(front, rate);
      assert cs == front + [c];
      AddKeepsRows(AddAll(front, rate), front, c, rate);
    }
  }

  lemma {:induction false} ColumnsAddUp(cs: seq<Contribution>, rate: int -> real)
    ensures Total(TxColumn(AddAll(cs, rate))) == Sum(cs, AllTx())
    ensures Total(RxColumn(AddAll(cs, rate))) == Sum(cs, AllRx())
  {
    if cs == [] {
      assert TxColumn(map[]) == map[] && RxColumn(map[]) == map[];
    } else {
      ColumnsAddUp(cs[..|cs| - 1], rate);
      AddMovesColumns(AddAll(cs[..|cs| - 1], rate), cs[|cs| - 1], rate);
    }
  }

  /** Rows are determined by the contributions. */
  lemma RowsUnique(rows: map<FlowTuple, TupleBandwidth>, cs: seq<Contribution>, rate: int -> real)
    requires RowsFor(rows, cs, rate)
    ensures rows == AddAll(cs, rate)
  {
    AddAllGivesRows(cs, rate);
    var all := AddAll(cs, rate);
    assert forall t :: t in rows <==> t in all;
    forall t | t in rows ensures rows[t] == all[t] {
      assert RowFor(rows[t], cs, t, rate) && RowFor(all[t], cs, t, rate);
    }
  }

  // ---------- The conntrack tracker ----------

  /** A flow as the tracker sees it: its identifier with its counters, and its normalised tuples. */
  datatype FlowSample = FlowSample(reading: Reading<string>, orig: FlowTuple, reply: FlowTuple)

  function SampleOf(flow: ConntrackFlow): FlowSample {
    FlowSample(Reading(FlowID(flow), Counters(flow.origBytes, flow.replyBytes)),
               NormalizeFlowTuple(flow.orig), NormalizeFlowTuple(flow.reply))
  }

  function Samples(flows: seq<ConntrackFlow>): seq<FlowSample> {
    Map(flows, SampleOf)
  }

  function Readings(flows: seq<FlowSample>): (r: seq<Reading<string>>)
    ensures |r| == |flows|
    ensures forall i :: 0 <= i < |flows| ==> r[i] == flows[i].reading
  {
    if flows == [] then [] else Readings(flows[..|flows| - 1]) + [flows[|flows| - 1].reading]
  }

  function Sent(prev: Option<map<string, Counters>>, flow: FlowSample): Contribution {
    Contribution(flow.orig, Delta(prev, flow.reading).up, Delta(prev, flow.reading).down)
  }

  function Received(prev: Option<map<string, Counters>>, flow: FlowSample): Contribution {
    Contribution(flow.reply, Delta(prev, flow.reading).down, Delta(prev, flow.reading).up)
  }

  /** A flow feeds two rows: its orig tuple sends what its reply tuple receives. */
  function FlowContributions(prev: Option<map<string, Counters>>, flows: seq<FlowSample>): seq<Contribution> {
    if flows == [] then []
    else
      var flow := flows[|flows| - 1];
      (FlowContributions(prev, flows[..|flows| - 1]) + [Sent(prev, flow)]) + [Received(prev, flow)]
  }

  function BothDeltas(prev: Option<map<string, Counters>>): FlowSample -> int {
    (flow: FlowSample) => Delta(prev, flow.reading).up + Delta(prev, flow.reading).down
  }

  predicate PortsNonZero(flow: FlowSample) {
    flow.orig.srcPort != 0 && flow.orig.dstPort != 0 && flow.reply.srcPort != 0 && flow.reply.dstPort != 0
  }

  lemma SumLastFlow(prev: Option<map<string, Counters>>, flows: seq<FlowSample>, f: Contribution -> int)
    requires flows != []
    ensures Sum(FlowContributions(prev, flows), f)
         == Sum(FlowContributions(prev, flows[..|flows| - 1]), f)
            + f(Sent(prev, flows[|flows| - 1])) + f(Received(prev, flows[|flows| - 1]))
  {
    var cs, flow := FlowContributions(prev, flows[..|flows| - 1]), flows[|flows| - 1];
    SumAppend(cs, Sent(prev, flow), f);
    SumAppend(cs + [Sent(prev, flow)], Received(prev, flow), f);
  }

  lemma {:induction false} FlowContributionsBalance(prev: Option<map<string, Counters>>, flows: seq<FlowSample>)
    requires forall i :: 0 <= i < |flows| ==> PortsNonZero(flows[i])
    ensures Sum(FlowContributions(prev, flows), AllTx()) == Sum(flows, BothDeltas(prev))
    ensures Sum(FlowContributions(prev, flows), AllRx()) == Sum(flows, BothDeltas(prev))
  {
    if flows != [] {
      FlowContributionsBalance(prev, flows[..|flows| - 1]);
      SumLastFlow(prev, flows, AllTx());
      SumLastFlow(prev, flows, AllRx());
    }
  }

  /** Each rate times the interval is the delta. */
  predicate RatesFit(row: TupleBandwidth, sampleSec: real) {
    && row.txBytesPerSec * sampleSec == row.txBytesDelta as real
    && row.rxBytesPerSec * sampleSec == row.rxBytesDelta as real
    && row.totalBytesPerSec * sampleSec == row.totalBytesDelta as real
  }

  predicate NoRates(row: TupleBandwidth) {
    row.txBytesPerSec == row.rxBytesPerSec == row.totalBytesPerSec == 0.0
  }

  lemma RowRatesFit(row: TupleBandwidth, cs: seq<Contribution>, t: FlowTuple, sampleSec: real)
    requires RowFor(row, cs, t, PerSecond(sampleSec)) && sampleSec > 0.0
    ensures RatesFit(row, sampleSec)
  {
  }

  /** Whatever tuples coincide, NAT replies shared between flows included, every row has its total
      and its rates right; and with non-zero ports the rows send in all what they receive in all,
      which is the sum of both deltas over the flows. */
  lemma TupleConservation(prev: Option<map<string, Counters>>, flows: seq<FlowSample>, sampleSec: real,
                          rows: map<FlowTuple, TupleBandwidth>)
    requires rows == AddAll(FlowContributions(prev, flows), PerSecond(sampleSec))
    ensures forall t :: t in rows ==> rows[t].totalBytesDelta == rows[t].txBytesDelta + rows[t].rxBytesDelta
    ensures sampleSec > 0.0 ==> forall t :: t in rows ==> RatesFit(rows[t], sampleSec)
    ensures sampleSec <= 0.0 ==> forall t :: t in rows ==> NoRates(rows[t])
    ensures (forall i :: 0 <= i < |flows| ==> PortsNonZero(flows[i])) ==>
              Total(TxColumn(rows)) == Total(RxColumn(rows)) == Sum(flows, BothDeltas(prev))
  {
    var cs := FlowContributions(prev, flows);
    AddAllGivesRows(cs, PerSecond(sampleSec));
    ColumnsAddUp(cs, PerSecond(sampleSec));
    forall t | t in rows ensures RowFor(rows[t], cs, t, PerSecond(sampleSec)) {}
    if sampleSec > 0.0 {
      forall t | t in rows ensures RatesFit(rows[t], sampleSec) {
        RowRatesFit(rows[t], cs, t, sampleSec);
      }
    }
    if forall i :: 0 <= i < |flows| ==> PortsNonZero(flows[i]) {
      FlowContributionsBalance(prev, flows);
    }
  }

  // ---------- What the rows of a sample mean ----------

  /** The tuple as it is after normalising the addresses of another. */
  predicate NormalOf(t: FlowTuple, raw: FlowTuple) {
    && t.srcIP == NormalizeFlowIP(raw.srcIP) && t.srcPort == raw.srcPort
    && t.dstIP == NormalizeFlowIP(raw.dstIP) && t.dstPort == raw.dstPort
  }

  /** What identifies a flow from sample to sample. */
  function FlowID(flow: ConntrackFlow): string {
    MakeFlowID(NormalizeFlowTuple(flow.orig), NormalizeFlowTuple(flow.reply))
  }

  /** What counts of the growth of a counter: 12.5 GB at most, or nothing. */
  function Growth(delta: int): int {
    if 0 <= delta <= 12_500_000_000 then delta else 0
  }

  /** Item j is the last one with this identifier. */
  ghost predicate LastWith<F, K>(items: seq<F>, id: K, idOf: F -> K, j: nat) {
    j < |items| && idOf(items[j]) == id && forall k :: j < k < |items| ==> idOf(items[k]) != id
  }

  /** What a counter grew by since the last item with the same identifier in the previous sample. */
  ghost function GrowthSince<F, K>(before: Option<seq<F>>, item: F, idOf: F -> K, bytesOf: F -> int): int {
    if before.Some? && exists j: nat :: LastWith(before.value, idOf(item), idOf, j) then
      var j: nat :| LastWith(before.value, idOf(item), idOf, j);
      Growth(bytesOf(item) - bytesOf(before.value[j]))
    else 0
  }

  lemma {:induction false} LastOrNone<F, K>(items: seq<F>, id: K, idOf: F -> K) returns (at: Option<nat>)
    ensures at.Some? ==> LastWith(items, id, idOf, at.value)
    ensures at.None? ==> forall i :: 0 <= i < |items| ==> idOf(items[i]) != id
  {
    at := None;
    if items != [] {
      var front := items[..|items| - 1];
      at := LastOrNone(front, id, idOf);
      assert forall i :: 0 <= i < |front| ==> front[i] == items[i];
      if idOf(items[|items| - 1]) == id { at := Some(|items| - 1); }
    }
  }

  /** The delta of a reading is what its counters grew by. */
  lemma DeltaIsGrowth<F(!new), K>(before: Option<seq<F>>, item: F, readOf: F -> Reading<K>, idOf: F -> K,
                                  upOf: F -> int, downOf: F -> int, prev: Option<map<K, Counters>>)
    requires forall f :: readOf(f) == Reading(idOf(f), Counters(upOf(f), downOf(f)))
    requires prev == if before.Some? then Some(LastReadings(Map(before.value, readOf))) else None
    ensures Delta(prev, readOf(item))
         == Counters(GrowthSince(before, item, idOf, upOf), GrowthSince(before, item, idOf, downOf))
  {
    if before.Some? {
      var was, id := Map(before.value, readOf), idOf(item);
      var at := LastOrNone(before.value, id, idOf);
      if at.Some? {
        assert LastAt(was, id, at.value);
        LastReadingCounts(was, id, at.value);
        assert forall k: nat :: LastWith(before.value, id, idOf, k) ==> k == at.value;
      } else {
        LastReadingsMisses(was, id);
      }
    }
  }

  function OrigBytes(): ConntrackFlow -> int { (flow: ConntrackFlow) => flow.origBytes }

  function ReplyBytes(): ConntrackFlow -> int { (flow: ConntrackFlow) => flow.replyBytes }

  /** What a flow adds to the row of a tuple: its orig tuple sends what the orig counter grew by and receives
      what the reply counter grew by, and its reply tuple the other way round. */
  ghost function TxPart(before: Option<seq<ConntrackFlow>>, t: FlowTuple, idOf: ConntrackFlow -> string,
                        normal: (FlowTuple, FlowTuple) -> bool): ConntrackFlow -> int {
    (flow: ConntrackFlow) =>
      (if normal(t, flow.orig) then GrowthSince(before, flow, idOf, OrigBytes()) else 0)
      + (if normal(t, flow.reply) then GrowthSince(before, flow, idOf, ReplyBytes()) else 0)
  }

  ghost function RxPart(before: Option<seq<ConntrackFlow>>, t: FlowTuple, idOf: ConntrackFlow -> string,
                        normal: (FlowTuple, FlowTuple) -> bool): ConntrackFlow -> int {
    (flow: ConntrackFlow) =>
      (if normal(t, flow.orig) then GrowthSince(before, flow, idOf, ReplyBytes()) else 0)
      + (if normal(t, flow.reply) then GrowthSince(before, flow, idOf, OrigBytes()) else 0)
  }

  /** The same for a flow as the tracker sees it. */
  function SampleTx(prev: Option<map<string, Counters>>, t: FlowTuple): FlowSample -> int {
    (flow: FlowSample) =>
      (if flow.orig == t then Delta(prev, flow.reading).up else 0)
      + (if flow.reply == t then Delta(prev, flow.reading).down else 0)
  }

  function SampleRx(prev: Option<map<string, Counters>>, t: FlowTuple): FlowSample -> int {
    (flow: FlowSample) =>
      (if flow.orig == t then Delta(prev, flow.reading).down else 0)
      + (if flow.reply == t then Delta(prev, flow.reading).up else 0)
  }

  ghost predicate SomeHas<F>(flows: seq<F>, has: F -> bool) {
    exists i :: 0 <= i < |flows| && has(flows[i])
  }

  function SampleHas(t: FlowTuple): FlowSample -> bool {
    (flow: FlowSample) => flow.orig == t || flow.reply == t
  }

  function FlowHas(t: FlowTuple, normal: (FlowTuple, FlowTuple) -> bool): ConntrackFlow -> bool {
    (flow: ConntrackFlow) => normal(t, flow.orig) || normal(t, flow.reply)
  }

  lemma {:induction false} SamplesContribute(prev: Option<map<string, Counters>>, flows: seq<FlowSample>, t: FlowTuple)
    requires t.srcPort != 0 && t.dstPort != 0
    ensures Sum(FlowContributions(prev, flows), TxFor(t)) == Sum(flows, SampleTx(prev, t))
    ensures Sum(FlowContributions(prev, flows), RxFor(t)) == Sum(flows, SampleRx(prev, t))
    ensures Touched(FlowContributions(prev, flows), t) <==> SomeHas(flows, SampleHas(t))
  {
    if flows != [] {
      SamplesContribute(prev, flows[..|flows| - 1], t);
      SumLastFlow(prev, flows, TxFor(t));
      SumLastFlow(prev, flows, RxFor(t));
      LastFlowTouches(prev, flows, t);
      LastHas(flows, SampleHas(t));
    }
  }

  lemma LastHas<F>(flows: seq<F>, has: F -> bool)
    requires flows != []
    ensures SomeHas(flows, has) <==> SomeHas(flows[..|flows| - 1], has) || has(flows[|flows| - 1])
  {
    var front := flows[..|flows| - 1];
    assert forall i :: 0 <= i < |front| ==> front[i] == flows[i];
  }

  lemma LastFlowTouches(prev: Option<map<string, Counters>>, flows: seq<FlowSample>, t: FlowTuple)
    requires flows != [] && t.srcPort != 0 && t.dstPort != 0
    ensures Touched(FlowContributions(prev, flows), t)
       <==> || Touched(FlowContributions(prev, flows[..|flows| - 1]), t)
            || flows[|flows| - 1].orig == t || flows[|flows| - 1].reply == t
  {
    var front, last := FlowContributions(prev, flows[..|flows| - 1]), flows[|flows| - 1];
    LastTouches(front, Sent(prev, last), t);
    LastTouches(front + [Sent(prev, last)], Received(prev, last), t);
  }

  /** The samples are taken flow by flow. */
  ghost predicate Sampling(sampleOf: ConntrackFlow -> FlowSample, idOf: ConntrackFlow -> string,
                           normal: (FlowTuple, FlowTuple) -> bool) {
    forall flow ::
      && sampleOf(flow).reading == Reading(idOf(flow), Counters(OrigBytes()(flow), ReplyBytes()(flow)))
      && (forall t :: normal(t, flow.orig) <==> sampleOf(flow).orig == t)
      && (forall t :: normal(t, flow.reply) <==> sampleOf(flow).reply == t)
  }

  function ReadOf(sampleOf: ConntrackFlow -> FlowSample): ConntrackFlow -> Reading<string> {
    (flow: ConntrackFlow) => sampleOf(flow).reading
  }

  lemma SamplesAgree(before: Option<seq<ConntrackFlow>>, flows: seq<ConntrackFlow>, t: FlowTuple,
                     sampleOf: ConntrackFlow -> FlowSample, idOf: ConntrackFlow -> string,
                     normal: (FlowTuple, FlowTuple) -> bool, prev: Option<map<string, Counters>>)
    requires Sampling(sampleOf, idOf, normal)
    requires prev == if before.Some? then Some(LastReadings(Readings(Map(before.value, sampleOf)))) else None
    ensures Sum(Map(flows, sampleOf), SampleTx(prev, t)) == Sum(flows, TxPart(before, t, idOf, normal))
    ensures Sum(Map(flows, sampleOf), SampleRx(prev, t)) == Sum(flows, RxPart(before, t, idOf, normal))
    ensures SomeHas(Map(flows, sampleOf), SampleHas(t)) <==> SomeHas(flows, FlowHas(t, normal))
  {
    if before.Some? {
      assert Readings(Map(before.value, sampleOf)) == Map(before.value, ReadOf(sampleOf));
    }
    forall flow ensures SampleTx(prev, t)(sampleOf(flow)) == TxPart(before, t, idOf, normal)(flow)
                ensures SampleRx(prev, t)(sampleOf(flow)) == RxPart(before, t, idOf, normal)(flow) {
      DeltaIsGrowth(before, flow, ReadOf(sampleOf), idOf, OrigBytes(), ReplyBytes(), prev);
    }
    SumOfMap(flows, sampleOf, SampleTx(prev, t), TxPart(before, t, idOf, normal));
    SumOfMap(flows, sampleOf, SampleRx(prev, t), RxPart(before, t, idOf, normal));
    assert forall i :: 0 <= i < |flows| ==> SampleHas(t)(Map(flows, sampleOf)[i]) == FlowHas(t, normal)(flows[i]);
  }

  /** The rows of a sample: exactly the tuples of its flows with both ports, each with the sums of what the
      counters of all the flows that have it grew by. */
  lemma RowIsGrowth(before: Option<seq<ConntrackFlow>>, flows: seq<ConntrackFlow>, t: FlowTuple, rate: int -> real,
                    prev: Option<map<string, Counters>>, rows: map<FlowTuple, TupleBandwidth>)
    requires prev == if before.Some? then Some(LastReadings(Readings(Samples(before.value)))) else None
    requires rows == AddAll(FlowContributions(prev, Samples(flows)), rate)
    ensures t in rows <==> t.srcPort != 0 && t.dstPort != 0 && SomeHas(flows, FlowHas(t, NormalOf))
    ensures t in rows ==>
              && rows[t].txBytesDelta == Sum(flows, TxPart(before, t, FlowID, NormalOf))
              && rows[t].rxBytesDelta == Sum(flows, RxPart(before, t, FlowID, NormalOf))
  {
    RowsGrow(before, flows, t, rate, SampleOf, FlowID, NormalOf, prev, rows);
  }

  lemma RowsGrow(before: Option<seq<ConntrackFlow>>, flows: seq<ConntrackFlow>, t: FlowTuple, rate: int -> real,
                 sampleOf: ConntrackFlow -> FlowSample, idOf: ConntrackFlow -> string,
                 normal: (FlowTuple, FlowTuple) -> bool, prev: Option<map<string, Counters>>,
                 rows: map<FlowTuple, TupleBandwidth>)
    requires Sampling(sampleOf, idOf, normal)
    requires prev == if before.Some? then Some(LastReadings(Readings(Map(before.value, sampleOf)))) else None
    requires rows == AddAll(FlowContributions(prev, Map(flows, sampleOf)), rate)
    ensures t in rows <==> t.srcPort != 0 && t.dstPort != 0 && SomeHas(flows, FlowHas(t, normal))
    ensures t in rows ==>
              && rows[t].txBytesDelta == Sum(flows, TxPart(before, t, idOf, normal))
              && rows[t].rxBytesDelta == Sum(flows, RxPart(before, t, idOf, normal))
  {
    var cs := FlowContributions(prev, Map(flows, sampleOf));
    AddAllGivesRows(cs, rate);
    if t.srcPort != 0 && t.dstPort != 0 {
      SamplesContribute(prev, Map(flows, sampleOf), t);
      SamplesAgree(before, flows, t, sampleOf, idOf, normal, prev);
      if t in rows { assert RowFor(rows[t], cs, t, rate); }
    }
  }

  predicate Foreign(flow: FlowSample, t: FlowTuple) {
    flow.orig != t && flow.reply != t
  }

  /** The orig tuple of flow `at` has non-zero ports and belongs to no other flow. */
  ghost predicate OwnsTuple(flows: seq<FlowSample>, at: nat) {
    at < |flows|
    && flows[at].orig.srcPort != 0 && flows[at].orig.dstPort != 0
    && flows[at].reply != flows[at].orig
    && forall i :: 0 <= i < |flows| && i != at ==> Foreign(flows[i], flows[at].orig)
  }

  lemma {:induction false} ForeignContributions(prev: Option<map<string, Counters>>,
                                                flows: seq<FlowSample>, t: FlowTuple)
    requires forall i :: 0 <= i < |flows| ==> Foreign(flows[i], t)
    ensures Sum(FlowContributions(prev, flows), TxFor(t)) == 0
    ensures Sum(FlowContributions(prev, flows), RxFor(t)) == 0
  {
    if flows != [] {
      ForeignContributions(prev, flows[..|flows| - 1], t);
      SumLastFlow(prev, flows, TxFor(t));
      SumLastFlow(prev, flows, RxFor(t));
    }
  }

  lemma {:induction false} UnsharedContribution(prev: Option<map<string, Counters>>,
                                                flows: seq<FlowSample>, at: nat)
    requires OwnsTuple(flows, at)
    ensures Touched(FlowContributions(prev, flows), flows[at].orig)
    ensures Sum(FlowContributions(prev, flows), TxFor(flows[at].orig)) == Delta(prev, flows[at].reading).up
    ensures Sum(FlowContributions(prev, flows), RxFor(flows[at].orig)) == Delta(prev, flows[at].reading).down
  {
    var t, front := flows[at].orig, flows[..|flows| - 1];
    var cs, before := FlowContributions(prev, flows), FlowContributions(prev, front);
    SumLastFlow(prev, flows, TxFor(t));
    SumLastFlow(prev, flows, RxFor(t));
    if at < |flows| - 1 {
      assert forall i :: 0 <= i < |front| ==> front[i] == flows[i];
      UnsharedContribution(prev, front, at);
      var k :| 0 <= k < |before| && Counted(before[k]) && before[k].tuple == t;
      assert cs[k] == before[k];
    } else {
      ForeignContributions(prev, front, t);
      assert cs[|before|] == Sent(prev, flows[at]);
    }
  }

  /** When no other flow shares the orig tuple, its row shows exactly the delta of that flow. */
  lemma UnsharedRow(prev: Option<map<string, Counters>>, flows: seq<FlowSample>, at: nat, rate: int -> real,
                    rows: map<FlowTuple, TupleBandwidth>)
    requires rows == AddAll(FlowContributions(prev, flows), rate) && OwnsTuple(flows, at)
    ensures flows[at].orig in rows
    ensures rows[flows[at].orig].txBytesDelta == Delta(prev, flows[at].reading).up
    ensures rows[flows[at].orig].rxBytesDelta == Delta(prev, flows[at].reading).down
  {
    UnsharedContribution(prev, flows, at);
    AddAllGivesRows(FlowContributions(prev, flows), rate);
    assert RowFor(rows[flows[at].orig], FlowContributions(prev, flows), flows[at].orig, rate);
  }

  function RunReadings(run: seq<seq<FlowSample>>): (r: seq<seq<Reading<string>>>)
    ensures |r| == |run| && forall i :: 0 <= i < |run| ==> r[i] == Readings(run[i])
  {
    if run == [] then [] else RunReadings(run[..|run| - 1]) + [Readings(run[|run| - 1])]
  }

  /** The rows shown for sample i of a run. */
  function RowsAt(run: seq<seq<FlowSample>>, i: nat, rate: int -> real): map<FlowTuple, TupleBandwidth>
    requires i < |run|
  {
    AddAll(FlowContributions(Previous(RunReadings(run), i), run[i]), rate)
  }

  /** What the rows of one tuple show in all over the first n samples. */
  function ShownTx(run: seq<seq<FlowSample>>, t: FlowTuple, rate: int -> real, n: nat): int
    requires n <= |run|
  {
    if n == 0 then 0
    else
      var rows := RowsAt(run, n - 1, rate);
      ShownTx(run, t, rate, n - 1) + if t in rows then rows[t].txBytesDelta else 0
  }

  /** In every sample exactly one flow has this identifier, and it owns the tuple. */
  ghost predicate Followed(run: seq<seq<FlowSample>>, key: string, t: FlowTuple, at: seq<nat>) {
    |at| == |run|
    && forall i :: 0 <= i < |run| ==>
         && OwnsTuple(run[i], at[i]) && run[i][at[i]].orig == t
         && OnceAt(Readings(run[i]), key, at[i])
  }

  /** The rows of a tuple owned by one steady flow show exactly the bytes that flow sent. */
  lemma {:induction false} RowsTelescope(run: seq<seq<FlowSample>>, key: string, t: FlowTuple, at: seq<nat>,
                                         rate: int -> real, n: nat)
    requires 0 < n <= |run| && Followed(run, key, t, at)
    requires forall i :: 0 < i < |run| ==>
               0 <= run[i][at[i]].reading.counters.up - run[i - 1][at[i - 1]].reading.counters.up <= MAX_DELTA_PER_FLOW
    ensures ShownTx(run, t, rate, n)
         == run[n - 1][at[n - 1]].reading.counters.up - run[0][at[0]].reading.counters.up
  {
    var prev, rows := Previous(RunReadings(run), n - 1), RowsAt(run, n - 1, rate);
    UnsharedRow(prev, run[n - 1], at[n - 1], rate, rows);
    if n > 1 {
      RowsTelescope(run, key, t, at, rate, n - 1);
      LastReadingCounts(Readings(run[n - 2]), key, at[n - 2]);
    } else {
      assert ShownTx(run, t, rate, 0) == 0;
    }
  }

  lemma OneMoreFlow(prev: Option<map<string, Counters>>, flows: seq<FlowSample>, i: nat, rate: int -> real)
    requires i < |flows|
    ensures AddAll(FlowContributions(prev, flows[..i + 1]), rate)
         == AddTupleBandwidth(AddTupleBandwidth(AddAll(FlowContributions(prev, flows[..i]), rate),
                                                Sent(prev, flows[i]), rate),
                              Received(prev, flows[i]), rate)
    ensures LastReadings(Readings(flows[..i + 1]))
         == LastReadings(Readings(flows[..i]))[flows[i].reading.key := flows[i].reading.counters]
  {
    assert flows[..i + 1][..i] == flows[..i];
    var cs := FlowContributions(prev, flows[..i]);
  }

  class BandwidthTracker {
    var prev: map<string, Counters>
    var prevAt: Option<int>

    /** Every sample taken so far. */
    ghost var samples: seq<seq<Reading<string>>>

    /** What the next sample will be compared with. */
    function Baseline(): Option<map<string, Counters>>
      reads this
    {
      if prevAt.Some? then Some(prev) else None
    }

    ghost predicate Valid()
      reads this
    {
      Baseline() == Previous(samples, |samples|)
    }

    constructor ()
      ensures Valid() && samples == [] && prevAt == None
    {
      prev, prevAt, samples := map[], None, [];
    }

    /** A zero capture time stands for the wall clock. */
    method BuildSnapshot(flows: seq<ConntrackFlow>, capturedAt: Option<int>, wallClock: int)
      returns (s: BandwidthSnapshot)
      requires Valid()
      modifies this
      ensures Valid() && samples == old(samples) + [Readings(Samples(flows))]
      ensures prevAt == Some(if capturedAt.Some? then capturedAt.value else wallClock)
      ensures if old(prevAt).Some? && prevAt.value > old(prevAt).value
              then s.sampleSeconds * 1_000_000_000.0 == (prevAt.value - old(prevAt).value) as real
              else s.sampleSeconds == 0.0
      ensures s.available <==> old(samples) != [] && s.sampleSeconds > 0.0
      ensures s.byTuple == AddAll(FlowContributions(Previous(samples, |samples| - 1), Samples(flows)),
                                  PerSecond(s.sampleSeconds))
    {
      var at := if capturedAt.Some? then capturedAt.value else wallClock;
      var sampleSec := SampleSeconds(prevAt, at);
      var baseline := Baseline();
      var flowSamples := MapAll(flows, SampleOf);
      var rows, nextPrev := TallyFlows(baseline, flowSamples, PerSecond(sampleSec));
      s := BandwidthSnapshot(rows, sampleSec, prevAt.Some? && sampleSec > 0.0);
      prev := nextPrev;
      prevAt := Some(at);
      samples := samples + [Readings(flowSamples)];
      assert Previous(samples, |samples| - 1) == baseline;
      assert s.byTuple == AddAll(FlowContributions(baseline, flowSamples), PerSecond(sampleSec));
    }
  }

  method SampleSeconds(before: Option<int>, now: int) returns (sampleSec: real)
    ensures if before.Some? && now > before.value then sampleSec * 1_000_000_000.0 == (now - before.value) as real
            else sampleSec == 0.0
  {
    sampleSec := 0.0;
    if before.Some? {
      sampleSec := (now - before.value) as real / 1_000_000_000.0;
      if sampleSec <= 0.0 {
        sampleSec := 0.0;
      }
    }
  }

  /** The loop has got through the first i flows. */
  ghost predicate Tallied(prev: Option<map<string, Counters>>, flows: seq<FlowSample>, i: nat, rate: int -> real,
                          rows: map<FlowTuple, TupleBandwidth>, nextPrev: map<string, Counters>) {
    forall done :: i <= |flows| && done == flows[..i] ==>
      rows == AddAll(FlowContributions(prev, done), rate) && nextPrev == LastReadings(Readings(done))
  }

  lemma TallyMore(prev: Option<map<string, Counters>>, flows: seq<FlowSample>, i: nat, rate: int -> real,
                  rows: map<FlowTuple, TupleBandwidth>, nextPrev: map<string, Counters>)
    requires i < |flows| && Tallied(prev, flows, i, rate, rows, nextPrev)
    ensures Tallied(prev, flows, i + 1, rate,
                    AddTupleBandwidth(AddTupleBandwidth(rows, Sent(prev, flows[i]), rate),
                                      Received(prev, flows[i]), rate),
                    nextPrev[flows[i].reading.key := flows[i].reading.counters])
  {
    OneMoreFlow(prev, flows, i, rate);
    assert rows == AddAll(FlowContributions(prev, flows[..i]), rate);
  }

  /** The clamped growth of both counters since the previous sample; zero for a key that was not in it. */
  method TakeDelta<K(==)>(prev: Option<map<K, Counters>>, r: Reading<K>) returns (upDelta: int, downDelta: int)
    ensures Counters(upDelta, downDelta) == Delta(prev, r)
  {
    upDelta, downDelta := 0, 0;
    if prev.Some? {
      if r.key in prev.value {
        upDelta := ClampDelta(r.counters.up - prev.value[r.key].up);
        downDelta := ClampDelta(r.counters.down - prev.value[r.key].down);
      }
    }
  }

  /** The loop of the conntrack tracker over one sample. */
  method TallyFlows(prev: Option<map<string, Counters>>, flows: seq<FlowSample>, rate: int -> real)
    returns (rows: map<FlowTuple, TupleBandwidth>, nextPrev: map<string, Counters>)
    ensures nextPrev == LastReadings(Readings(flows))
    ensures rows == AddAll(FlowContributions(prev, flows), rate)
  {
    rows, nextPrev := map[], map[];
    for i := 0 to |flows|
      invariant Tallied(prev, flows, i, rate, rows, nextPrev)
    {
      var flow := flows[i];
      var origDelta, replyDelta := TakeDelta(prev, flow.reading);
      TallyMore(prev, flows, i, rate, rows, nextPrev);
      nextPrev := nextPrev[flow.reading.key := flow.reading.counters];
      rows := AddTupleBandwidth(rows, Contribution(flow.orig, origDelta, replyDelta), rate);
      rows := AddTupleBandwidth(rows, Contribution(flow.reply, replyDelta, origDelta), rate);
    }
    assert flows[..|flows|] == flows;
  }

  // ---------- The socket tracker ----------

  function SocketKey(c: SocketCounter): FlowTuple {
    NormalizeFlowTuple(c.tuple)
  }

  function SocketReading(c: SocketCounter): Reading<FlowTuple> {
    Reading(SocketKey(c), Counters(c.bytesAcked, c.bytesReceived))
  }

  function SocketReadings(counters: seq<SocketCounter>): seq<Reading<FlowTuple>> {
    Map(counters, SocketReading)
  }

  function SocketContribution(prev: Option<map<FlowTuple, Counters>>, r: Reading<FlowTuple>): Contribution {
    Contribution(r.key, Delta(prev, r).up, Delta(prev, r).down)
  }

  function SocketContributions(prev: Option<map<FlowTuple, Counters>>, readings: seq<Reading<FlowTuple>>)
    : (cs: seq<Contribution>)
    ensures |cs| == |readings|
  {
    if readings == [] then []
    else SocketContributions(prev, readings[..|readings| - 1]) + [SocketContribution(prev, readings[|readings| - 1])]
  }

  lemma OneMoreSocket(prev: Option<map<FlowTuple, Counters>>, readings: seq<Reading<FlowTuple>>, i: nat,
                      rate: int -> real)
    requires i < |readings|
    ensures AddAll(SocketContributions(prev, readings[..i + 1]), rate)
         == AddTupleBandwidth(AddAll(SocketContributions(prev, readings[..i]), rate),
                              SocketContribution(prev, readings[i]), rate)
    ensures LastReadings(readings[..i + 1]) == LastReadings(readings[..i])[readings[i].key := readings[i].counters]
  {
    assert readings[..i + 1][..i] == readings[..i];
  }

  function Acked(): SocketCounter -> int { (c: SocketCounter) => c.bytesAcked }

  function ReceivedBytes(): SocketCounter -> int { (c: SocketCounter) => c.bytesReceived }

  /** What a socket adds to the row of a tuple in one direction. */
  ghost function SocketPart<F, K>(before: Option<seq<F>>, t: K, idOf: F -> K, bytesOf: F -> int): F -> int {
    (item: F) => if idOf(item) == t then GrowthSince(before, item, idOf, bytesOf) else 0
  }

  function HasKey<F, K(==)>(t: K, idOf: F -> K): F -> bool {
    (item: F) => idOf(item) == t
  }

  function ReadingTx(prev: Option<map<FlowTuple, Counters>>, t: FlowTuple): Reading<FlowTuple> -> int {
    (r: Reading<FlowTuple>) => if r.key == t then Delta(prev, r).up else 0
  }

  function ReadingRx(prev: Option<map<FlowTuple, Counters>>, t: FlowTuple): Reading<FlowTuple> -> int {
    (r: Reading<FlowTuple>) => if r.key == t then Delta(prev, r).down else 0
  }

  function ReadingHas(t: FlowTuple): Reading<FlowTuple> -> bool {
    (r: Reading<FlowTuple>) => r.key == t
  }

  lemma {:induction false} ReadingsContribute(prev: Option<map<FlowTuple, Counters>>,
                                              readings: seq<Reading<FlowTuple>>, t: FlowTuple)
    requires t.srcPort != 0 && t.dstPort != 0
    ensures Sum(SocketContributions(prev, readings), TxFor(t)) == Sum(readings, ReadingTx(prev, t))
    ensures Sum(SocketContributions(prev, readings), RxFor(t)) == Sum(readings, ReadingRx(prev, t))
    ensures Touched(SocketContributions(prev, readings), t) <==> SomeHas(readings, ReadingHas(t))
  {
    if readings != [] {
      var front, r := readings[..|readings| - 1], readings[|readings| - 1];
      ReadingsContribute(prev, front, t);
      SumAppend(SocketContributions(prev, front), SocketContribution(prev, r), TxFor(t));
      SumAppend(SocketContributions(prev, front), SocketContribution(prev, r), RxFor(t));
      LastHas(readings, ReadingHas(t));
      LastTouches(SocketContributions(prev, front), SocketContribution(prev, r), t);
    }
  }

  lemma SocketRowsGrow<F(!new)>(before: Option<seq<F>>, counters: seq<F>, t: FlowTuple, rate: int -> real,
                                readOf: F -> Reading<FlowTuple>, idOf: F -> FlowTuple, upOf: F -> int,
                                downOf: F -> int, prev: Option<map<FlowTuple, Counters>>,
                                rows: map<FlowTuple, TupleBandwidth>)
    requires forall f :: readOf(f) == Reading(idOf(f), Counters(upOf(f), downOf(f)))
    requires prev == if before.Some? then Some(LastReadings(Map(before.value, readOf))) else None
    requires rows == AddAll(SocketContributions(prev, Map(counters, readOf)), rate)
    ensures t in rows <==> t.srcPort != 0 && t.dstPort != 0 && SomeHas(counters, HasKey(t, idOf))
    ensures t in rows ==>
              && rows[t].txBytesDelta == Sum(counters, SocketPart(before, t, idOf, upOf))
              && rows[t].rxBytesDelta == Sum(counters, SocketPart(before, t, idOf, downOf))
  {
    var readings := Map(counters, readOf);
    var cs := SocketContributions(prev, readings);
    AddAllGivesRows(cs, rate);
    if t.srcPort != 0 && t.dstPort != 0 {
      ReadingsContribute(prev, readings, t);
      forall item ensures ReadingTx(prev, t)(readOf(item)) == SocketPart(before, t, idOf, upOf)(item)
                  ensures ReadingRx(prev, t)(readOf(item)) == SocketPart(before, t, idOf, downOf)(item) {
        DeltaIsGrowth(before, item, readOf, idOf, upOf, downOf, prev);
      }
      SumOfMap(counters, readOf, ReadingTx(prev, t), SocketPart(before, t, idOf, upOf));
      SumOfMap(counters, readOf, ReadingRx(prev, t), SocketPart(before, t, idOf, downOf));
      assert forall i :: 0 <= i < |counters| ==> ReadingHas(t)(readings[i]) == HasKey(t, idOf)(counters[i]);
      if t in rows { assert RowFor(rows[t], cs, t, rate); }
    }
  }

  /** The rows of a sample of sockets: a row sends what was acknowledged and receives what was received. */
  lemma SocketRowIsGrowth(before: Option<seq<SocketCounter>>, counters: seq<SocketCounter>, t: FlowTuple,
                          rate: int -> real, prev: Option<map<FlowTuple, Counters>>,
                          rows: map<FlowTuple, TupleBandwidth>)
    requires prev == if before.Some? then Some(LastReadings(SocketReadings(before.value))) else None
    requires rows == AddAll(SocketContributions(prev, SocketReadings(counters)), rate)
    ensures t in rows <==> t.srcPort != 0 && t.dstPort != 0 && SomeHas(counters, HasKey(t, SocketKey))
    ensures t in rows ==>
              && rows[t].txBytesDelta == Sum(counters, SocketPart(before, t, SocketKey, Acked()))
              && rows[t].rxBytesDelta == Sum(counters, SocketPart(before, t, SocketKey, ReceivedBytes()))
  {
    SocketRowsGrow(before, counters, t, rate, SocketReading, SocketKey, Acked(), ReceivedBytes(), prev, rows);
  }

  class SocketBandwidthTracker {
    var prev: map<FlowTuple, Counters>
    var prevAt: Option<int>
    ghost var samples: seq<seq<Reading<FlowTuple>>>

    /** What the next sample will be compared with. */
    function Baseline(): Option<map<FlowTuple, Counters>>
      reads this
    {
      if prevAt.Some? then Some(prev) else None
    }

    ghost predicate Valid()
      reads this
    {
      Baseline() == Previous(samples, |samples|)
    }

    constructor ()
      ensures Valid() && samples == [] && prevAt == None
    {
      prev, prevAt, samples := map[], None, [];
    }

    method BuildSnapshot(counters: seq<SocketCounter>, capturedAt: Option<int>, wallClock: int)
      returns (s: BandwidthSnapshot)
      requires Valid()
      modifies this
      ensures Valid() && samples == old(samples) + [SocketReadings(counters)]
      ensures prevAt == Some(if capturedAt.Some? then capturedAt.value else wallClock)
      ensures if old(prevAt).Some? && prevAt.value > old(prevAt).value
              then s.sampleSeconds * 1_000_000_000.0 == (prevAt.value - old(prevAt).value) as real
              else s.sampleSeconds == 0.0
      ensures s.available <==> old(samples) != [] && s.sampleSeconds > 0.0
      ensures s.byTuple == AddAll(SocketContributions(Previous(samples, |samples| - 1), SocketReadings(counters)),
                                  PerSecond(s.sampleSeconds))
    {
      var at := if capturedAt.Some? then capturedAt.value else wallClock;
      var sampleSec := SampleSeconds(prevAt, at);
      var baseline := Baseline();
      var readings := MapAll(counters, SocketReading);
      var rows, nextPrev := TallySockets(baseline, readings, PerSecond(sampleSec));
      s := BandwidthSnapshot(rows, sampleSec, prevAt.Some? && sampleSec > 0.0);
      prev := nextPrev;
      prevAt := Some(at);
      samples := samples + [readings];
      assert Previous(samples, |samples| - 1) == baseline;
      assert s.byTuple == AddAll(SocketContributions(baseline, readings), PerSecond(sampleSec));
    }
  }

  /** The loop has got through the first i counters. */
  ghost predicate SocketsTallied(prev: Option<map<FlowTuple, Counters>>, readings: seq<Reading<FlowTuple>>, i: nat,
                                 rate: int -> real, rows: map<FlowTuple, TupleBandwidth>,
                                 nextPrev: map<FlowTuple, Counters>) {
    forall done :: i <= |readings| && done == readings[..i] ==>
      rows == AddAll(SocketContributions(prev, done), rate) && nextPrev == LastReadings(done)
  }

  lemma SocketsTallyMore(prev: Option<map<FlowTuple, Counters>>, readings: seq<Reading<FlowTuple>>, i: nat,
                         rate: int -> real, rows: map<FlowTuple, TupleBandwidth>, nextPrev: map<FlowTuple, Counters>)
    requires i < |readings| && SocketsTallied(prev, readings, i, rate, rows, nextPrev)
    ensures SocketsTallied(prev, readings, i + 1, rate,
                           AddTupleBandwidth(rows, SocketContribution(prev, readings[i]), rate),
                           nextPrev[readings[i].key := readings[i].counters])
  {
    OneMoreSocket(prev, readings, i, rate);
    assert rows == AddAll(SocketContributions(prev, readings[..i]), rate);
  }

  /** The loop of the socket tracker over one sample. */
  method TallySockets(prev: Option<map<FlowTuple, Counters>>, readings: seq<Reading<FlowTuple>>, rate: int -> real)
    returns (rows: map<FlowTuple, TupleBandwidth>, nextPrev: map<FlowTuple, Counters>)
    ensures nextPrev == LastReadings(readings)
    ensures rows == AddAll(SocketContributions(prev, readings), rate)
  {
    rows, nextPrev := map[], map[];
    for i := 0 to |readings|
      invariant SocketsTallied(prev, readings, i, rate, rows, nextPrev)
    {
      var r := readings[i];
      var txDelta, rxDelta := TakeDelta(prev, r);
      SocketsTallyMore(prev, readings, i, rate, rows, nextPrev);
      nextPrev := nextPrev[r.key := r.counters];
      rows := AddTupleBandwidth(rows, Contribution(r.key, txDelta, rxDelta), rate);
    }
    assert readings[..|readings|] == readings;
  }
}

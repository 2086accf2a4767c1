/** Attaching per-tuple bandwidth to connections: EnrichConnectionsWithBandwidth and
    OverlayMissingBandwidth of internal/collector/bandwidth_tracker.go. */
module Lookup {
  import opened Wrappers
  import opened Text
  import opened Bandwidth
  import opened Sums

  /** A socket of the connection list; `bw` holds its six bandwidth fields. */
  datatype Connection = Connection(
    localIP: string, localPort: int, remoteIP: string, remotePort: int, state: string,
    txQueue: int, rxQueue: int, activity: int, bw: TupleBandwidth,
    inode: string, pid: int, procName: string)

  datatype FallbackKey = FallbackKey(peerIP: string, localPort: int, remotePort: int)

  function FallbackOf(t: FlowTuple): FallbackKey {
    FallbackKey(NormalizeFlowIP(t.dstIP), t.srcPort, t.dstPort)
  }

  function ExactKey(c: Connection): FlowTuple {
    NormalizeFlowTuple(FlowTuple(c.localIP, c.localPort, c.remoteIP, c.remotePort))
  }

  function PeerKey(c: Connection): FallbackKey {
    FallbackKey(NormalizeFlowIP(c.remoteIP), c.localPort, c.remotePort)
  }

  function Plus(a: TupleBandwidth, b: TupleBandwidth): TupleBandwidth {
    TupleBandwidth(a.txBytesDelta + b.txBytesDelta, a.rxBytesDelta + b.rxBytesDelta,
                   a.totalBytesDelta + b.totalBytesDelta, a.txBytesPerSec + b.txBytesPerSec,
                   a.rxBytesPerSec + b.rxBytesPerSec, a.totalBytesPerSec + b.totalBytesPerSec)
  }

  /** The rows with this key. */
  function Matching<T, K(==)>(rows: map<T, TupleBandwidth>, key: K, keyOf: T -> K): map<T, TupleBandwidth> {
    map t | t in rows && keyOf(t) == key :: rows[t]
  }

  ghost function SumRows<T, K>(rows: map<T, TupleBandwidth>, key: K, keyOf: T -> K): TupleBandwidth {
    Fold(Matching(rows, key, keyOf), Plus, NO_TRAFFIC)
  }

  /** The sum over the matching rows is what any linear scan of them finds. */
  lemma SumRowsIsScan<T, K>(rows: map<T, TupleBandwidth>, key: K, keyOf: T -> K, order: seq<T>)
    requires forall t :: t in order <==> t in rows && keyOf(t) == key
    requires forall i, j :: 0 <= i < j < |order| ==> order[i] != order[j]
    ensures SumRows(rows, key, keyOf) == Scan(Matching(rows, key, keyOf), order, Plus, NO_TRAFFIC)
  {
    ScanAnyOrder(Matching(rows, key, keyOf), order, Plus, NO_TRAFFIC);
  }

  ghost predicate SomeRow<T(!new), K>(rows: map<T, TupleBandwidth>, key: K, keyOf: T -> K) {
    exists t :: t in rows && keyOf(t) == key
  }

  /** The exact row if there is one, else the sum over the rows with the same peer and ports. */
  ghost function BandwidthFor(rows: map<FlowTuple, TupleBandwidth>, exact: FlowTuple, key: FallbackKey)
    : Option<TupleBandwidth>
  {
    if exact in rows then Some(rows[exact])
    else if SomeRow(rows, key, FallbackOf) then Some(SumRows(rows, key, FallbackOf))
    else None
  }

  ghost function Enriched(c: Connection, rows: map<FlowTuple, TupleBandwidth>): Connection {
    match BandwidthFor(rows, ExactKey(c), PeerKey(c))
    case Some(bw) => c.(bw := bw)
    case None => c.(bw := NO_TRAFFIC)
  }

  predicate HasBandwidth(c: Connection) {
    c.bw.totalBytesDelta > 0 || c.bw.totalBytesPerSec > 0.0
  }

  ghost function Overlaid(c: Connection, rows: map<FlowTuple, TupleBandwidth>): Connection {
    if HasBandwidth(c) then c
    else match BandwidthFor(rows, ExactKey(c), PeerKey(c))
         case Some(bw) => c.(bw := bw)
         case None => c
  }

  /** What overlaying over enriched rows leaves: conntrack figures wherever they are positive,
      socket figures elsewhere; doing either step again changes nothing. */
  lemma OverlayAfterEnrich(c: Connection, flows: map<FlowTuple, TupleBandwidth>,
                           sockets: map<FlowTuple, TupleBandwidth>)
    ensures Enriched(Enriched(c, flows), flows) == Enriched(c, flows)
    ensures HasBandwidth(c) ==> Overlaid(c, sockets) == c
    ensures Overlaid(Overlaid(c, sockets), sockets) == Overlaid(c, sockets)
    ensures Overlaid(Enriched(c, flows), sockets) ==
            if HasBandwidth(Enriched(c, flows)) || BandwidthFor(sockets, ExactKey(c), PeerKey(c)).None?
            then Enriched(c, flows) else Enriched(c, sockets)
  {
  }

  // ---------- What a connection is given ----------

  function TotalColumn(rows: map<FlowTuple, TupleBandwidth>): map<FlowTuple, int> {
    map t | t in rows :: rows[t].totalBytesDelta
  }

  function Columned(rows: map<FlowTuple, TupleBandwidth>, field: TupleBandwidth -> int): map<FlowTuple, int> {
    map t | t in rows :: field(rows[t])
  }

  /** An integer field of the sum is the total of its column. */
  lemma {:induction false} SumByColumn(rows: map<FlowTuple, TupleBandwidth>, field: TupleBandwidth -> int)
    requires forall a, b :: field(Plus(a, b)) == field(a) + field(b)
    requires field(NO_TRAFFIC) == 0
    ensures field(Fold(rows, Plus, NO_TRAFFIC)) == Total(Columned(rows, field))
    decreases |rows|
  {
    if rows == map[] {
      assert Columned(rows, field) == map[];
    } else {
      var t :| t in rows && Fold(rows, Plus, NO_TRAFFIC) == Plus(rows[t], Fold(rows - {t}, Plus, NO_TRAFFIC));
      SumByColumn(rows - {t}, field);
      TotalWithout(Columned(rows, field), t);
      assert Columned(rows, field) - {t} == Columned(rows - {t}, field);
    }
  }

  /** If each row fits the interval, so does the sum. */
  lemma {:induction false} SumFits(rows: map<FlowTuple, TupleBandwidth>, sampleSec: real)
    requires forall t :: t in rows ==> RatesFit(rows[t], sampleSec)
    ensures RatesFit(Fold(rows, Plus, NO_TRAFFIC), sampleSec)
    decreases |rows|
  {
    if rows != map[] {
      var t :| t in rows && Fold(rows, Plus, NO_TRAFFIC) == Plus(rows[t], Fold(rows - {t}, Plus, NO_TRAFFIC));
      SumFits(rows - {t}, sampleSec);
      FitsAdd(rows[t], Fold(rows - {t}, Plus, NO_TRAFFIC), sampleSec);
    }
  }

  lemma FitsAdd(a: TupleBandwidth, b: TupleBandwidth, sampleSec: real)
    requires RatesFit(a, sampleSec) && RatesFit(b, sampleSec)
    ensures RatesFit(Plus(a, b), sampleSec)
  {
  }

  /** The sums over some rows, column by column. */
  ghost predicate AddsUp(bw: TupleBandwidth, rows: map<FlowTuple, TupleBandwidth>) {
    && bw.txBytesDelta == Total(TxColumn(rows)) && bw.rxBytesDelta == Total(RxColumn(rows))
    && bw.totalBytesDelta == Total(TotalColumn(rows))
    && forall sampleSec :: (forall t :: t in rows ==> RatesFit(rows[t], sampleSec)) ==> RatesFit(bw, sampleSec)
  }

  lemma FoldSums(rows: map<FlowTuple, TupleBandwidth>)
    ensures AddsUp(Fold(rows, Plus, NO_TRAFFIC), rows)
  {
    var tx, rx, total := (bw: TupleBandwidth) => bw.txBytesDelta, (bw: TupleBandwidth) => bw.rxBytesDelta,
                         (bw: TupleBandwidth) => bw.totalBytesDelta;
    SumByColumn(rows, tx);
    SumByColumn(rows, rx);
    SumByColumn(rows, total);
    assert Columned(rows, tx) == TxColumn(rows) && Columned(rows, rx) == RxColumn(rows)
        && Columned(rows, total) == TotalColumn(rows);
    forall sampleSec | forall t :: t in rows ==> RatesFit(rows[t], sampleSec)
      ensures RatesFit(Fold(rows, Plus, NO_TRAFFIC), sampleSec)
    {
      SumFits(rows, sampleSec);
    }
  }

  /** The row of the connection itself, seen from the local end. */
  predicate OwnRow(t: FlowTuple, c: Connection) {
    NormalOf(t, FlowTuple(c.localIP, c.localPort, c.remoteIP, c.remotePort))
  }

  /** A row with the peer and both ports of the connection, whatever its local address. */
  predicate PeerRow(t: FlowTuple, c: Connection) {
    && NormalizeFlowIP(t.dstIP) == NormalizeFlowIP(c.remoteIP)
    && t.srcPort == c.localPort && t.dstPort == c.remotePort
  }

  function PeerRows(rows: map<FlowTuple, TupleBandwidth>, c: Connection): map<FlowTuple, TupleBandwidth> {
    map t | t in rows && PeerRow(t, c) :: rows[t]
  }

  lemma MatchingRows<T(!new), K>(rows: map<T, TupleBandwidth>, key: K, keyOf: T -> K, some: map<T, TupleBandwidth>)
    requires forall t :: t in some <==> t in rows && keyOf(t) == key
    requires forall t :: t in some ==> some[t] == rows[t]
    ensures Matching(rows, key, keyOf) == some
    ensures SomeRow(rows, key, keyOf) <==> some != map[]
  {
    if t :| t in rows && keyOf(t) == key { assert t in some; }
    if some != map[] {
      var t :| t in some;
      assert t in rows && keyOf(t) == key;
    }
  }

  /** A connection is given its own row if there is one, else the sums over the rows of its peer and ports,
      which are zero where there is none. Nothing else about it changes. */
  lemma EnrichedMeans(c: Connection, rows: map<FlowTuple, TupleBandwidth>)
    ensures Enriched(c, rows) == c.(bw := Enriched(c, rows).bw)
    ensures forall t :: t in rows && OwnRow(t, c) ==> Enriched(c, rows).bw == rows[t]
    ensures (forall t :: t in rows ==> !OwnRow(t, c)) ==> AddsUp(Enriched(c, rows).bw, PeerRows(rows, c))
  {
    MatchingRows(rows, PeerKey(c), FallbackOf, PeerRows(rows, c));
    FoldSums(PeerRows(rows, c));
    assert OwnRow(ExactKey(c), c);
    assert Fold<FlowTuple, TupleBandwidth>(map[], Plus, NO_TRAFFIC) == NO_TRAFFIC;
  }

  /** Overlaying gives the same to a connection without positive bandwidth for which there is a row, and leaves
      every other one as it is. */
  lemma OverlaidMeans(c: Connection, rows: map<FlowTuple, TupleBandwidth>)
    ensures c.bw.totalBytesDelta > 0 || c.bw.totalBytesPerSec > 0.0 ==> Overlaid(c, rows) == c
    ensures c.bw.totalBytesDelta <= 0 && c.bw.totalBytesPerSec <= 0.0 ==>
              Overlaid(c, rows) == if exists t :: t in rows && (OwnRow(t, c) || PeerRow(t, c)) then Enriched(c, rows)
                                   else c
  {
    MatchingRows(rows, PeerKey(c), FallbackOf, PeerRows(rows, c));
    assert OwnRow(ExactKey(c), c);
    assert forall t :: t in rows && PeerRow(t, c) ==> t in PeerRows(rows, c);
    if PeerRows(rows, c) != map[] {
      var t :| t in PeerRows(rows, c);
      assert PeerRow(t, c);
    }
  }

  ghost predicate FallbackFor<T(!new), K(!new)>(fallback: map<K, TupleBandwidth>, rows: map<T, TupleBandwidth>,
                                               keyOf: T -> K)
  {
    && (forall key :: key in fallback <==> SomeRow(rows, key, keyOf))
    && (forall key :: key in fallback ==> fallback[key] == SumRows(rows, key, keyOf))
  }

  lemma SumRowsInsert<T, K>(rows: map<T, TupleBandwidth>, t: T, bw: TupleBandwidth, key: K, keyOf: T -> K)
    requires t !in rows
    ensures SumRows(rows[t := bw], key, keyOf)
         == if keyOf(t) == key then Plus(SumRows(rows, key, keyOf), bw) else SumRows(rows, key, keyOf)
  {
    var before, after := Matching(rows, key, keyOf), Matching(rows[t := bw], key, keyOf);
    if keyOf(t) == key {
      assert after == before[t := bw];
      FoldInsert(before, t, bw, Plus, NO_TRAFFIC);
    } else {
      assert after == before;
    }
  }

  lemma NoRowNoSum<T(!new), K>(rows: map<T, TupleBandwidth>, key: K, keyOf: T -> K)
    requires !SomeRow(rows, key, keyOf)
    ensures SumRows(rows, key, keyOf) == NO_TRAFFIC
  {
    assert Matching(rows, key, keyOf) == map[];
  }

  lemma SomeRowInsert<T(!new), K>(rows: map<T, TupleBandwidth>, t: T, bw: TupleBandwidth, key: K, keyOf: T -> K)
    ensures SomeRow(rows[t := bw], key, keyOf) <==> keyOf(t) == key || SomeRow(rows, key, keyOf)
  {
    assert t in rows[t := bw];
    if SomeRow(rows, key, keyOf) {
      var u :| u in rows && keyOf(u) == key;
      assert u in rows[t := bw];
    }
  }

  function AddTo<K>(fallback: map<K, TupleBandwidth>, key: K, bw: TupleBandwidth): map<K, TupleBandwidth> {
    fallback[key := Plus(if key in fallback then fallback[key] else NO_TRAFFIC, bw)]
  }

  lemma FallbackStep<T(!new), K(!new)>(fallback: map<K, TupleBandwidth>, rows: map<T, TupleBandwidth>,
                                      t: T, bw: TupleBandwidth, keyOf: T -> K)
    requires FallbackFor(fallback, rows, keyOf) && t !in rows
    ensures FallbackFor(AddTo(fallback, keyOf(t), bw), rows[t := bw], keyOf)
  {
    var after := AddTo(fallback, keyOf(t), bw);
    forall key ensures key in after <==> SomeRow(rows[t := bw], key, keyOf) {
      SomeRowInsert(rows, t, bw, key, keyOf);
    }
    forall key | key in after ensures after[key] == SumRows(rows[t := bw], key, keyOf) {
      SumRowsInsert(rows, t, bw, key, keyOf);
      if key !in fallback { NoRowNoSum(rows, key, keyOf); }
    }
  }

  /** Sums the rows by peer and ports; the rows are visited in an arbitrary order. */
  method BuildFallback<T(!new, ==), K(!new, ==)>(rows: map<T, TupleBandwidth>, keyOf: T -> K)
    returns (fallback: map<K, TupleBandwidth>)
    ensures FallbackFor(fallback, rows, keyOf)
  {
    fallback := map[];
    var todo := rows.Keys;
    ghost var done: map<T, TupleBandwidth> := map[];
    while todo != {}
      invariant todo <= rows.Keys
      invariant done.Keys == rows.Keys - todo && forall t :: t in done ==> done[t] == rows[t]
      invariant FallbackFor(fallback, done, keyOf)
      decreases todo
    {
      var t :| t in todo;
      FallbackStep(fallback, done, t, rows[t], keyOf);
      fallback := AddTo(fallback, keyOf(t), rows[t]);
      done := done[t := rows[t]];
      todo := todo - {t};
    }
    assert done == rows;
  }

  function Found<T, K>(rows: map<T, TupleBandwidth>, fallback: map<K, TupleBandwidth>, exact: T, key: K)
    : Option<TupleBandwidth>
  {
    if exact in rows then Some(rows[exact])
    else if key in fallback then Some(fallback[key])
    else None
  }

  method EnrichConnectionsWithBandwidth(conns: array<Connection>, snapshot: BandwidthSnapshot)
    modifies conns
    ensures forall i :: 0 <= i < conns.Length ==> conns[i] == Enriched(old(conns[i]), snapshot.byTuple)
  {
    var rows := snapshot.byTuple;
    var fallback := map[];
    if rows != map[] {
      fallback := BuildFallback(rows, FallbackOf);
    }
    for i := 0 to conns.Length
      invariant forall j :: 0 <= j < i ==> conns[j] == Enriched(old(conns[j]), rows)
      invariant forall j :: i <= j < conns.Length ==> conns[j] == old(conns[j])
    {
      var c := conns[i];
      var exact, key := ExactKey(c), PeerKey(c);
      var found := Found(rows, fallback, exact, key);
      conns[i] := c.(bw := if found.Some? then found.value else NO_TRAFFIC);
    }
  }

  method OverlayMissingBandwidth(conns: array<Connection>, snapshot: BandwidthSnapshot)
    modifies conns
    ensures forall i :: 0 <= i < conns.Length ==> conns[i] == Overlaid(old(conns[i]), snapshot.byTuple)
  {
    var rows := snapshot.byTuple;
    var fallback := BuildFallback(rows, FallbackOf);
    for i := 0 to conns.Length
      invariant forall j :: 0 <= j < i ==> conns[j] == Overlaid(old(conns[j]), rows)
      invariant forall j :: i <= j < conns.Length ==> conns[j] == old(conns[j])
    {
      var c := conns[i];
      if c.bw.totalBytesDelta > 0 || c.bw.totalBytesPerSec > 0.0 {
        continue;
      }
      var exact, key := ExactKey(c), PeerKey(c);
      var found := Found(rows, fallback, exact, key);
      if found.Some? {
        conns[i] := c.(bw := found.value);
      }
    }
  }
}

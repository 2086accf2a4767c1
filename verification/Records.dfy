/** Snapshot records, their normalisation (internal/history/types.go) and their line codec
    (decodeSnapshotRecordLine in internal/history/reader.go). A nil slice or map is None. */
module Records {
  import opened Wrappers
  import opened Bandwidth
  import opened LineLog

  datatype SnapshotGroup = SnapshotGroup(
    peerIP: string, port: int, localPort: int, procName: string, connCount: int,
    txQueue: int, rxQueue: int, totalQueue: int, bw: TupleBandwidth, states: Option<map<string, int>>)

  datatype SnapshotRecord = SnapshotRecord(
    capturedAt: int, iface: string, topLimitPerSide: int, topLimit: int,
    sampleSeconds: real, bandwidthAvailable: bool,
    incoming: Option<seq<SnapshotGroup>>, outgoing: Option<seq<SnapshotGroup>>, groups: Option<seq<SnapshotGroup>>,
    version: string, cpuCores: real, rssBytes: nat)

  // ---------- Normalisation ----------

  function NormalAliases(g: SnapshotGroup): SnapshotGroup {
    var port := if g.port == 0 && g.localPort != 0 then g.localPort else g.port;
    var localPort := if g.localPort == 0 && port != 0 then port else g.localPort;
    g.(port := port, localPort := localPort, states := if g.states.None? then Some(map[]) else g.states)
  }

  function NormalGroups(groups: seq<SnapshotGroup>): (r: seq<SnapshotGroup>)
    ensures |r| == |groups|
    ensures forall i :: 0 <= i < |groups| ==> r[i] == NormalAliases(groups[i])
  {
    if groups == [] then []
    else NormalGroups(groups[..|groups| - 1]) + [NormalAliases(groups[|groups| - 1])]
  }

  function Elements(groups: Option<seq<SnapshotGroup>>): seq<SnapshotGroup> {
    if groups.Some? then groups.value else []
  }

  function NormalRecord(r: SnapshotRecord): SnapshotRecord {
    var perSide := if r.topLimitPerSide == 0 && r.topLimit > 0 then r.topLimit else r.topLimitPerSide;
    var limit := if r.topLimit == 0 then perSide else r.topLimit;
    var source :=
      if Elements(r.incoming) == [] && Elements(r.outgoing) == [] && r.groups.Some? then r.groups else r.incoming;
    var incoming, outgoing := NormalGroups(Elements(source)), NormalGroups(Elements(r.outgoing));
    r.(topLimitPerSide := perSide, topLimit := limit,
       incoming := Some(incoming), outgoing := Some(outgoing), groups := Some(incoming))
  }

  /** Normalising a row fills in what is missing and keeps everything else. */
  lemma NormalRowKeeps(g: SnapshotGroup)
    ensures var n := NormalAliases(g);
            && n.(port := g.port, localPort := g.localPort, states := g.states) == g
            && (g.states.Some? ==> n.states == g.states) && (g.states.None? ==> n.states == Some(map[]))
            && (g.port != 0 ==> n.port == g.port) && (g.localPort != 0 ==> n.localPort == g.localPort)
            && (g.port == 0 ==> n.port == g.localPort) && (g.localPort == 0 ==> n.localPort == n.port)
    ensures g.states.Some? && g.port == g.localPort ==> NormalAliases(g) == g
  {
  }

  /** A row that has its state counts and both ports is stored as it is. */
  predicate Settled(g: SnapshotGroup) {
    g.states.Some? && g.port == g.localPort
  }

  lemma SettledRowsStay(groups: seq<SnapshotGroup>)
    requires forall i :: 0 <= i < |groups| ==> Settled(groups[i])
    ensures NormalGroups(groups) == groups
  {
    forall i | 0 <= i < |groups| ensures NormalGroups(groups)[i] == groups[i] { NormalRowKeeps(groups[i]); }
  }

  /** Normalising a record fills in limits and groups and keeps everything else. */
  lemma NormalRecordKeeps(r: SnapshotRecord)
    ensures var n := NormalRecord(r);
            && n.(topLimitPerSide := r.topLimitPerSide, topLimit := r.topLimit, incoming := r.incoming,
                  outgoing := r.outgoing, groups := r.groups) == r
            && (r.topLimitPerSide != 0 || r.topLimit <= 0 ==> n.topLimitPerSide == r.topLimitPerSide)
            && (r.topLimitPerSide == 0 && r.topLimit > 0 ==> n.topLimitPerSide == r.topLimit)
            && n.topLimit == (if r.topLimit == 0 then n.topLimitPerSide else r.topLimit)
            && n.outgoing == Some(NormalGroups(Elements(r.outgoing))) && n.groups == n.incoming
            && (Elements(r.incoming) != [] || Elements(r.outgoing) != [] ==>
                  n.incoming == Some(NormalGroups(Elements(r.incoming))))
            && (Elements(r.incoming) == [] && Elements(r.outgoing) == [] ==>
                  n.incoming == Some(NormalGroups(Elements(r.groups))))
  {
  }

  lemma NormalGroupsTwice(groups: seq<SnapshotGroup>)
    ensures NormalGroups(NormalGroups(groups)) == NormalGroups(groups)
  {
    var once := NormalGroups(groups);
    forall i | 0 <= i < |groups| ensures NormalGroups(once)[i] == once[i] {}
  }

  /** Normalising an already normalised record changes nothing. */
  lemma NormalRecordIdempotent(r: SnapshotRecord)
    ensures NormalRecord(NormalRecord(r)) == NormalRecord(r)
  {
    var n := NormalRecord(r);
    NormalGroupsTwice(Elements(r.incoming));
    NormalGroupsTwice(Elements(r.outgoing));
    NormalGroupsTwice(Elements(r.groups));
  }

  method NormalizeAliases(group: SnapshotGroup) returns (g: SnapshotGroup)
    ensures g == NormalAliases(group)
  {
    g := group;
    if g.port == 0 && g.localPort != 0 {
      g := g.(port := g.localPort);
    }
    if g.localPort == 0 && g.port != 0 {
      g := g.(localPort := g.port);
    }
    if g.states == None {
      g := g.(states := Some(map[]));
    }
  }

  /** Copies the rows and normalises the copies; the result is never nil. */
  method CloneSnapshotGroups(groups: Option<seq<SnapshotGroup>>) returns (cloned: seq<SnapshotGroup>)
    ensures cloned == NormalGroups(Elements(groups))
  {
    if groups.None? || |groups.value| == 0 {
      return [];
    }
    cloned := groups.value;
    for i := 0 to |cloned|
      invariant |cloned| == |groups.value|
      invariant forall j :: 0 <= j < i ==> cloned[j] == NormalAliases(groups.value[j])
      invariant forall j :: i <= j < |cloned| ==> cloned[j] == groups.value[j]
    {
      var g := NormalizeAliases(cloned[i]);
      cloned := cloned[i := g];
    }
  }

  method NormalizeSnapshotRecord(record: SnapshotRecord) returns (r: SnapshotRecord)
    ensures r == NormalRecord(record)
  {
    r := record;
    if r.topLimitPerSide == 0 && r.topLimit > 0 {
      r := r.(topLimitPerSide := r.topLimit);
    }
    if r.topLimit == 0 {
      r := r.(topLimit := r.topLimitPerSide);
    }
    if |Elements(r.incoming)| == 0 && |Elements(r.outgoing)| == 0 && r.groups.Some? {
      var fromGroups := CloneSnapshotGroups(r.groups);
      r := r.(incoming := Some(fromGroups));
    }
    NormalGroupsTwice(Elements(record.groups));
    var incoming := CloneSnapshotGroups(r.incoming);
    var outgoing := CloneSnapshotGroups(r.outgoing);
    NormalGroupsTwice(incoming);
    NormalGroupsTwice(Elements(record.incoming));
    var groups := CloneSnapshotGroups(Some(incoming));
    r := r.(incoming := Some(incoming), outgoing := Some(outgoing), groups := Some(groups));
  }

  // ---------- The line codec ----------

  /** Which required fields a line has. */
  datatype Probe = Probe(topLimitPerSide: bool, incomingGroups: bool, outgoingGroups: bool)

  datatype DecodeError = BadJSON | MissingTopLimit | MissingIncomingGroups | MissingOutgoingGroups

  /** encoding/json and strings.TrimSpace. `unmarshal` fills the struct fields only; the hooks that
      normalise are modelled by Decode. */
  datatype Codec = Codec(
    writable: SnapshotRecord -> bool,
    marshal: SnapshotRecord -> Bytes,
    trim: Bytes -> Bytes,
    probe: Bytes -> Option<Probe>,
    unmarshal: Bytes -> Option<SnapshotRecord>)

  function StripGroups(groups: seq<SnapshotGroup>): (r: seq<SnapshotGroup>)
    ensures |r| == |groups|
    ensures forall i :: 0 <= i < |groups| ==> r[i] == groups[i].(localPort := 0)
  {
    if groups == [] then []
    else StripGroups(groups[..|groups| - 1]) + [groups[|groups| - 1].(localPort := 0)]
  }

  /** The fields tagged "-" are not written. */
  function Strip(r: SnapshotRecord): SnapshotRecord {
    r.(topLimit := 0, groups := None,
       incoming := if r.incoming.Some? then Some(StripGroups(r.incoming.value)) else None,
       outgoing := if r.outgoing.Some? then Some(StripGroups(r.outgoing.value)) else None)
  }

  /** What json.Marshal and json.Unmarshal owe each other. */
  ghost predicate Lawful(codec: Codec) {
    forall r :: codec.writable(r) ==> LawfulAt(codec, r)
  }

  ghost predicate LawfulAt(codec: Codec, r: SnapshotRecord) {
    var line := codec.marshal(r);
    && line != [] && NEWLINE !in line
    && codec.trim(line + [NEWLINE]) == line
    && codec.probe(line) == Some(Probe(true, true, true))
    && codec.unmarshal(line) == Some(Strip(r))
  }

  /** The unmarshalling hooks: every row, then the record. */
  function AfterHooks(r: SnapshotRecord): SnapshotRecord {
    NormalRecord(r.(incoming := if r.incoming.Some? then Some(NormalGroups(r.incoming.value)) else None,
                    outgoing := if r.outgoing.Some? then Some(NormalGroups(r.outgoing.value)) else None))
  }

  /** decodeSnapshotRecordLine */
  function Decode(codec: Codec, line: Bytes): Result<SnapshotRecord, DecodeError> {
    match codec.probe(line)
    case None => Err(BadJSON)
    case Some(probe) =>
      if !probe.topLimitPerSide then Err(MissingTopLimit)
      else if !probe.incomingGroups then Err(MissingIncomingGroups)
      else if !probe.outgoingGroups then Err(MissingOutgoingGroups)
      else match codec.unmarshal(line)
           case None => Err(BadJSON)
           case Some(raw) => Ok(NormalRecord(AfterHooks(raw)))
  }

  /** When a line decodes and why not; what it holds is normalised, which doing so thrice does not change. */
  lemma DecodeMeans(codec: Codec, line: Bytes)
    ensures var probe, raw := codec.probe(line), codec.unmarshal(line);
            match Decode(codec, line)
            case Ok(r) => probe == Some(Probe(true, true, true)) && raw.Some? && r == NormalRecord(raw.value)
            case Err(MissingTopLimit) => probe.Some? && !probe.value.topLimitPerSide
            case Err(MissingIncomingGroups) =>
              probe.Some? && probe.value.topLimitPerSide && !probe.value.incomingGroups
            case Err(MissingOutgoingGroups) =>
              probe.Some? && probe.value.topLimitPerSide && probe.value.incomingGroups && !probe.value.outgoingGroups
            case Err(BadJSON) => probe == None || (probe == Some(Probe(true, true, true)) && raw == None)
  {
    if codec.unmarshal(line).Some? {
      var raw := codec.unmarshal(line).value;
      NormalGroupsTwice(Elements(raw.incoming));
      NormalGroupsTwice(Elements(raw.outgoing));
      NormalRecordIdempotent(raw);
    }
  }

  predicate SamePorts(g: SnapshotGroup) {
    g.port == 0 || g.localPort == 0 || g.port == g.localPort
  }

  predicate AllSamePorts(groups: seq<SnapshotGroup>) {
    forall i :: 0 <= i < |groups| ==> SamePorts(groups[i])
  }

  /** No alias contradicts the field that is written in its place. */
  predicate AliasesAgree(r: SnapshotRecord) {
    && (r.topLimit == 0 || r.topLimit == r.topLimitPerSide || (r.topLimitPerSide == 0 && r.topLimit > 0))
    && AllSamePorts(Elements(r.outgoing))
    && AllSamePorts(if Elements(r.incoming) == [] && Elements(r.outgoing) == [] then Elements(r.groups)
                    else Elements(r.incoming))
  }

  lemma StrippedGroupsReturn(groups: seq<SnapshotGroup>)
    ensures NormalGroups(StripGroups(NormalGroups(groups))) == NormalGroups(groups) <==> AllSamePorts(groups)
  {
    var n := NormalGroups(groups);
    var back := NormalGroups(StripGroups(n));
    forall i | 0 <= i < |groups| ensures back[i] == n[i] <==> SamePorts(groups[i]) {
    }
    if AllSamePorts(groups) {
      assert back == n;
    }
  }

  /** The incoming rows of the normal form come from here. */
  function IncomingSource(r: SnapshotRecord): seq<SnapshotGroup> {
    if Elements(r.incoming) == [] && Elements(r.outgoing) == [] && r.groups.Some? then Elements(r.groups)
    else Elements(r.incoming)
  }

  function Returned(groups: seq<SnapshotGroup>): seq<SnapshotGroup> {
    NormalGroups(StripGroups(NormalGroups(groups)))
  }

  /** What decoding makes of the stripped form of a normalised record. */
  lemma StrippedFields(r: SnapshotRecord)
    ensures var n := NormalRecord(r);
            NormalRecord(AfterHooks(Strip(n)))
            == n.(topLimit := n.topLimitPerSide, incoming := Some(Returned(IncomingSource(r))),
                  outgoing := Some(Returned(Elements(r.outgoing))), groups := Some(Returned(IncomingSource(r))))
  {
    var s := Strip(NormalRecord(r));
    NormalGroupsTwice(StripGroups(NormalGroups(IncomingSource(r))));
    NormalGroupsTwice(StripGroups(NormalGroups(Elements(r.outgoing))));
    NormalRecordIdempotent(s.(incoming := Some(Returned(IncomingSource(r))),
                              outgoing := Some(Returned(Elements(r.outgoing)))));
  }

  /** Decoding the stripped form of a normalised record gives that record back exactly when its
      aliases agree. */
  lemma StrippedRecordReturns(r: SnapshotRecord)
    ensures NormalRecord(AfterHooks(Strip(NormalRecord(r)))) == NormalRecord(r) <==> AliasesAgree(r)
  {
    StrippedFields(r);
    StrippedGroupsReturn(IncomingSource(r));
    StrippedGroupsReturn(Elements(r.outgoing));
  }

  /** Writing a normalised record and decoding the line gives the record back exactly when its
      aliases agree. */
  lemma RoundTrip(codec: Codec, r: SnapshotRecord)
    requires Lawful(codec) && codec.writable(NormalRecord(r))
    ensures Decode(codec, codec.marshal(NormalRecord(r))) == Ok(NormalRecord(r)) <==> AliasesAgree(r)
    ensures Decode(codec, codec.marshal(NormalRecord(r))).Ok?
  {
    assert LawfulAt(codec, NormalRecord(r));
    StrippedRecordReturns(r);
  }
}

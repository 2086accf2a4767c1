/** The inet_diag requests, messages and attributes carried by netlink:
    internal/kernelapi/socket_netlink.go. A parsed address is its 16 bytes; an unparsable one is None. */
module InetDiag {
  import opened Wrappers
  import opened Netlink

  // ---------- Attributes ----------

  const INFO: u16 := 2

  /** The walk over the attributes finds tcp_info, does not find it, or comes back to the offset it was at
      and so never ends. */
  datatype Extract = Found(info: seq<u8>) | Absent | Endless

  /** One step of the walk: the result if it is decided here, else the distance to the next attribute. */
  datatype Step = Decided(result: Extract) | Skip(distance: nat)

  function WalkStep(rest: seq<u8>): (step: Step)
    ensures step.Skip? ==> 4 <= step.distance <= 65532
  {
    if |rest| < 4 then Decided(Absent)
    else
      var length, kind := GetU16(rest[..2]), GetU16(rest[2..4]);
      if length < 4 || length > |rest| then Decided(Absent)
      else if kind == 2 then Decided(Found(rest[4..length]))
      else if Align16(length) == 0 then Decided(Endless)
      else Skip(Align16(length))
  }

  /** The walk from some attribute on. */
  function Walk(rest: seq<u8>): Extract {
    match WalkStep(rest)
    case Decided(result) => result
    case Skip(distance) => if distance <= |rest| then Walk(rest[distance..]) else Absent
  }

  /** Decoding the attribute at an offset. */
  method DecodeAttribute(data: seq<u8>, offset: nat) returns (step: Step)
    requires offset + 4 <= |data|
    ensures step == WalkStep(From(data, offset)) && (step.Skip? ==> step.distance >= 4)
  {
    Slice(data, offset, 0, 2);
    Slice(data, offset, 2, 4);
    var length, kind := GetU16(data[offset..offset + 2]), GetU16(data[offset + 2..offset + 4]);
    if length < 4 || offset + length > |data| {
      return Decided(Absent);
    }
    if kind == INFO {
      Slice(data, offset, 4, length);
      return Decided(Found(data[offset + 4..offset + length]));
    }
    if Align16(length) == 0 {
      return Decided(Endless);
    }
    step := Skip(Align16(length));
  }

  /** The walk has got as far as `offset`. */
  ghost predicate Walking(data: seq<u8>, offset: nat, goal: Extract) {
    forall rest :: rest == From(data, offset) ==> Walk(rest) == goal
  }

  lemma NoAttributeLeft(data: seq<u8>, offset: nat, goal: Extract)
    requires Walking(data, offset, goal) && offset + 4 > |data|
    ensures goal == Absent
  {
    assert Walk(From(data, offset)) == goal;
  }

  lemma DecidedHere(data: seq<u8>, offset: nat, goal: Extract, result: Extract)
    requires Walking(data, offset, goal) && WalkStep(From(data, offset)) == Decided(result)
    ensures goal == result
  {
    assert Walk(From(data, offset)) == goal;
  }

  lemma NextAttribute(data: seq<u8>, offset: nat, goal: Extract, distance: nat, next: nat)
    requires Walking(data, offset, goal) && WalkStep(From(data, offset)) == Skip(distance)
    requires offset <= |data| && next == offset + distance
    ensures Walking(data, next, goal)
  {
    assert Walk(From(data, offset)) == goal;
    if next <= |data| {
      assert From(data, offset)[distance..] == From(data, next);
    }
  }

  /** One turn of the loop: the attribute at an offset decides the walk, or the walk goes on behind it. */
  method StepOver(data: seq<u8>, offset: nat, ghost goal: Extract) returns (step: Step)
    requires offset + 4 <= |data| && Walking(data, offset, goal)
    ensures step.Decided? ==> step.result == goal
    ensures step.Skip? ==> step.distance >= 4 && Walking(data, offset + step.distance, goal)
  {
    step := DecodeAttribute(data, offset);
    if step.Decided? {
      DecidedHere(data, offset, goal, step.result);
    } else {
      NextAttribute(data, offset, goal, step.distance, offset + step.distance);
    }
  }

  /** extractTCPInfo: the part behind the 72 bytes of the message itself is walked. */
  method ExtractTCPInfo(data: seq<u8>) returns (r: Extract)
    ensures r == if |data| < 76 then Absent else Walk(data[72..])
  {
    if |data| < 76 {
      return Absent;
    }
    ghost var goal := Walk(data[72..]);
    var offset := 72;
    while offset + 4 <= |data|
      invariant 72 <= offset && Walking(data, offset, goal)
      decreases |data| - offset
    {
      var step := StepOver(data, offset, goal);
      if step.Decided? {
        return step.result;
      }
      offset := offset + step.distance;
    }
    NoAttributeLeft(data, offset, goal);
    r := Absent;
  }

  /** The 16-bit alignment stands still exactly for the three largest lengths. */
  lemma AlignStandsStill(length: u16)
    requires length >= 4
    ensures Align16(length) == 0 <==> length >= 65533
    ensures Align16(length) != 0 ==> length <= Align16(length) <= length + 3 && Align16(length) % 4 == 0
  {
    if length + 3 < 0x1_0000 { RoundedDown(length + 3); }
  }

  /** The walk can only fail to end on attributes of more than 65532 bytes. */
  lemma {:induction false} EndlessNeedsRoom(rest: seq<u8>)
    requires |rest| < 65533
    ensures Walk(rest) != Endless
    decreases |rest|
  {
    if |rest| >= 4 {
      var length := GetU16(rest[..2]);
      if length >= 4 { AlignStandsStill(length); }
      match WalkStep(rest)
      case Decided(result) =>
      case Skip(distance) => if distance <= |rest| { EndlessNeedsRoom(rest[distance..]); }
    }
  }

  /** The walk ends on every payload that the receiver can yield. */
  lemma ReceivedWalksEnd(datagrams: seq<seq<u8>>, i: nat)
    requires forall k :: 0 <= k < |datagrams| ==> |datagrams[k]| <= 65536
    requires i < |Receive(datagrams).payloads| && |Receive(datagrams).payloads[i]| >= 72
    ensures Walk(Receive(datagrams).payloads[i][72..]) != Endless
  {
    ReceivedFit(datagrams);
    EndlessNeedsRoom(Receive(datagrams).payloads[i][72..]);
  }

  /** Of all sizes, exactly those from 65605 bytes on have a payload on which the walk never ends. */
  lemma EndsExactlyBelow(size: nat)
    requires size >= 76
    ensures (forall data: seq<u8> :: |data| == size ==> Walk(data[72..]) != Endless) <==> size < 65605
  {
    if size < 65605 {
      forall data: seq<u8> | |data| == size ensures Walk(data[72..]) != Endless {
        EndlessNeedsRoom(data[72..]);
      }
    } else {
      var data := EndlessData(size);
      assert Walk(data[72..]) == Endless;
    }
  }

  lemma EndlessData(size: nat) returns (data: seq<u8>)
    requires size >= 65605
    ensures |data| == size && Walk(data[72..]) == Endless
  {
    var attribute: seq<u8> := [0xFD, 0xFF, 1, 0];
    var rest := attribute + Zeros(size - 76);
    data := Zeros(72) + rest;
    assert rest[..2] == [0xFD, 0xFF] && rest[2..4] == [1, 0];
    assert WalkStep(rest) == Decided(Endless);
  }

  datatype Attribute = Attribute(kind: u16, payload: seq<u8>)

  predicate SoundAttributes(attributes: seq<Attribute>) {
    forall i :: 0 <= i < |attributes| ==> 4 + |attributes[i].payload| <= 65532
  }

  function EncodeAttributes(attributes: seq<Attribute>): seq<u8>
    requires SoundAttributes(attributes)
  {
    if attributes == [] then []
    else
      var a := attributes[0];
      var length := 4 + |a.payload|;
      PutU16(length) + PutU16(a.kind) + a.payload + Zeros(Align16(length) - length) + EncodeAttributes(attributes[1..])
  }

  function FirstInfo(attributes: seq<Attribute>): Extract {
    if attributes == [] then Absent
    else if attributes[0].kind == 2 then Found(attributes[0].payload)
    else FirstInfo(attributes[1..])
  }

  /** The fields of an encoded attribute, read where the walk reads them. */
  lemma AttributeFields<T>(length: seq<T>, kind: seq<T>, payload: seq<T>, padding: seq<T>, others: seq<T>)
    requires |length| == |kind| == 2
    ensures var rest, end := length + kind + payload + padding + others, 4 + |payload|;
            && rest[..2] == length && rest[2..4] == kind && rest[4..end] == payload && rest[end + |padding|..] == others
  {
  }

  /** One step of the walk on fields that have been read. */
  lemma WalkOver(rest: seq<u8>, length: u16, kind: u16, payload: seq<u8>, distance: nat, others: seq<u8>)
    requires 4 <= length <= distance <= |rest| && length == 4 + |payload|
    requires rest[..2] == PutU16(length) && rest[2..4] == PutU16(kind) && rest[4..length] == payload
    requires Align16(length) == distance && rest[distance..] == others
    ensures Walk(rest) == if kind == 2 then Found(payload) else Walk(others)
  {
    assert GetU16(rest[..2]) == length && GetU16(rest[2..4]) == kind;
  }

  /** On well-formed attributes the walk finds the first tcp_info there is. */
  lemma {:induction false} FindsFirstInfo(attributes: seq<Attribute>)
    requires SoundAttributes(attributes)
    ensures Walk(EncodeAttributes(attributes)) == FirstInfo(attributes)
  {
    if attributes != [] {
      var a, others := attributes[0], EncodeAttributes(attributes[1..]);
      var length := 4 + |a.payload|;
      AlignStandsStill(length);
      var distance := Align16(length);
      AttributeFields(PutU16(length), PutU16(a.kind), a.payload, Zeros(distance - length), others);
      WalkOver(EncodeAttributes(attributes), length, a.kind, a.payload, distance, others);
      FindsFirstInfo(attributes[1..]);
    }
  }

  // ---------- Addresses ----------

  const AF_INET: u8 := 2

  function MappedPrefix(): (p: seq<u8>)
    ensures |p| == 12
  {
    [0, 0, 0, 0, 0, 0, 0, 0, 0, 0, 0xFF, 0xFF]
  }

  function To4(ip: seq<u8>): (v4: Option<seq<u8>>)
    requires |ip| == 16
    ensures v4.Some? ==> |v4.value| == 4
  {
    if ip[..12] == MappedPrefix() then Some(ip[12..]) else None
  }

  function To16(ip: seq<u8>): seq<u8> {
    if |ip| == 4 then MappedPrefix() + ip else ip
  }

  /** The family destroySocket asks for: AF_INET6 (10) unless both addresses have a 4-byte form. */
  function FamilyFor(localIP: seq<u8>, remoteIP: seq<u8>): u8
    requires |localIP| == |remoteIP| == 16
  {
    if To4(localIP) == None || To4(remoteIP) == None then 10 else 2
  }

  /** What writeIPToSlice leaves in a 16-byte slot. */
  function Slot(before: seq<u8>, ip: Option<seq<u8>>, family: u8): (slot: seq<u8>)
    requires |before| == 16 && (ip.Some? ==> |ip.value| == 16)
    ensures |slot| == 16
  {
    match ip
    case None => before
    case Some(bytes) =>
      if family != 2 then bytes
      else match To4(bytes)
           case None => before
           case Some(v4) => v4 + before[4..]
  }

  method WriteIPToSlice(req: array<u8>, at: nat, ip: Option<seq<u8>>, family: u8)
    requires at + 16 <= req.Length && (ip.Some? ==> |ip.value| == 16)
    modifies req
    ensures req[at..at + 16] == Slot(old(req[at..at + 16]), ip, family)
    ensures req[..at] == old(req[..at]) && req[at + 16..] == old(req[at + 16..])
  {
    if ip.None? {
      return;
    }
    if family == AF_INET {
      var ip4 := To4(ip.value);
      if ip4.Some? {
        forall i | 0 <= i < 4 { req[at + i] := ip4.value[i]; }
      }
    } else {
      forall i | 0 <= i < 16 { req[at + i] := ip.value[i]; }
    }
  }

  // ---------- Requests and messages ----------

  function PutU16BE(x: u16): (b: seq<u8>)
    ensures |b| == 2
  {
    [x / 0x100, x % 0x100]
  }

  function GetU16BE(b: seq<u8>): u16
    requires |b| >= 2
  {
    b[0] as int * 0x100 + b[1] as int
  }

  /** inet_diag_sockid: ports, addresses, wildcard interface and cookie. */
  function SockID(family: u8, localIP: Option<seq<u8>>, localPort: int, remoteIP: Option<seq<u8>>,
                  remotePort: int): (id: seq<u8>)
    requires localIP.Some? ==> |localIP.value| == 16
    requires remoteIP.Some? ==> |remoteIP.value| == 16
    ensures |id| == 48
  {
    PutU16BE(localPort % 0x1_0000) + PutU16BE(remotePort % 0x1_0000)
    + Slot(Zeros(16), localIP, family) + Slot(Zeros(16), remoteIP, family) + Zeros(12)
  }

  /** An address in its slot: 4 bytes for AF_INET, if it has them, else all 16; zeros behind it. */
  predicate InSlot(slot: seq<u8>, ip: seq<u8>, family: u8)
    requires |ip| == 16
  {
    if family != 2 then slot == ip
    else if ip[..12] == [0, 0, 0, 0, 0, 0, 0, 0, 0, 0, 0xFF, 0xFF] then slot == ip[12..] + Zeros(12)
    else slot == Zeros(16)
  }

  /** Where the fields of a socket identifier are; the ports are big-endian. */
  lemma SockIDLayout(family: u8, localIP: seq<u8>, localPort: int, remoteIP: seq<u8>, remotePort: int)
    requires |localIP| == |remoteIP| == 16
    ensures var id := SockID(family, Some(localIP), localPort, Some(remoteIP), remotePort);
            && id[0] as int * 256 + id[1] as int == localPort % 65536
            && id[2] as int * 256 + id[3] as int == remotePort % 65536
            && InSlot(id[4..20], localIP, family) && InSlot(id[20..36], remoteIP, family)
            && id[36..] == Zeros(12)
  {
    var local, remote := Slot(Zeros(16), Some(localIP), family), Slot(Zeros(16), Some(remoteIP), family);
    var sport, dport := PutU16BE(localPort % 0x1_0000), PutU16BE(remotePort % 0x1_0000);
    IDFields(sport, dport, local, remote, Zeros(12));
    ZerosAre(16);
    ZerosAre(12);
    assert Zeros(16)[4..] == Zeros(12);
  }

  /** buildInetDiagReqExact; the port conversion keeps the low 16 bits. */
  method BuildInetDiagReqExact(family: u8, proto: u8, localIP: Option<seq<u8>>, localPort: int,
                               remoteIP: Option<seq<u8>>, remotePort: int)
    returns (req: array<u8>)
    requires localIP.Some? ==> |localIP.value| == 16
    requires remoteIP.Some? ==> |remoteIP.value| == 16
    ensures fresh(req)
    ensures req[..] == [family, proto, 0, 0, 0xFF, 0xFF, 0xFF, 0xFF]
                       + SockID(family, localIP, localPort, remoteIP, remotePort)
  {
    ghost var head: seq<u8> := [family, proto, 0, 0, 0xFF, 0xFF, 0xFF, 0xFF];
    ghost var sport, dport := PutU16BE(localPort % 0x1_0000), PutU16BE(remotePort % 0x1_0000);
    req := new u8[56](_ => 0);
    FillHeader(req, family, proto, localPort, remotePort);
    assert req[..12] == req[..][..12] && req[12..] == req[..][12..];
    FillAddresses(req, family, localIP, remoteIP);
    Reassociate(head, sport, dport, Slot(Zeros(16), localIP, family), Slot(Zeros(16), remoteIP, family), Zeros(12));
  }

  lemma Reassociate<T>(a: seq<T>, b: seq<T>, c: seq<T>, d: seq<T>, e: seq<T>, f: seq<T>)
    ensures (a + b + c) + d + e + f == a + (b + c + d + e + f)
  {
  }

  /** Everything in front of the addresses. */
  method FillHeader(req: array<u8>, family: u8, proto: u8, localPort: int, remotePort: int)
    requires req.Length == 56 && forall i :: 0 <= i < 56 ==> req[i] == 0
    modifies req
    ensures req[..] == [family, proto, 0, 0, 0xFF, 0xFF, 0xFF, 0xFF]
                       + PutU16BE(localPort % 0x1_0000) + PutU16BE(remotePort % 0x1_0000) + Zeros(44)
  {
    var sport, dport: u16 := localPort % 0x1_0000, remotePort % 0x1_0000;
    req[0], req[1], req[2], req[3] := family, proto, 0, 0;
    req[4], req[5], req[6], req[7] := 0xFF, 0xFF, 0xFF, 0xFF;
    req[8], req[9] := sport / 0x100, sport % 0x100;
    req[10], req[11] := dport / 0x100, dport % 0x100;
    HeaderIs(req[..], family, proto, sport, dport);
  }

  lemma HeaderIs(all: seq<u8>, family: u8, proto: u8, sport: u16, dport: u16)
    requires |all| == 56 && forall i :: 12 <= i < 56 ==> all[i] == 0
    requires all[0] == family && all[1] == proto && all[2] == all[3] == 0
    requires all[4] == all[5] == all[6] == all[7] == 0xFF
    requires all[8] == sport / 0x100 && all[9] == sport % 0x100 && all[10] == dport / 0x100 && all[11] == dport % 0x100
    ensures all == [family, proto, 0, 0, 0xFF, 0xFF, 0xFF, 0xFF] + PutU16BE(sport) + PutU16BE(dport) + Zeros(44)
  {
    assert all[..8] == [family, proto, 0, 0, 0xFF, 0xFF, 0xFF, 0xFF];
    assert all[8..10] == PutU16BE(sport) && all[10..12] == PutU16BE(dport);
    NothingButZeros(all[12..]);
  }

  lemma NothingButZeros(s: seq<u8>)
    requires forall i :: 0 <= i < |s| ==> s[i] == 0
    ensures s == Zeros(|s|)
  {
    ZerosAre(|s|);
  }

  /** Both address slots, each written in place. */
  method FillAddresses(req: array<u8>, family: u8, localIP: Option<seq<u8>>, remoteIP: Option<seq<u8>>)
    requires req.Length == 56 && req[12..] == Zeros(44)
    requires localIP.Some? ==> |localIP.value| == 16
    requires remoteIP.Some? ==> |remoteIP.value| == 16
    modifies req
    ensures req[..] == old(req[..12]) + Slot(Zeros(16), localIP, family) + Slot(Zeros(16), remoteIP, family) + Zeros(12)
  {
    ghost var start := req[..];
    ZerosSplit(start);
    assert req[12..28] == start[12..28] && req[..12] == start[..12] && req[28..] == start[28..];
    WriteIPToSlice(req, 12, localIP, family);
    ghost var half := req[..];
    assert half[..12] == start[..12] && half[28..] == start[28..] && half[12..28] == req[12..28];
    assert half[28..44] == half[28..][..16] == start[28..][..16] == start[28..44];
    assert req[28..44] == half[28..44] && req[..28] == half[..28] && req[44..] == half[44..];
    WriteIPToSlice(req, 28, remoteIP, family);
    ghost var end := req[..];
    assert end[..28] == half[..28] && end[44..] == half[44..] && end[28..44] == req[28..44];
    InFourPieces(end, half, start);
  }

  lemma ZerosSplit(start: seq<u8>)
    requires |start| == 56 && start[12..] == Zeros(44)
    ensures start[12..28] == Zeros(16) && start[28..44] == Zeros(16) && start[44..] == Zeros(12)
  {
    ZerosAre(44);
    ZerosAre(16);
    ZerosAre(12);
    assert forall i :: 12 <= i < 56 ==> start[i] == start[12..][i - 12];
  }

  lemma InFourPieces(end: seq<u8>, half: seq<u8>, start: seq<u8>)
    requires |end| == |half| == |start| == 56
    requires end[..28] == half[..28] && end[44..] == half[44..]
    requires half[..12] == start[..12] && half[28..] == start[28..]
    ensures end == start[..12] + half[12..28] + end[28..44] + start[44..]
  {
    assert end[..12] == end[..28][..12] == half[..28][..12] == half[..12];
    assert end[12..28] == end[..28][12..] == half[..28][12..] == half[12..28];
    assert half[44..] == half[28..][16..] == start[28..][16..] == start[44..];
  }

  lemma {:induction false} ZerosAre(n: nat)
    ensures forall i :: 0 <= i < n ==> Zeros(n)[i] == 0
  {
    if n > 0 { ZerosAre(n - 1); }
  }

  datatype DiagMsg = DiagMsg(family: u8, state: u8, localIP: seq<u8>, localPort: int, remoteIP: seq<u8>,
                             remotePort: int)

  /** parseDiagMsg */
  function ParseDiagMsg(data: seq<u8>): Option<DiagMsg> {
    if |data| < 72 then None
    else
      var sid := data[4..];
      var addressSize := if data[0] == 2 then 4 else 16;
      Some(DiagMsg(data[0], data[1], sid[4..4 + addressSize], GetU16BE(sid[..2]),
                   sid[20..20 + addressSize], GetU16BE(sid[2..4])))
  }

  /** Whichever family carries an address, its 16 bytes can be told from the slot. */
  lemma SlotKeepsAddress(ip: seq<u8>, family: u8)
    requires |ip| == 16 && (family == 2 ==> To4(ip).Some?)
    ensures To16(Slot(Zeros(16), Some(ip), family)[..if family == 2 then 4 else 16]) == ip
  {
    if family == 2 {
    } else {
      assert ip[..16] == ip;
    }
  }

  /** A message is read field by field. */
  lemma ParsedFields(head: seq<u8>, a: seq<u8>, b: seq<u8>, local: seq<u8>, remote: seq<u8>, back: seq<u8>,
                     others: seq<u8>)
    requires |head| == 4 && |a| == |b| == 2 && |local| == |remote| == 16 && |back| == 12 && |others| >= 20
    ensures var size := if head[0] == 2 then 4 else 16;
            ParseDiagMsg(head + (a + b + local + remote + back) + others)
            == Some(DiagMsg(head[0], head[1], local[..size], GetU16BE(a), remote[..size], GetU16BE(b)))
  {
    var id := a + b + local + remote + back;
    IDFields(a, b, local, remote, back);
    var data, size := head + id + others, if head[0] == 2 then 4 else 16;
    Behind(head, id, others);
    InFront(id, others, 0, 2);
    InFront(id, others, 2, 4);
    InFront(id, others, 4, 4 + size);
    InFront(id, others, 20, 20 + size);
    assert id[4..4 + size] == id[4..20][..size] && id[20..20 + size] == id[20..36][..size];
    assert data[0] == head[0] && data[1] == head[1];
  }

  lemma Behind<T>(head: seq<T>, id: seq<T>, others: seq<T>)
    ensures (head + id + others)[|head|..] == id + others
  {
  }

  lemma InFront<T>(id: seq<T>, others: seq<T>, i: nat, j: nat)
    requires i <= j <= |id|
    ensures (id + others)[i..j] == id[i..j]
  {
  }

  /** A socket identifier comes apart into its fields. */
  lemma IDFields<T>(a: seq<T>, b: seq<T>, local: seq<T>, remote: seq<T>, back: seq<T>)
    requires |a| == |b| == 2 && |local| == |remote| == 16
    ensures var id := a + b + local + remote + back;
            id[..2] == a && id[2..4] == b && id[4..20] == local && id[20..36] == remote && id[36..] == back
  {
  }

  /** A message about the socket that a request names is read as that socket: the same addresses, whatever
      form they are kept in, and the same ports. */
  lemma RequestedSocketIsParsed(localIP: seq<u8>, localPort: int, remoteIP: seq<u8>, remotePort: int,
                                state: u8, timer: u8, retrans: u8, others: seq<u8>)
    requires |localIP| == |remoteIP| == 16 && |others| >= 20
    requires 0 <= localPort <= 65535 && 0 <= remotePort <= 65535
    ensures var family := FamilyFor(localIP, remoteIP);
            var parsed := ParseDiagMsg([family, state, timer, retrans]
                            + SockID(family, Some(localIP), localPort, Some(remoteIP), remotePort) + others);
            && parsed.Some? && parsed.value.family == family && parsed.value.state == state
            && To16(parsed.value.localIP) == localIP && parsed.value.localPort == localPort
            && To16(parsed.value.remoteIP) == remoteIP && parsed.value.remotePort == remotePort
  {
    var family := FamilyFor(localIP, remoteIP);
    var local, remote := Slot(Zeros(16), Some(localIP), family), Slot(Zeros(16), Some(remoteIP), family);
    ParsedFields([family, state, timer, retrans], PutU16BE(localPort % 0x1_0000), PutU16BE(remotePort % 0x1_0000),
                 local, remote, Zeros(12), others);
    SlotKeepsAddress(localIP, family);
    SlotKeepsAddress(remoteIP, family);
  }
}

/** Netlink framing and the inet_diag messages: internal/kernelapi/socket_netlink.go. */
module Netlink {
  import opened Wrappers
  import opened Sequences

  type u8 = x: int | 0 <= x < 0x100
  type u16 = x: int | 0 <= x < 0x1_0000
  type u32 = x: int | 0 <= x < 0x1_0000_0000

  function GetU16(b: seq<u8>): u16
    requires |b| >= 2
  {
    b[0] as int + b[1] as int * 0x100
  }

  function GetU32(b: seq<u8>): u32
    requires |b| >= 4
  {
    b[0] as int + b[1] as int * 0x100 + b[2] as int * 0x1_0000 + b[3] as int * 0x100_0000
  }

  /** Little-endian. */
  function PutU16(x: u16): (b: seq<u8>)
    ensures |b| == 2 && b[0] as int + 256 * b[1] as int == x
  {
    [x % 0x100, x / 0x100]
  }

  function PutU32(x: u32): (b: seq<u8>)
    ensures |b| == 4 && b[0] as int + 256 * (b[1] as int + 256 * (b[2] as int + 256 * b[3] as int)) == x
  {
    PutU16(x % 0x1_0000) + PutU16(x / 0x1_0000)
  }

  /** (x + 3) & ^3 in 32-bit and in 16-bit arithmetic. */
  function Align32(x: u32): u32 {
    var y := (x + 3) % 0x1_0000_0000;
    y - y % 4
  }

  function Align16(x: u16): u16 {
    var y := (x + 3) % 0x1_0000;
    y - y % 4
  }

  const NLMSG_ERROR: u16 := 2
  const NLMSG_DONE: u16 := 3

  // ---------- Receiving ----------

  datatype End = More | Finished | Failed(code: int)

  datatype Scanned = Scanned(payloads: seq<seq<u8>>, end: End)

  function AsInt32(x: u32): int {
    if x < 0x8000_0000 then x else x - 0x1_0000_0000
  }

  /** How the scan ends at this point of a datagram, unless a plain message begins here. */
  function EndHere(rest: seq<u8>): Option<End> {
    if |rest| < 16 then Some(More)
    else
      var length, kind := GetU32(rest[..4]), GetU16(rest[4..6]);
      if length < 16 || length > |rest| then Some(More)
      else if kind == 3 then Some(Finished)
      else if kind == 2 then
        if length >= 20 && AsInt32(GetU32(rest[16..20])) != 0 then Some(Failed(AsInt32(GetU32(rest[16..20]))))
        else Some(Finished)
      else None
  }

  /** The messages of one datagram from some message on: `rest` begins at that message. */
  function Scan(rest: seq<u8>): Scanned {
    match EndHere(rest)
    case Some(end) => Scanned([], end)
    case None =>
      var length := GetU32(rest[..4]);
      var next := Align32(length);
      var others := if 0 < next <= |rest| then Scan(rest[next..]) else Scanned([], More);
      Scanned([rest[16..length]] + others.payloads, others.end)
  }

  datatype Outcome = Complete | ReadFailed | KernelError(code: int)

  datatype Received = Received(payloads: seq<seq<u8>>, outcome: Outcome)

  /** What the reads in turn amount to; behind the last of them the read fails. */
  function Receive(datagrams: seq<seq<u8>>): Received {
    if datagrams == [] then Received([], ReadFailed)
    else if |datagrams[0]| < 16 then Received([], Complete)
    else
      var first := Scan(datagrams[0]);
      match first.end
      case Finished => Received(first.payloads, Complete)
      case Failed(code) => Received(first.payloads, KernelError(code))
      case More =>
        var others := Receive(datagrams[1..]);
        Received(first.payloads + others.payloads, others.outcome)
  }

  /** Every payload stands behind a header of 16 bytes in its datagram. */
  lemma {:induction false} ScannedFit(rest: seq<u8>)
    ensures forall i :: 0 <= i < |Scan(rest).payloads| ==> |Scan(rest).payloads[i]| + 16 <= |rest|
  {
    if EndHere(rest) == None {
      var next := Align32(GetU32(rest[..4]));
      if 0 < next <= |rest| { ScannedFit(rest[next..]); }
    }
  }

  /** So no payload that the receiver's buffer can yield has more than 65520 bytes. */
  lemma {:induction false} ReceivedFit(datagrams: seq<seq<u8>>)
    requires forall i :: 0 <= i < |datagrams| ==> |datagrams[i]| <= 65536
    ensures forall i :: 0 <= i < |Receive(datagrams).payloads| ==> |Receive(datagrams).payloads[i]| <= 65520
  {
    if datagrams != [] {
      ScannedFit(datagrams[0]);
      ReceivedFit(datagrams[1..]);
    }
  }

  /** The suffix of the received bytes from an offset on, which alignment may have moved past the end. */
  function From(d: seq<u8>, offset: nat): seq<u8> {
    if offset <= |d| then d[offset..] else []
  }

  lemma AlignSmall(length: u32)
    requires 16 <= length <= 65536
    ensures length <= Align32(length) <= length + 3 && Align32(length) % 4 == 0
  {
    RoundedDown(length + 3);
  }

  lemma RoundedDown(y: nat)
    ensures (y - y % 4) % 4 == 0
  {
    assert y - y % 4 == 4 * (y / 4);
  }

  /** The scan has got as far as `offset`. */
  ghost predicate Scanning(d: seq<u8>, offset: nat, payloads: seq<seq<u8>>) {
    Scan(d) == Scanned(payloads + Scan(From(d, offset)).payloads, Scan(From(d, offset)).end)
  }

  /** A plain message at an offset: the scan goes on behind it. */
  lemma ScanGoesOn(d: seq<u8>, offset: nat, length: u32, next: nat)
    requires EndHere(From(d, offset)) == None && length == GetU32(From(d, offset)[..4])
    requires 0 < Align32(length) && next == offset + Align32(length)
    ensures var others := Scan(From(d, next));
            Scan(From(d, offset)) == Scanned([From(d, offset)[16..length]] + others.payloads, others.end)
  {
    var rest := From(d, offset);
    if Align32(length) <= |rest| {
    } else {
    }
  }

  lemma Advance(d: seq<u8>, offset: nat, payloads: seq<seq<u8>>, length: u32) returns (next: nat, payload: seq<u8>)
    requires |d| <= 65536 && Scanning(d, offset, payloads)
    requires EndHere(From(d, offset)) == None && length == GetU32(From(d, offset)[..4])
    ensures next == offset + Align32(length) && offset + length <= |d| && offset + length <= next <= offset + length + 3
    ensures payload == d[offset + 16..offset + length]
    ensures Scanning(d, next, payloads + [payload])
  {
    AlignSmall(length);
    next := offset + Align32(length);
    Slice(d, offset, 16, length);
    payload := d[offset + 16..offset + length];
    ScanGoesOn(d, offset, length, next);
    Associates(payloads, [payload], Scan(From(d, next)).payloads);
  }

  lemma Slice(d: seq<u8>, offset: nat, i: nat, j: nat)
    requires i <= j && offset + j <= |d|
    ensures From(d, offset)[i..j] == d[offset + i..offset + j]
    ensures i == 0 ==> From(d, offset)[..j] == d[offset..offset + j]
  {
  }

  /** Decoding the header at an offset of the buffer. */
  method DecodeHeader(buf: array<u8>, n: nat, offset: nat) returns (stop: Option<End>, length: u32)
    requires offset + 16 <= n <= buf.Length
    ensures stop == EndHere(From(buf[..n], offset)) && length == GetU32(From(buf[..n], offset)[..4])
  {
    ghost var d := buf[..n];
    Slice(d, offset, 0, 4);
    Slice(d, offset, 4, 6);
    assert d[offset..offset + 4] == buf[offset..offset + 4] && d[offset + 4..offset + 6] == buf[offset + 4..offset + 6];
    length := GetU32(buf[offset..offset + 4]);
    var kind := GetU16(buf[offset + 4..offset + 6]);
    stop := None;
    if length < 16 || offset + length > n {
      stop := Some(More);
    } else if kind == NLMSG_DONE {
      stop := Some(Finished);
    } else if kind == NLMSG_ERROR {
      stop := Some(Finished);
      if length >= 20 {
        Slice(d, offset, 16, 20);
        assert d[offset + 16..offset + 20] == buf[offset + 16..offset + 20];
        var code := AsInt32(GetU32(buf[offset + 16..offset + 20]));
        if code != 0 {
          stop := Some(Failed(code));
        }
      }
    }
  }

  /** The inner loop over the first n bytes of the buffer. What is left in the buffer from earlier reads
      does not matter: the result is a function of those n bytes. */
  method ScanBuffer(buf: array<u8>, n: nat) returns (payloads: seq<seq<u8>>, end: End)
    requires n <= buf.Length == 65536
    ensures Scanned(payloads, end) == Scan(buf[..n])
  {
    payloads := [];
    ghost var d := buf[..n];
    assert From(d, 0) == d;
    var offset := 0;
    while offset + 16 <= n
      invariant 0 <= offset <= n + 3 && Scanning(d, offset, payloads)
      decreases n - offset
    {
      var stop, length := DecodeHeader(buf, n, offset);
      if stop.Some? {
        return payloads, stop.value;
      }
      ghost var next, expected := Advance(d, offset, payloads, length);
      payloads := payloads + [buf[..n][offset + 16..offset + length]];
      offset := offset + Align32(length);
    }
    end := More;
  }

  /** The receiver has got through the first k datagrams. */
  ghost predicate Receiving(datagrams: seq<seq<u8>>, k: nat, result: seq<seq<u8>>) {
    && k <= |datagrams|
    && Receive(datagrams) == Received(result + Receive(datagrams[k..]).payloads, Receive(datagrams[k..]).outcome)
  }

  lemma NextDatagram(datagrams: seq<seq<u8>>, k: nat, result: seq<seq<u8>>)
    requires Receiving(datagrams, k, result) && k < |datagrams|
    ensures |datagrams[k]| < 16 ==> Receive(datagrams) == Received(result, Complete)
    ensures |datagrams[k]| >= 16 ==>
              var first := Scan(datagrams[k]);
              match first.end
              case Finished => Receive(datagrams) == Received(result + first.payloads, Complete)
              case Failed(code) => Receive(datagrams) == Received(result + first.payloads, KernelError(code))
              case More => Receiving(datagrams, k + 1, result + first.payloads)
  {
    var left := datagrams[k..];
    assert left[0] == datagrams[k] && left[1..] == datagrams[k + 1..];
    assert result + [] == result;
    Associates(result, Scan(datagrams[k]).payloads, Receive(datagrams[k + 1..]).payloads);
  }

  /** recvNetlinkMsgs: one buffer for all reads, each of at most its size. */
  method RecvNetlinkMsgs(datagrams: seq<seq<u8>>) returns (result: seq<seq<u8>>, outcome: Outcome)
    requires forall i :: 0 <= i < |datagrams| ==> |datagrams[i]| <= 65536
    ensures Received(result, outcome) == Receive(datagrams)
  {
    result := [];
    var buf := new u8[65536];
    assert datagrams[0..] == datagrams && result + Receive(datagrams).payloads == Receive(datagrams).payloads;
    for k := 0 to |datagrams|
      invariant Receiving(datagrams, k, result)
    {
      var n := |datagrams[k]|;
      forall i | 0 <= i < n { buf[i] := datagrams[k][i]; }
      assert buf[..n] == datagrams[k];
      NextDatagram(datagrams, k, result);
      if n < 16 {
        return result, Complete;
      }
      var payloads, end := ScanBuffer(buf, n);
      result := result + payloads;
      match end {
        case Finished => return result, Complete;
        case Failed(code) => return result, KernelError(code);
        case More =>
      }
    }
    assert datagrams[|datagrams|..] == [] && result + [] == result;
    outcome := ReadFailed;
  }

  // ---------- Well-formed messages ----------

  /** A message as section 2.3.2 of RFC 3549 lays it out; `rest` is flags, sequence number and port. */
  datatype Message = Message(kind: u16, rest: seq<u8>, payload: seq<u8>)

  predicate Sound(m: Message) {
    |m.rest| == 10 && 16 + |m.payload| <= 65536
  }

  function Zeros(n: nat): (z: seq<u8>)
    ensures |z| == n
  {
    if n == 0 then [] else Zeros(n - 1) + [0]
  }

  function Encode(m: Message): (b: seq<u8>)
    requires Sound(m)
    ensures |b| == Align32(16 + |m.payload|)
  {
    var length := 16 + |m.payload|;
    PutU32(length) + PutU16(m.kind) + m.rest + m.payload + Zeros(Align32(length) - length)
  }

  predicate Plain(ms: seq<Message>) {
    forall i :: 0 <= i < |ms| ==> Sound(ms[i]) && ms[i].kind != 2 && ms[i].kind != 3
  }

  function EncodeAll(ms: seq<Message>): seq<u8>
    requires Plain(ms)
  {
    if ms == [] then [] else Encode(ms[0]) + EncodeAll(ms[1..])
  }

  function Payloads(ms: seq<Message>): seq<seq<u8>> {
    if ms == [] then [] else [ms[0].payload] + Payloads(ms[1..])
  }

  /** The fields of an encoded message, read where the receiver reads them. */
  lemma EncodedFields(m: Message, more: seq<u8>)
    requires Sound(m)
    ensures var b := Encode(m) + more;
            && GetU32(b[..4]) == 16 + |m.payload| && GetU16(b[4..6]) == m.kind
            && b[16..16 + |m.payload|] == m.payload
            && b[|Encode(m)|..] == more
  {
    var b, length := Encode(m) + more, 16 + |m.payload|;
    assert b[..4] == PutU32(length);
    assert b[4..6] == PutU16(m.kind);
    assert b[16..length] == m.payload;
  }

  lemma ScanOne(m: Message, more: seq<u8>)
    requires Sound(m) && m.kind != 2 && m.kind != 3
    ensures Scan(Encode(m) + more) == Scanned([m.payload] + Scan(more).payloads, Scan(more).end)
  {
    EncodedFields(m, more);
    AlignSmall(16 + |m.payload|);
  }

  lemma {:induction false} ScanPlain(ms: seq<Message>, more: seq<u8>)
    requires Plain(ms)
    ensures Scan(EncodeAll(ms) + more) == Scanned(Payloads(ms) + Scan(more).payloads, Scan(more).end)
  {
    if ms == [] {
      assert EncodeAll(ms) + more == more;
    } else {
      Associates(Encode(ms[0]), EncodeAll(ms[1..]), more);
      ScanOne(ms[0], EncodeAll(ms[1..]) + more);
      ScanPlain(ms[1..], more);
      Associates([ms[0].payload], Payloads(ms[1..]), Scan(more).payloads);
    }
  }

  lemma ScanWhole(ms: seq<Message>)
    requires Plain(ms)
    ensures Scan(EncodeAll(ms)) == Scanned(Payloads(ms), More)
    ensures ms != [] ==> |EncodeAll(ms)| >= 16
  {
    ScanPlain(ms, []);
    assert EncodeAll(ms) + [] == EncodeAll(ms);
    if ms != [] { AlignSmall(16 + |ms[0].payload|); }
  }

  function Datagrams(batches: seq<seq<Message>>): seq<seq<u8>>
    requires forall i :: 0 <= i < |batches| ==> Plain(batches[i])
  {
    if batches == [] then [] else [EncodeAll(batches[0])] + Datagrams(batches[1..])
  }

  function AllPayloads(batches: seq<seq<Message>>): seq<seq<u8>> {
    if batches == [] then [] else Payloads(batches[0]) + AllPayloads(batches[1..])
  }

  lemma {:induction false} ReceivePlain(batches: seq<seq<Message>>, others: seq<seq<u8>>)
    requires forall i :: 0 <= i < |batches| ==> Plain(batches[i]) && batches[i] != []
    ensures Receive(Datagrams(batches) + others)
         == Received(AllPayloads(batches) + Receive(others).payloads, Receive(others).outcome)
  {
    if batches == [] {
      assert Datagrams(batches) + others == others;
    } else {
      var first, rest := EncodeAll(batches[0]), Datagrams(batches[1..]);
      Associates([first], rest, others);
      ScanWhole(batches[0]);
      ReceivePlain(batches[1..], others);
      Associates(Payloads(batches[0]), AllPayloads(batches[1..]), Receive(others).payloads);
    }
  }

  /** The code of an error message: its first four bytes as a signed little-endian number, and none where there
      are no four bytes. */
  function ErrorCode(payload: seq<u8>): int {
    if |payload| < 4 then 0
    else
      var low := payload[0] as int + 256 * (payload[1] as int + 256 * payload[2] as int);
      if payload[3] < 128 then low + 16777216 * payload[3] as int else low + 16777216 * (payload[3] as int - 256)
  }

  /** DONE ends the reception; so does ERROR, with the error of the kernel unless its code is zero. */
  lemma EndsHere(last: Message, more: seq<u8>)
    requires Sound(last) && (last.kind == 3 || last.kind == 2)
    ensures Scan(Encode(last) + more)
         == Scanned([], if last.kind == 2 && ErrorCode(last.payload) != 0 then Failed(ErrorCode(last.payload))
                        else Finished)
  {
    EncodedFields(last, more);
    var rest, length := Encode(last) + more, 16 + |last.payload|;
    if length >= 20 {
      assert rest[16..20] == rest[16..length][..4] == last.payload[..4];
    }
    AlignSmall(length);
  }

  /** Any datagrams of well-formed messages that are neither DONE nor ERROR, then a datagram in which such
      messages are followed by DONE or ERROR and anything at all: exactly their payloads come back, in order,
      and an error if that is what the last message says. */
  lemma ReceivesExactlyThePayloads(batches: seq<seq<Message>>, last: seq<Message>, end: Message,
                                   more: seq<u8>, later: seq<seq<u8>>)
    requires forall i :: 0 <= i < |batches| ==> Plain(batches[i]) && batches[i] != []
    requires Plain(last) && Sound(end) && (end.kind == 3 || end.kind == 2)
    ensures Receive(Datagrams(batches) + ([EncodeAll(last) + (Encode(end) + more)] + later))
         == Received(AllPayloads(batches) + Payloads(last),
                     if end.kind == 2 && ErrorCode(end.payload) != 0 then KernelError(ErrorCode(end.payload))
                     else Complete)
  {
    var final := EncodeAll(last) + (Encode(end) + more);
    ReceivePlain(batches, [final] + later);
    ScanPlain(last, Encode(end) + more);
    EndsHere(end, more);
    AlignSmall(16 + |end.payload|);
    assert ([final] + later)[0] == final;
    assert Payloads(last) + [] == Payloads(last);
  }

  /** Without DONE or ERROR the reception ends as complete on a datagram too short for a header, and as failed
      when no datagram comes any more. */
  lemma EndsWithout(batches: seq<seq<Message>>, short: seq<u8>, later: seq<seq<u8>>)
    requires forall i :: 0 <= i < |batches| ==> Plain(batches[i]) && batches[i] != []
    ensures |short| < 16 ==>
              Receive(Datagrams(batches) + ([short] + later)) == Received(AllPayloads(batches), Complete)
    ensures Receive(Datagrams(batches)) == Received(AllPayloads(batches), ReadFailed)
  {
    ReceivePlain(batches, [short] + later);
    ReceivePlain(batches, []);
    assert Datagrams(batches) + [] == Datagrams(batches);
    assert ([short] + later)[0] == short;
    assert AllPayloads(batches) + [] == AllPayloads(batches);
  }

  /** A message whose end did not fit into its datagram is passed over, with whatever there is of it. */
  lemma CutMessageIsDropped(ms: seq<Message>, cut: Message, n: nat)
    requires Plain(ms) && Sound(cut) && n < 16 + |cut.payload|
    ensures Scan(EncodeAll(ms) + Encode(cut)[..n]) == Scanned(Payloads(ms), More)
  {
    AlignSmall(16 + |cut.payload|);
    ScanPlain(ms, Encode(cut)[..n]);
    EncodedFields(cut, []);
    assert Encode(cut) + [] == Encode(cut);
    if n >= 16 {
      assert Encode(cut)[..n][..4] == Encode(cut)[..4];
      assert EndHere(Encode(cut)[..n]) == Some(More);
    }
    assert Payloads(ms) + [] == Payloads(ms);
  }
}

/** Blocking peers with tagged nftables rules: internal/kernelapi/firewall_nft.go. What net.ParseIP makes of a
    string is a parameter. */
module Firewall {
  import opened Wrappers
  import opened Text
  import opened Dedupe
  import opened Sequences
  import InetDiag
  import Netlink

  type u8 = Netlink.u8

  /** A parsed address, in its 16-byte form. */
  type IP = ip: seq<u8> | |ip| == 16 witness [0, 0, 0, 0, 0, 0, 0, 0, 0, 0, 0, 0, 0, 0, 0, 0]

  datatype PeerBlockSpec = PeerBlockSpec(peerIP: string, localPort: int)

  const TAG_PREFIX := "holyf-network-peer-block:"

  function Tag(spec: PeerBlockSpec): string {
    TAG_PREFIX + Itoa(spec.localPort) + ":" + spec.peerIP
  }

  /** parseUserData */
  function ParseUserData(ud: string, parseIP: string -> Option<IP>): Option<PeerBlockSpec> {
    if !(TAG_PREFIX <= ud) then None
    else
      var rest := ud[|TAG_PREFIX|..];
      var idx := IndexOf(rest, ':');
      if idx < 0 then None
      else match Atoi(rest[..idx])
           case None => None
           case Some(port) =>
             var ip := rest[idx + 1..];
             if parseIP(ip).None? then None else Some(PeerBlockSpec(ip, port))
  }

  /** A specification whose port is a Go int and whose address parses. */
  predicate Blockable(spec: PeerBlockSpec, parseIP: string -> Option<IP>) {
    -MAX_INT64 - 1 <= spec.localPort <= MAX_INT64 && parseIP(spec.peerIP).Some?
  }

  /** A prefix, a part without the separator, the separator and the rest come apart again. */
  lemma ComesApart(prefix: string, a: string, c: char, b: string, s: string)
    requires Lacks(a, c) && s == prefix + (a + [c] + b)
    ensures prefix <= s && s[|prefix|..] == a + [c] + b
    ensures IndexOf(s[|prefix|..], c) == |a|
    ensures s[|prefix|..][..|a|] == a && s[|prefix|..][|a| + 1..] == b
  {
    assert s[|prefix|..] == a + [c] + b;
    FirstSeparator(a, b, c);
  }

  lemma TagParts(spec: PeerBlockSpec)
    ensures TAG_PREFIX <= Tag(spec)
    ensures var rest := Tag(spec)[|TAG_PREFIX|..];
            && IndexOf(rest, ':') == |Itoa(spec.localPort)| < |rest|
            && rest[..|Itoa(spec.localPort)|] == Itoa(spec.localPort)
            && rest[|Itoa(spec.localPort)| + 1..] == spec.peerIP
  {
    ItoaLacks(spec.localPort, ':');
    var port := Itoa(spec.localPort);
    assert Tag(spec) == TAG_PREFIX + (port + [':'] + spec.peerIP);
    ComesApart(TAG_PREFIX, port, ':', spec.peerIP, Tag(spec));
  }

  /** The tag is read back as what it was written for, colons of IPv6 addresses included. */
  lemma TagRoundTrip(spec: PeerBlockSpec, parseIP: string -> Option<IP>)
    requires Blockable(spec, parseIP)
    ensures ParseUserData(Tag(spec), parseIP) == Some(spec)
  {
    TagParts(spec);
    AtoiInvertsItoa(spec.localPort);
  }

  /** Different specifications have different tags, whether they parse or not. */
  lemma TagFaithful(a: PeerBlockSpec, b: PeerBlockSpec)
    ensures Tag(a) == Tag(b) <==> a == b
  {
    if Tag(a) == Tag(b) {
      TagParts(a);
      TagParts(b);
      ItoaInjective(a.localPort, b.localPort);
    }
  }

  // ---------- Rules and packets ----------

  datatype Base = Network | Transport

  /** The expressions of a rule, each working on one register. */
  datatype Expr =
    | LoadProtocol
    | Load(base: Base, offset: nat, length: nat)
    | Compare(data: seq<u8>)
    | Drop

  /** A packet from its network header on, with the place of its transport header and its protocol. */
  datatype Packet = Packet(bytes: seq<u8>, transport: nat, protocol: u8)

  /** Whether the expressions from some point on get as far as the verdict. Loading past the end of a packet
      ends the rule like a comparison that fails. */
  predicate Evaluate(exprs: seq<Expr>, register: seq<u8>, p: Packet) {
    if exprs == [] then false
    else
      match exprs[0]
      case LoadProtocol => Evaluate(exprs[1..], [p.protocol], p)
      case Load(base, offset, length) =>
        var from := (if base == Network then 0 else p.transport) + offset;
        from + length <= |p.bytes| && Evaluate(exprs[1..], p.bytes[from..from + length], p)
      case Compare(data) => register == data && Evaluate(exprs[1..], register, p)
      case Drop => true
  }

  /** buildMatchExprs */
  function MatchExprs(ip: IP, port: int, input: bool): seq<Expr> {
    var ip4 := InetDiag.To4(ip);
    [LoadProtocol, Compare([6])]
    + (if ip4.Some? then [Load(Network, if input then 12 else 16, 4), Compare(ip4.value)]
       else [Load(Network, if input then 8 else 24, 16), Compare(ip)])
    + [Load(Transport, if input then 2 else 0, 2), Compare(InetDiag.PutU16BE(port % 0x1_0000))]
    + [Drop]
  }

  datatype Rule = Rule(exprs: seq<Expr>, userData: string)

  /** The rule for one direction. BlockPeer makes none for an address that does not parse. */
  function RuleFor(spec: PeerBlockSpec, parseIP: string -> Option<IP>, input: bool): Rule {
    var ip := parseIP(spec.peerIP);
    Rule(if ip.Some? then MatchExprs(ip.value, spec.localPort, input) else [], Tag(spec))
  }

  predicate Drops(r: Rule, p: Packet) {
    Evaluate(r.exprs, [], p)
  }

  /** The packet holds these bytes at this place. */
  predicate Holds(p: Packet, at: nat, data: seq<u8>) {
    at + |data| <= |p.bytes| && p.bytes[at..at + |data|] == data
  }

  lemma LoadAndCompare(base: Base, offset: nat, data: seq<u8>, exprs: seq<Expr>, register: seq<u8>, p: Packet)
    ensures Evaluate([Load(base, offset, |data|), Compare(data)] + exprs, register, p)
       <==> Holds(p, (if base == Network then 0 else p.transport) + offset, data) && Evaluate(exprs, data, p)
  {
    var all := [Load(base, offset, |data|), Compare(data)] + exprs;
    assert all[1..][1..] == exprs;
    assert all[1..][0] == Compare(data);
  }

  lemma LoadProtocolAndCompare(exprs: seq<Expr>, p: Packet)
    ensures Evaluate([LoadProtocol, Compare([6])] + exprs, [], p)
       <==> p.protocol == 6 && Evaluate(exprs, [p.protocol], p)
  {
    var all := [LoadProtocol, Compare([6])] + exprs;
    assert all[1..][1..] == exprs;
    assert all[1..][0] == Compare([6]);
  }

  /** A rule drops the TCP packets that have the address and the port in the bytes it looks at. */
  lemma MatchesBytes(ip: IP, port: int, input: bool, p: Packet)
    ensures Evaluate(MatchExprs(ip, port, input), [], p)
       <==> && p.protocol == 6
            && Holds(p, p.transport + (if input then 2 else 0), [port % 0x1_0000 / 0x100, port % 0x100])
            && (if InetDiag.To4(ip).Some? then Holds(p, if input then 12 else 16, ip[12..])
                else Holds(p, if input then 8 else 24, ip))
  {
    var ip4, number := InetDiag.To4(ip), InetDiag.PutU16BE(port % 0x1_0000);
    assert port % 0x1_0000 % 0x100 == port % 0x100;
    var address := if ip4.Some? then ip4.value else ip;
    var at := if ip4.Some? then if input then 12 else 16 else if input then 8 else 24;
    var ports := [Load(Transport, if input then 2 else 0, 2), Compare(number)];
    var exprs := [Load(Network, at, |address|), Compare(address)] + (ports + [Drop]);
    assert MatchExprs(ip, port, input) == [LoadProtocol, Compare([6])] + exprs;
    LoadProtocolAndCompare(exprs, p);
    LoadAndCompare(Network, at, address, ports + [Drop], [p.protocol], p);
    LoadAndCompare(Transport, if input then 2 else 0, number, [Drop], address, p);
  }

  /** The version of a packet, and packets that have their headers up to the ports. */
  predicate IsIPv4(p: Packet) {
    |p.bytes| > 0 && p.bytes[0] / 0x10 == 4
  }

  predicate Whole(p: Packet) {
    && p.transport + 4 <= |p.bytes|
    && (if p.bytes[0] / 0x10 == 4 then p.transport >= 20 else p.bytes[0] / 0x10 == 6 && p.transport >= 40)
  }

  /** The source and destination address of a packet, in 16-byte form. */
  function Source(p: Packet): IP
    requires Whole(p)
  {
    if IsIPv4(p) then [0, 0, 0, 0, 0, 0, 0, 0, 0, 0, 0xFF, 0xFF] + p.bytes[12..16] else p.bytes[8..24]
  }

  function Destination(p: Packet): IP
    requires Whole(p)
  {
    if IsIPv4(p) then [0, 0, 0, 0, 0, 0, 0, 0, 0, 0, 0xFF, 0xFF] + p.bytes[16..20] else p.bytes[24..40]
  }

  function SourcePort(p: Packet): int
    requires Whole(p)
  {
    p.bytes[p.transport] as int * 0x100 + p.bytes[p.transport + 1] as int
  }

  function DestinationPort(p: Packet): int
    requires Whole(p)
  {
    p.bytes[p.transport + 2] as int * 0x100 + p.bytes[p.transport + 3] as int
  }

  /** A TCP packet from the peer to the local port, or back. */
  predicate Between(p: Packet, ip: IP, port: int, input: bool)
    requires Whole(p)
  {
    && p.protocol == 6
    && (if input then Source(p) == ip && DestinationPort(p) == port else Destination(p) == ip && SourcePort(p) == port)
  }

  /** An address in its 4-byte form is looked for in IPv4 packets, any other one in IPv6 packets. */
  predicate SameVersion(p: Packet, ip: IP) {
    IsIPv4(p) <==> ip[..12] == [0, 0, 0, 0, 0, 0, 0, 0, 0, 0, 0xFF, 0xFF]
  }

  lemma PortBytes(p: Packet, at: nat, port: int)
    requires at + 2 <= |p.bytes|
    ensures Holds(p, at, [port % 0x1_0000 / 0x100, port % 0x100])
       <==> p.bytes[at] as int * 0x100 + p.bytes[at + 1] as int == port % 0x1_0000
  {
    var data: seq<u8> := [port % 0x1_0000 / 0x100, port % 0x100];
    assert port % 0x1_0000 % 0x100 == port % 0x100;
    assert p.bytes[at..at + 2] == [p.bytes[at], p.bytes[at + 1]];
    if Holds(p, at, data) { assert p.bytes[at..at + 2][0] == data[0] && p.bytes[at..at + 2][1] == data[1]; }
  }

  lemma AddressBytes(ip: IP, input: bool, p: Packet)
    requires Whole(p) && SameVersion(p, ip)
    ensures (if input then Source(p) else Destination(p)) == ip
       <==> (if IsIPv4(p) then Holds(p, if input then 12 else 16, ip[12..]) else Holds(p, if input then 8 else 24, ip))
  {
    if IsIPv4(p) {
      var prefix: seq<u8> := [0, 0, 0, 0, 0, 0, 0, 0, 0, 0, 0xFF, 0xFF];
      Joined(ip, prefix, if input then p.bytes[12..16] else p.bytes[16..20]);
    }
  }

  lemma Joined<T>(whole: seq<T>, front: seq<T>, back: seq<T>)
    requires front <= whole
    ensures whole == front + back <==> whole[|front|..] == back
  {
    assert whole == front + whole[|front|..];
  }

  /** On packets of the version of the peer's address a rule drops exactly what goes between the two. */
  lemma RuleDropsExactly(ip: IP, port: int, input: bool, p: Packet)
    requires Whole(p) && SameVersion(p, ip)
    ensures Evaluate(MatchExprs(ip, port, input), [], p) <==> Between(p, ip, port % 0x1_0000, input)
  {
    MatchesBytes(ip, port, input, p);
    PortBytes(p, p.transport + (if input then 2 else 0), port);
    AddressBytes(ip, input, p);
  }

  /** The bytes of the address where the peer's own version keeps it, in a packet of the other version. */
  predicate OtherVersionHolds(p: Packet, ip: IP, input: bool) {
    if IsIPv4(p) then Holds(p, if input then 8 else 24, ip) else Holds(p, if input then 12 else 16, ip[12..])
  }

  /** The rules do not look at the version: on the other one they drop the TCP packets of the port that happen
      to have the bytes of the address where the peer's own version keeps it. */
  lemma OtherVersionDropped(ip: IP, port: int, input: bool, p: Packet)
    requires Whole(p) && !SameVersion(p, ip)
    ensures Evaluate(MatchExprs(ip, port, input), [], p)
       <==> && p.protocol == 6
            && (if input then DestinationPort(p) else SourcePort(p)) == port % 0x1_0000
            && OtherVersionHolds(p, ip, input)
  {
    MatchesBytes(ip, port, input, p);
    PortBytes(p, p.transport + (if input then 2 else 0), port);
  }

  // ---------- Rule lists ----------

  /** The chain holds rules for exactly the blocked specifications. */
  ghost predicate Mirrors<R, S>(rules: seq<R>, blocked: set<S>, specOf: R -> Option<S>, ruleFor: S -> R) {
    && (forall r :: r in rules ==> specOf(r).Some? && specOf(r).value in blocked && r == ruleFor(specOf(r).value))
    && (forall s :: s in blocked ==> ruleFor(s) in rules && specOf(ruleFor(s)) == Some(s))
  }

  lemma BlockMirrors<R, S>(rules: seq<R>, blocked: set<S>, specOf: R -> Option<S>, ruleFor: S -> R, s: S)
    requires Mirrors(rules, blocked, specOf, ruleFor) && specOf(ruleFor(s)) == Some(s)
    ensures Mirrors(rules + [ruleFor(s)], blocked + {s}, specOf, ruleFor)
  {
  }

  lemma UnblockMirrors<R, S>(rules: seq<R>, blocked: set<S>, specOf: R -> Option<S>, ruleFor: S -> R, s: S,
                             stays: R -> bool)
    requires Mirrors(rules, blocked, specOf, ruleFor)
    requires forall r :: r in rules ==> (stays(r) <==> specOf(r) != Some(s))
    ensures Mirrors(Filter(rules, stays), blocked - {s}, specOf, ruleFor)
  {
    var left := Filter(rules, stays);
    forall r | r in left ensures specOf(r).Some? && specOf(r).value in blocked - {s} && r == ruleFor(specOf(r).value) {
      FilterHas(rules, stays, r);
    }
    forall t | t in blocked - {s} ensures ruleFor(t) in left && specOf(ruleFor(t)) == Some(t) {
      FilterHas(rules, stays, ruleFor(t));
    }
  }

  /** The listing loop, with its seen-map. */
  method ListSpecs<R, S, K(==)>(rules: seq<R>, specOf: R -> Option<S>, keyOf: S -> K) returns (result: seq<S>)
    ensures result == Fresh({}, Picked(rules, specOf), keyOf)
  {
    result := [];
    var seen: set<K> := {};
    for i := 0 to |rules|
      invariant result == Fresh({}, Picked(rules[..i], specOf), keyOf) && seen == KeysOf(result, keyOf)
    {
      assert rules[..i + 1][..i] == rules[..i];
      var parsed := specOf(rules[i]);
      if parsed.None? {
        continue;
      }
      var spec := parsed.value;
      FreshAppend({}, Picked(rules[..i], specOf), spec, keyOf);
      var key := keyOf(spec);
      if key in seen {
        continue;
      }
      KeysAppend(result, spec, keyOf);
      seen := seen + {key};
      result := result + [spec];
    }
    assert rules[..|rules|] == rules;
  }

  /** Listing both chains gives each blocked specification once. */
  lemma ListingMirrors<R, S, K>(input: seq<R>, output: seq<R>, blocked: set<S>, specOf: R -> Option<S>,
                                ruleIn: S -> R, ruleOut: S -> R, keyOf: S -> K, s: S)
    requires Mirrors(input, blocked, specOf, ruleIn) && Mirrors(output, blocked, specOf, ruleOut)
    requires forall t, u :: keyOf(t) == keyOf(u) ==> t == u
    ensures var listed := Fresh({}, Picked(input + output, specOf), keyOf);
            && (s in listed <==> s in blocked)
            && forall i, j :: 0 <= i < j < |listed| ==> listed[i] != listed[j]
  {
    var specs := Picked(input + output, specOf);
    var listed := Fresh({}, specs, keyOf);
    FreshKeys({}, specs, keyOf);
    PickedHas(input + output, specOf, s);
    if s in specs {
      var i :| 0 <= i < |specs| && specs[i] == s;
      assert keyOf(specs[i]) in KeysOf(listed, keyOf);
      var j :| 0 <= j < |listed| && keyOf(listed[j]) == keyOf(s);
      assert listed[j] == s;
    }
    if s in blocked {
      assert ruleIn(s) in input + output;
    }
  }

  // ---------- The firewall ----------

  /** The table as the kernel keeps it; a chain that does not exist is None. */
  datatype Table = Table(input: Option<seq<Rule>>, output: Option<seq<Rule>>)

  /** Which calls to the kernel succeed. */
  datatype Kernel = Kernel(connects: bool, findsTable: bool, listsChains: bool, getsRules: bool, deletes: bool,
                           flushes: bool)

  datatype FirewallError = NoConnection | NoTable | NoChains | InparseIP | NoRules | CannotDelete | CannotFlush

  function SpecIn(parseIP: string -> Option<IP>): Rule -> Option<PeerBlockSpec> {
    (r: Rule) => ParseUserData(r.userData, parseIP)
  }

  function RuleOf(parseIP: string -> Option<IP>, input: bool): PeerBlockSpec -> Rule {
    (spec: PeerBlockSpec) => RuleFor(spec, parseIP, input)
  }

  function Tagged(tag: string): Rule -> bool {
    (r: Rule) => r.userData == tag
  }

  function Untagged(tag: string): Rule -> bool {
    (r: Rule) => r.userData != tag
  }

  function SpecKey(spec: PeerBlockSpec): string {
    Endpoint(spec.peerIP, spec.localPort)
  }

  function Rules(chain: Option<seq<Rule>>): seq<Rule> {
    if chain.Some? then chain.value else []
  }

  function Kept(chain: Option<seq<Rule>>, stays: Rule -> bool): Option<seq<Rule>> {
    if chain.Some? then Some(Filter(chain.value, stays)) else None
  }

  lemma TaggedIsSpec(rules: seq<Rule>, blocked: set<PeerBlockSpec>, parseIP: string -> Option<IP>, input: bool,
                     spec: PeerBlockSpec)
    requires Mirrors(rules, blocked, SpecIn(parseIP), RuleOf(parseIP, input))
    ensures forall r :: r in rules ==> (Untagged(Tag(spec))(r) <==> SpecIn(parseIP)(r) != Some(spec))
  {
    forall r | r in rules ensures Untagged(Tag(spec))(r) <==> SpecIn(parseIP)(r) != Some(spec) {
      var s := SpecIn(parseIP)(r).value;
      assert r == RuleOf(parseIP, input)(s);
      TagFaithful(s, spec);
    }
  }

  lemma RuleReadsBack(spec: PeerBlockSpec, parseIP: string -> Option<IP>, input: bool)
    requires Blockable(spec, parseIP)
    ensures SpecIn(parseIP)(RuleOf(parseIP, input)(spec)) == Some(spec)
  {
    TagRoundTrip(spec, parseIP);
  }

  /** A chain has a rule with the tag exactly if the specification is blocked. */
  lemma TaggedIsBlocked(rules: seq<Rule>, blocked: set<PeerBlockSpec>, parseIP: string -> Option<IP>, input: bool,
                        spec: PeerBlockSpec)
    requires Mirrors(rules, blocked, SpecIn(parseIP), RuleOf(parseIP, input))
    ensures (exists r :: r in rules && r.userData == Tag(spec)) <==> spec in blocked
  {
    TaggedIsSpec(rules, blocked, parseIP, input, spec);
    if r :| r in rules && r.userData == Tag(spec) {
      assert !Untagged(Tag(spec))(r);
    }
    if spec in blocked {
      assert RuleOf(parseIP, input)(spec) in rules && RuleOf(parseIP, input)(spec).userData == Tag(spec);
    }
  }

  // ---------- What the blocks drop ----------

  predicate ChainDrops(chain: seq<Rule>, p: Packet) {
    exists r :: r in chain && Drops(r, p)
  }

  /** A packet that the block of a specification drops in one direction: what goes between the peer and the
      port, and on the other version of IP what has the bytes of the address. */
  predicate Hit(p: Packet, spec: PeerBlockSpec, parseIP: string -> Option<IP>, input: bool)
    requires Whole(p)
  {
    && parseIP(spec.peerIP).Some?
    && var ip, port := parseIP(spec.peerIP).value, spec.localPort % 0x1_0000;
       if SameVersion(p, ip) then Between(p, ip, port, input)
       else
         && p.protocol == 6 && (if input then DestinationPort(p) else SourcePort(p)) == port
         && OtherVersionHolds(p, ip, input)
  }

  lemma RuleHits(spec: PeerBlockSpec, parseIP: string -> Option<IP>, input: bool, p: Packet)
    requires Whole(p)
    ensures Drops(RuleFor(spec, parseIP, input), p) <==> Hit(p, spec, parseIP, input)
  {
    if parseIP(spec.peerIP).Some? {
      var ip := parseIP(spec.peerIP).value;
      if SameVersion(p, ip) {
        RuleDropsExactly(ip, spec.localPort, input, p);
      } else {
        OtherVersionDropped(ip, spec.localPort, input, p);
      }
    }
  }

  /** A chain of the firewall drops exactly what the blocked specifications hit. */
  lemma ChainDropsTheBlocked(chain: seq<Rule>, blocked: set<PeerBlockSpec>, parseIP: string -> Option<IP>, input: bool,
                             p: Packet)
    requires Mirrors(chain, blocked, SpecIn(parseIP), RuleOf(parseIP, input)) && Whole(p)
    ensures ChainDrops(chain, p) <==> exists spec :: spec in blocked && Hit(p, spec, parseIP, input)
  {
    if r :| r in chain && Drops(r, p) {
      var spec := SpecIn(parseIP)(r).value;
      assert r == RuleOf(parseIP, input)(spec);
      RuleHits(spec, parseIP, input, p);
    }
    if spec :| spec in blocked && Hit(p, spec, parseIP, input) {
      RuleHits(spec, parseIP, input, p);
      assert RuleOf(parseIP, input)(spec) in chain && Drops(RuleOf(parseIP, input)(spec), p);
    }
  }

  /** Blocking an IPv4 peer also drops what comes to the port over IPv6 from every address that has the four
      bytes of the peer behind its first four. */
  lemma BlockHitsAnother(spec: PeerBlockSpec, parseIP: string -> Option<IP>, source: IP) returns (p: Packet)
    requires parseIP(spec.peerIP).Some? && InetDiag.To4(parseIP(spec.peerIP).value) == Some(source[4..8])
    ensures Whole(p) && !IsIPv4(p) && Source(p) == source
    ensures Drops(RuleFor(spec, parseIP, true), p)
  {
    var header: seq<u8> := [0x60, 0, 0, 0, 0, 20, 6, 64];
    var ports: seq<u8> := [0, 0, spec.localPort % 0x1_0000 / 0x100, spec.localPort % 0x100];
    p := Packet(header + source + source + ports, 40, 6);
    assert p.bytes[0] == 0x60 && p.bytes[8..24] == source && p.bytes[12..16] == source[4..8];
    assert p.bytes[42] == ports[2] && p.bytes[43] == ports[3];
    RuleHits(spec, parseIP, true, p);
  }

  class NftFirewall {
    const parseIP: string -> Option<IP>
    var table: Option<Table>
    ghost var blocked: set<PeerBlockSpec>

    /** The table was written by this code alone: both chains mirror the blocked specifications. */
    ghost predicate Valid()
      reads this
    {
      match table
      case None => blocked == {}
      case Some(t) =>
        && t.input.Some? && t.output.Some?
        && Mirrors(t.input.value, blocked, SpecIn(parseIP), RuleOf(parseIP, true))
        && Mirrors(t.output.value, blocked, SpecIn(parseIP), RuleOf(parseIP, false))
    }

    /** ensureTable, where no table was before. */
    constructor (parseIP: string -> Option<IP>)
      ensures Valid() && blocked == {} && this.parseIP == parseIP
      ensures table == Some(Table(Some([]), Some([])))
    {
      this.parseIP := parseIP;
      table := Some(Table(Some([]), Some([])));
      blocked := {};
    }

    method BlockPeer(spec: PeerBlockSpec, k: Kernel) returns (error: Option<FirewallError>)
      requires Valid() && -MAX_INT64 - 1 <= spec.localPort <= MAX_INT64
      modifies this
      ensures Valid()
      ensures error == None <==>
                && k.connects && k.findsTable && k.listsChains && old(table).Some? && k.flushes
                && parseIP(spec.peerIP).Some?
      ensures error == None ==>
                && blocked == old(blocked) + {spec}
                && table == Some(Table(Some(old(table).value.input.value + [RuleFor(spec, parseIP, true)]),
                                       Some(old(table).value.output.value + [RuleFor(spec, parseIP, false)])))
      ensures error != None ==> table == old(table) && blocked == old(blocked)
    {
      if !k.connects {
        return Some(NoConnection);
      }
      if !k.findsTable || table.None? {
        return Some(NoTable);
      }
      if !k.listsChains {
        return Some(NoChains);
      }
      var t := table.value;
      if t.input.None? || t.output.None? {
        return Some(NoChains);
      }
      if parseIP(spec.peerIP).None? {
        return Some(InparseIP);
      }
      if !k.flushes {
        return Some(CannotFlush);
      }
      RuleReadsBack(spec, parseIP, true);
      RuleReadsBack(spec, parseIP, false);
      BlockMirrors(t.input.value, blocked, SpecIn(parseIP), RuleOf(parseIP, true), spec);
      BlockMirrors(t.output.value, blocked, SpecIn(parseIP), RuleOf(parseIP, false), spec);
      table := Some(Table(Some(t.input.value + [RuleFor(spec, parseIP, true)]),
                          Some(t.output.value + [RuleFor(spec, parseIP, false)])));
      blocked := blocked + {spec};
      error := None;
    }

    /** UnblockPeer removes exactly the rules with the specification's tag. */
    method UnblockPeer(spec: PeerBlockSpec, k: Kernel) returns (error: Option<FirewallError>)
      requires Valid()
      modifies this
      ensures Valid()
      ensures error == None <==>
                && k.connects
                && (k.findsTable && old(table).Some? ==>
                      k.getsRules && (k.deletes || spec !in old(blocked)) && k.flushes)
      ensures error == None && k.findsTable ==> blocked == old(blocked) - {spec}
      ensures error == None ==> (spec !in blocked <==> k.findsTable || spec !in old(blocked))
      ensures error == None && k.findsTable && old(table).Some? ==>
                table == Some(Table(Kept(old(table).value.input, Untagged(Tag(spec))),
                                    Kept(old(table).value.output, Untagged(Tag(spec)))))
      ensures error != None || !k.findsTable || old(table).None? ==> table == old(table) && blocked == old(blocked)
    {
      if !k.connects {
        return Some(NoConnection);
      }
      if !k.findsTable || table.None? {
        return None;
      }
      if !k.getsRules {
        return Some(NoRules);
      }
      var t := table.value;
      var tag := Tag(spec);
      TaggedIsSpec(t.input.value, blocked, parseIP, true, spec);
      TaggedIsSpec(t.output.value, blocked, parseIP, false, spec);
      TaggedIsBlocked(t.input.value, blocked, parseIP, true, spec);
      TaggedIsBlocked(t.output.value, blocked, parseIP, false, spec);
      if !k.deletes && (exists r :: r in Rules(t.input) + Rules(t.output) && r.userData == tag) {
        return Some(CannotDelete);
      }
      if !k.flushes {
        return Some(CannotFlush);
      }
      UnblockMirrors(t.input.value, blocked, SpecIn(parseIP), RuleOf(parseIP, true), spec, Untagged(tag));
      UnblockMirrors(t.output.value, blocked, SpecIn(parseIP), RuleOf(parseIP, false), spec, Untagged(tag));
      table := Some(Table(Kept(t.input, Untagged(tag)), Kept(t.output, Untagged(tag))));
      blocked := blocked - {spec};
      error := None;
    }

    /** ListBlockedPeers returns the blocked specifications, each once. */
    method ListBlockedPeers(k: Kernel) returns (result: Result<seq<PeerBlockSpec>, FirewallError>)
      requires Valid()
      ensures result.Ok? <==> k.connects && (!k.findsTable || table.None? || k.getsRules)
      ensures result.Ok? && !k.findsTable ==> result.value == []
      ensures result.Ok? && k.findsTable ==>
                && (forall s :: s in result.value <==> s in blocked)
                && (forall i, j :: 0 <= i < j < |result.value| ==> result.value[i] != result.value[j])
    {
      if !k.connects {
        return Err(NoConnection);
      }
      if !k.findsTable || table.None? {
        return Ok([]);
      }
      if !k.getsRules {
        return Err(NoRules);
      }
      var t := table.value;
      var specs := ListSpecs(Rules(t.input) + Rules(t.output), SpecIn(parseIP), SpecKey);
      forall a, b ensures SpecKey(a) == SpecKey(b) ==> a == b {
        if SpecKey(a) == SpecKey(b) { EndpointInjective(a.peerIP, a.localPort, b.peerIP, b.localPort); }
      }
      forall s ensures s in specs <==> s in blocked {
        ListingMirrors(t.input.value, t.output.value, blocked, SpecIn(parseIP), RuleOf(parseIP, true),
                       RuleOf(parseIP, false), SpecKey, s);
      }
      ListingMirrors(t.input.value, t.output.value, blocked, SpecIn(parseIP), RuleOf(parseIP, true),
                     RuleOf(parseIP, false), SpecKey, PeerBlockSpec("", 0));
      result := Ok(specs);
    }
  }

  /** UnblockPeer can report success and remove nothing: when the tables cannot be listed, the rules of a
      blocked specification stay. */
  method UnblockWithoutTables(spec: PeerBlockSpec, parseIP: string -> Option<IP>)
    returns (firewall: NftFirewall, error: Option<FirewallError>)
    requires Blockable(spec, parseIP)
    ensures fresh(firewall) && error == None
    ensures firewall.blocked == {spec}
    ensures firewall.table == Some(Table(Some([RuleFor(spec, parseIP, true)]), Some([RuleFor(spec, parseIP, false)])))
  {
    firewall := new NftFirewall(parseIP);
    error := firewall.BlockPeer(spec, Kernel(true, true, true, true, true, true));
    assert forall input :: [] + [RuleFor(spec, parseIP, input)] == [RuleFor(spec, parseIP, input)];
    error := firewall.UnblockPeer(spec, Kernel(true, false, true, true, true, true));
  }

  /** Unblocking one specification leaves the rules of every other one where they were. */
  lemma OthersUntouched(chain: seq<Rule>, spec: PeerBlockSpec, other: PeerBlockSpec)
    requires other != spec
    ensures Filter(Filter(chain, Untagged(Tag(spec))), Tagged(Tag(other))) == Filter(chain, Tagged(Tag(other)))
  {
    TagFaithful(other, spec);
    FilterTwice(chain, Untagged(Tag(spec)), Tagged(Tag(other)), Tagged(Tag(other)));
  }
}

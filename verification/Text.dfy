/** Go string helpers (trimming, decimal formatting, byte-wise order) and the string keys that
    stand for tuples. A string is a sequence of code points; UTF-8 keeps their order. */
module Text {
  import opened Wrappers

  // ---------- Trimming ----------

  const WIDE_SPACES := "\U{85}\U{A0}\U{1680}\U{2000}\U{2001}\U{2002}\U{2003}\U{2004}\U{2005}\U{2006}"
    + "\U{2007}\U{2008}\U{2009}\U{200A}\U{2028}\U{2029}\U{202F}\U{205F}\U{3000}"

  predicate OneOf(c: char, table: string) {
    table != [] && (c == table[0] || OneOf(c, table[1..]))
  }

  /** unicode.IsSpace */
  predicate IsSpace(c: char) {
    '\t' <= c <= '\r' || c == ' ' || OneOf(c, WIDE_SPACES)
  }

  function TrimLeft(s: string): string {
    if s != [] && IsSpace(s[0]) then TrimLeft(s[1..]) else s
  }

  function TrimRight(s: string): string {
    if s != [] && IsSpace(s[|s| - 1]) then TrimRight(s[..|s| - 1]) else s
  }

  function TrimSpace(s: string): string {
    TrimRight(TrimLeft(s))
  }

  function TrimPrefix(s: string, prefix: string): string {
    if prefix <= s then s[|prefix|..] else s
  }

  const MAPPED_PREFIX := "::ffff:"

  /** Drops surrounding space and the IPv4-mapped prefix of section 2.5.5.2 of RFC 4291. */
  function NormalizeFlowIP(ip: string): string {
    TrimPrefix(TrimSpace(ip), MAPPED_PREFIX)
  }

  /** One code point of strings.ToUpper, as far as an upper-case ASCII result is concerned. */
  function Upper(c: char): char {
    if 'a' <= c <= 'z' then (c as int - 32) as char
    else if c == '\U{131}' then 'I'
    else if c == '\U{17F}' then 'S'
    else c
  }

  function ToUpper(s: string): (r: string)
    ensures |r| == |s|
  {
    seq(|s|, i requires 0 <= i < |s| => Upper(s[i]))
  }

  predicate Lacks(s: string, c: char) {
    c !in s
  }

  lemma {:induction false} TrimLeftKeeps(s: string, c: char)
    requires Lacks(s, c)
    ensures Lacks(TrimLeft(s), c)
  {
    if s != [] && IsSpace(s[0]) { TrimLeftKeeps(s[1..], c); }
  }

  lemma {:induction false} TrimRightKeeps(s: string, c: char)
    requires Lacks(s, c)
    ensures Lacks(TrimRight(s), c)
  {
    if s != [] && IsSpace(s[|s| - 1]) { TrimRightKeeps(s[..|s| - 1], c); }
  }

  lemma NormalizeKeeps(ip: string, c: char)
    requires Lacks(ip, c)
    ensures Lacks(NormalizeFlowIP(ip), c)
  {
    TrimLeftKeeps(ip, c);
    TrimRightKeeps(TrimLeft(ip), c);
  }

  ghost predicate AllSpace(s: string) {
    forall c :: c in s ==> IsSpace(c)
  }

  lemma {:induction false} TrimLeftDrops(before: string, s: string)
    requires AllSpace(before) && (s == [] || !IsSpace(s[0]))
    ensures TrimLeft(before + s) == s
  {
    if before == [] {
      assert before + s == s;
    } else {
      assert (before + s)[1..] == before[1..] + s;
      TrimLeftDrops(before[1..], s);
    }
  }

  lemma {:induction false} TrimRightDrops(s: string, after: string)
    requires AllSpace(after) && (s == [] || !IsSpace(s[|s| - 1]))
    ensures TrimRight(s + after) == s
  {
    if after == [] {
      assert s + after == s;
    } else {
      var front := after[..|after| - 1];
      assert after == front + [after[|after| - 1]];
      assert (s + after)[..|s + after| - 1] == s + front;
      TrimRightDrops(s, front);
    }
  }

  /** The space around a text goes, and nothing else does. */
  lemma TrimMeans(before: string, text: string, after: string)
    requires AllSpace(before) && AllSpace(after)
    requires text == [] || (!IsSpace(text[0]) && !IsSpace(text[|text| - 1]))
    ensures TrimSpace(before + text + after) == text
  {
    if text == [] {
      assert before + text + after == (before + after) + [];
      TrimLeftDrops(before + after, []);
    } else {
      assert before + text + after == before + (text + after);
      TrimLeftDrops(before, text + after);
      TrimRightDrops(text, after);
    }
  }

  /** The space around an address goes, and the prefix of a mapped one, once. */
  lemma NormalizeMeans(before: string, ip: string, after: string)
    requires AllSpace(before) && AllSpace(after)
    requires ip == [] || (!IsSpace(ip[0]) && !IsSpace(ip[|ip| - 1]))
    ensures NormalizeFlowIP(before + ip + after) == if "::ffff:" <= ip then ip[7..] else ip
  {
    TrimMeans(before, ip, after);
  }

  // ---------- Decimal integers ----------

  predicate IsDigit(c: char) { '0' <= c <= '9' }

  function DigitChar(d: nat): (c: char)
    requires d < 10
    ensures IsDigit(c)
  {
    ('0' as int + d) as char
  }

  function DigitValue(c: char): (d: nat)
    requires IsDigit(c)
    ensures d < 10 && DigitChar(d) == c
  {
    c as int - '0' as int
  }

  function Digits(n: nat): (s: string)
    ensures s != [] && forall i :: 0 <= i < |s| ==> IsDigit(s[i])
  {
    if n < 10 then [DigitChar(n)] else Digits(n / 10) + [DigitChar(n % 10)]
  }

  /** strconv.Itoa and the verb %d. */
  function Itoa(n: int): (s: string)
    ensures s != []
  {
    if n < 0 then "-" + Digits(-n) else Digits(n)
  }

  lemma ItoaLacks(n: int, c: char)
    requires !IsDigit(c) && c != '-'
    ensures Lacks(Itoa(n), c)
  {
  }

  function DigitsValue(s: string): int
    requires forall i :: 0 <= i < |s| ==> IsDigit(s[i])
  {
    if s == [] then 0 else 10 * DigitsValue(s[..|s| - 1]) + DigitValue(s[|s| - 1])
  }

  const MAX_INT64 := 0x7fff_ffff_ffff_ffff

  /** strconv.Atoi on a 64-bit machine: an optional sign, at least one digit, no overflow. */
  function Atoi(s: string): Option<int> {
    var negative := s != [] && s[0] == '-';
    var body := if negative || (s != [] && s[0] == '+') then s[1..] else s;
    if body == [] || exists i :: 0 <= i < |body| && !IsDigit(body[i]) then None
    else
      var value := if negative then -DigitsValue(body) else DigitsValue(body);
      if -MAX_INT64 - 1 <= value <= MAX_INT64 then Some(value) else None
  }

  lemma {:induction false} DigitsRoundTrip(n: nat)
    ensures DigitsValue(Digits(n)) == n
  {
    var s := Digits(n);
    if n < 10 {
      assert s[..0] == [];
      assert DigitsValue(s) == DigitValue(s[0]);
    } else {
      DigitsRoundTrip(n / 10);
      assert s[..|s| - 1] == Digits(n / 10);
    }
  }

  lemma AtoiInvertsItoa(n: int)
    requires -MAX_INT64 - 1 <= n <= MAX_INT64
    ensures Atoi(Itoa(n)) == Some(n)
  {
    var body := Digits(if n < 0 then -n else n);
    DigitsRoundTrip(if n < 0 then -n else n);
    if n < 0 {
      assert Itoa(n)[1..] == body;
    } else {
      assert IsDigit(Itoa(n)[0]);
    }
  }

  lemma ItoaInjective(m: int, n: int)
    requires Itoa(m) == Itoa(n)
    ensures m == n
  {
    DigitsRoundTrip(if m < 0 then -m else m);
    DigitsRoundTrip(if n < 0 then -n else n);
    assert (m < 0) == (Itoa(m)[0] == '-') && (n < 0) == (Itoa(n)[0] == '-');
    if m < 0 {
      assert Itoa(m)[1..] == Digits(-m) && Itoa(n)[1..] == Digits(-n);
    }
  }

  // ---------- Byte-wise order ----------

  predicate LexLess(a: string, b: string) {
    b != [] && (a == [] || a[0] < b[0] || (a[0] == b[0] && LexLess(a[1..], b[1..])))
  }

  /** The strings differ first at position k, or one ends there. */
  predicate LessAt(a: string, b: string, k: nat) {
    k <= |a| && k < |b| && a[..k] == b[..k] && (k == |a| || a[k] < b[k])
  }

  /** The first code points that differ decide; a proper prefix comes first. */
  lemma {:induction false} LexMeans(a: string, b: string)
    ensures LexLess(a, b) <==> exists k :: LessAt(a, b, k)
  {
    if a == [] || b == [] || a[0] != b[0] {
      if b != [] && (a == [] || a[0] < b[0]) { assert LessAt(a, b, 0); }
    } else {
      LexMeans(a[1..], b[1..]);
      if k: nat :| LessAt(a[1..], b[1..], k) {
        assert a[..k + 1] == [a[0]] + a[1..][..k] && b[..k + 1] == [b[0]] + b[1..][..k];
        assert LessAt(a, b, k + 1);
      }
      if k: nat :| LessAt(a, b, k) {
        assert a[1..][..k - 1] == a[..k][1..] && b[1..][..k - 1] == b[..k][1..];
        assert LessAt(a[1..], b[1..], k - 1);
      }
    }
  }

  lemma {:induction false} LexIrreflexive(a: string)
    ensures !LexLess(a, a)
  {
    if a != [] { LexIrreflexive(a[1..]); }
  }

  lemma {:induction false} LexTransitive(a: string, b: string, c: string)
    requires LexLess(a, b) && LexLess(b, c)
    ensures LexLess(a, c)
  {
    if a != [] && a[0] == b[0] && b[0] == c[0] { LexTransitive(a[1..], b[1..], c[1..]); }
  }

  lemma {:induction false} LexTotal(a: string, b: string)
    ensures LexLess(a, b) || a == b || LexLess(b, a)
  {
    if a != [] && b != [] && a[0] == b[0] {
      LexTotal(a[1..], b[1..]);
      if a[1..] == b[1..] { assert a == [a[0]] + a[1..] && b == [b[0]] + b[1..]; }
    }
  }

  lemma LexAsymmetric(a: string, b: string)
    requires LexLess(a, b)
    ensures !LexLess(b, a)
  {
    if LexLess(b, a) {
      LexTransitive(a, b, a);
      LexIrreflexive(a);
    }
  }

  // ---------- Keys ----------

  /** strings.Index for one code point: the first position of c, or -1. */
  function IndexOf(s: string, c: char): (i: int)
    ensures -1 <= i < |s|
    ensures i >= 0 ==> s[i] == c
    ensures forall k :: 0 <= k < (if i < 0 then |s| else i) ==> s[k] != c
  {
    if s == [] then -1
    else if s[0] == c then 0
    else
      var i := IndexOf(s[1..], c);
      assert forall k :: 0 < k < |s| ==> s[k] == s[1..][k - 1];
      if i < 0 then -1 else i + 1
  }

  ghost function LastIndexOf(s: string, c: char): (i: int)
    ensures -1 <= i < |s|
    ensures i >= 0 ==> s[i] == c
    ensures forall k :: i < k < |s| ==> s[k] != c
  {
    if s == [] then -1
    else if s[|s| - 1] == c then |s| - 1
    else LastIndexOf(s[..|s| - 1], c)
  }

  lemma FirstSeparator(a: string, x: string, c: char)
    requires Lacks(a, c)
    ensures IndexOf(a + [c] + x, c) == |a|
  {
    var s := a + [c] + x;
    assert s[|a|] == c;
    assert forall k :: 0 <= k < |a| ==> s[k] == a[k];
  }

  lemma {:induction false} LastSeparator(a: string, x: string, c: char)
    requires Lacks(x, c)
    ensures LastIndexOf(a + [c] + x, c) == |a|
  {
    var s := a + [c] + x;
    if x == [] {
      assert s[|s| - 1] == c;
    } else {
      assert s[|s| - 1] == x[|x| - 1] && s[..|s| - 1] == a + [c] + x[..|x| - 1];
      LastSeparator(a, x[..|x| - 1], c);
    }
  }

  /** Up to the first separator both sides read the same. */
  lemma SplitAtFirst(a: string, b: string, x: string, y: string, c: char)
    requires Lacks(a, c) && Lacks(b, c)
    requires a + [c] + x == b + [c] + y
    ensures a == b && x == y
  {
    var s := a + [c] + x;
    FirstSeparator(a, x, c);
    FirstSeparator(b, y, c);
    assert a == s[..|a|] && b == s[..|b|];
    assert x == s[|a| + 1..] && y == s[|b| + 1..];
  }

  /** From the last separator on both sides read the same. */
  lemma SplitAtLast(a: string, b: string, x: string, y: string, c: char)
    requires Lacks(x, c) && Lacks(y, c)
    requires a + [c] + x == b + [c] + y
    ensures a == b && x == y
  {
    var s := a + [c] + x;
    LastSeparator(a, x, c);
    LastSeparator(b, y, c);
    assert a == s[..|a|] && b == s[..|b|];
    assert x == s[|a| + 1..] && y == s[|b| + 1..];
  }

  datatype FlowTuple = FlowTuple(srcIP: string, srcPort: int, dstIP: string, dstPort: int)

  function NormalizeFlowTuple(t: FlowTuple): FlowTuple {
    t.(srcIP := NormalizeFlowIP(t.srcIP), dstIP := NormalizeFlowIP(t.dstIP))
  }

  /** "%s:%d" */
  function Endpoint(ip: string, port: int): string {
    ip + ":" + Itoa(port)
  }

  /** "%s:%d>%s:%d" */
  function Arrow(t: FlowTuple): string {
    Endpoint(t.srcIP, t.srcPort) + ">" + Endpoint(t.dstIP, t.dstPort)
  }

  function MakeFlowID(orig: FlowTuple, reply: FlowTuple): string {
    Arrow(orig) + "|" + Arrow(reply)
  }

  function ConntrackFlowTupleKey(t: FlowTuple): string {
    Arrow(NormalizeFlowTuple(t))
  }

  function CanonicalKey(orig: FlowTuple, reply: FlowTuple): string {
    var left := ConntrackFlowTupleKey(NormalizeFlowTuple(orig));
    var right := ConntrackFlowTupleKey(NormalizeFlowTuple(reply));
    if !LexLess(right, left) then left + "|" + right else right + "|" + left
  }

  /** "%s|%d|%s|%d" */
  function PipeKey(localIP: string, localPort: int, remoteIP: string, remotePort: int): string {
    localIP + "|" + (Itoa(localPort) + "|" + (remoteIP + "|" + Itoa(remotePort)))
  }

  function ConnectionTupleKey(localIP: string, localPort: int, remoteIP: string, remotePort: int): string {
    PipeKey(NormalizeFlowIP(localIP), localPort, NormalizeFlowIP(remoteIP), remotePort)
  }

  predicate CleanAddress(ip: string) {
    Lacks(ip, '|') && Lacks(ip, '>')
  }

  predicate CleanTuple(t: FlowTuple) {
    CleanAddress(t.srcIP) && CleanAddress(t.dstIP)
  }

  lemma EndpointLacks(ip: string, port: int, c: char)
    requires Lacks(ip, c) && c != ':' && c != '-' && !IsDigit(c)
    ensures Lacks(Endpoint(ip, port), c)
  {
    ItoaLacks(port, c);
  }

  lemma ArrowLacksPipe(t: FlowTuple)
    requires CleanTuple(t)
    ensures Lacks(Arrow(t), '|')
  {
    EndpointLacks(t.srcIP, t.srcPort, '|');
    EndpointLacks(t.dstIP, t.dstPort, '|');
  }

  /** Colons inside an IPv6 address do no harm: the port is what follows the last one. */
  lemma EndpointInjective(a: string, p: int, b: string, q: int)
    requires Endpoint(a, p) == Endpoint(b, q)
    ensures a == b && p == q
  {
    assert Endpoint(a, p) == a + [':'] + Itoa(p) && Endpoint(b, q) == b + [':'] + Itoa(q);
    ItoaLacks(p, ':');
    ItoaLacks(q, ':');
    SplitAtLast(a, b, Itoa(p), Itoa(q), ':');
    ItoaInjective(p, q);
  }

  lemma ArrowInjective(s: FlowTuple, t: FlowTuple)
    requires CleanTuple(s) && CleanTuple(t)
    requires Arrow(s) == Arrow(t)
    ensures s == t
  {
    EndpointLacks(s.srcIP, s.srcPort, '>');
    EndpointLacks(t.srcIP, t.srcPort, '>');
    var s1, s2 := Endpoint(s.srcIP, s.srcPort), Endpoint(s.dstIP, s.dstPort);
    var t1, t2 := Endpoint(t.srcIP, t.srcPort), Endpoint(t.dstIP, t.dstPort);
    assert Arrow(s) == s1 + ['>'] + s2 && Arrow(t) == t1 + ['>'] + t2;
    SplitAtFirst(s1, t1, s2, t2, '>');
    EndpointInjective(s.srcIP, s.srcPort, t.srcIP, t.srcPort);
    EndpointInjective(s.dstIP, s.dstPort, t.dstIP, t.dstPort);
  }

  /** Two keys of the form left|right agree only part by part. */
  lemma PairKeyInjective(a: string, b: string, x: string, y: string)
    requires Lacks(a, '|') && Lacks(x, '|')
    requires a + "|" + b == x + "|" + y
    ensures a == x && b == y
  {
    SplitAtFirst(a, x, b, y, '|');
  }

  /** Flow identifiers collide only for equal orig and reply tuples. */
  lemma FlowIDFaithful(o1: FlowTuple, r1: FlowTuple, o2: FlowTuple, r2: FlowTuple)
    requires CleanTuple(o1) && CleanTuple(r1) && CleanTuple(o2) && CleanTuple(r2)
    ensures MakeFlowID(o1, r1) == MakeFlowID(o2, r2) <==> o1 == o2 && r1 == r2
  {
    if MakeFlowID(o1, r1) == MakeFlowID(o2, r2) {
      ArrowLacksPipe(o1);
      ArrowLacksPipe(o2);
      PairKeyInjective(Arrow(o1), Arrow(r1), Arrow(o2), Arrow(r2));
      ArrowInjective(o1, o2);
      ArrowInjective(r1, r2);
    }
  }

  lemma PipeKeyInjective(a: string, p: int, b: string, q: int, x: string, m: int, y: string, n: int)
    requires Lacks(a, '|') && Lacks(b, '|') && Lacks(x, '|') && Lacks(y, '|')
    ensures PipeKey(a, p, b, q) == PipeKey(x, m, y, n) <==> a == x && p == m && b == y && q == n
  {
    if PipeKey(a, p, b, q) == PipeKey(x, m, y, n) {
      var t1, t2 := b + "|" + Itoa(q), y + "|" + Itoa(n);
      var s1, s2 := Itoa(p) + "|" + t1, Itoa(m) + "|" + t2;
      assert a + "|" + s1 == x + "|" + s2;
      ItoaLacks(p, '|');
      ItoaLacks(m, '|');
      PairKeyInjective(a, s1, x, s2);
      PairKeyInjective(Itoa(p), t1, Itoa(m), t2);
      PairKeyInjective(b, Itoa(q), y, Itoa(n));
      ItoaInjective(p, m);
      ItoaInjective(q, n);
    }
  }

  /** Connection keys collide exactly when the normalised addresses and the ports agree. */
  lemma ConnectionKeyFaithful(s: FlowTuple, t: FlowTuple)
    requires CleanTuple(s) && CleanTuple(t)
    ensures ConnectionTupleKey(s.srcIP, s.srcPort, s.dstIP, s.dstPort)
         == ConnectionTupleKey(t.srcIP, t.srcPort, t.dstIP, t.dstPort)
       <==> NormalizeFlowTuple(s) == NormalizeFlowTuple(t)
  {
    NormalizeKeeps(s.srcIP, '|');
    NormalizeKeeps(s.dstIP, '|');
    NormalizeKeeps(t.srcIP, '|');
    NormalizeKeeps(t.dstIP, '|');
    var a, b := NormalizeFlowTuple(s), NormalizeFlowTuple(t);
    PipeKeyInjective(a.srcIP, a.srcPort, a.dstIP, a.dstPort, b.srcIP, b.srcPort, b.dstIP, b.dstPort);
  }

  lemma NormalizeTupleKeepsClean(t: FlowTuple)
    requires CleanTuple(t)
    ensures CleanTuple(NormalizeFlowTuple(t))
  {
    NormalizeKeeps(t.srcIP, '|');
    NormalizeKeeps(t.dstIP, '|');
    NormalizeKeeps(t.srcIP, '>');
    NormalizeKeeps(t.dstIP, '>');
  }

  /** The canonical key drops the mapped prefix twice. */
  function KeyTuple(t: FlowTuple): FlowTuple {
    NormalizeFlowTuple(NormalizeFlowTuple(t))
  }

  /** Canonical keys collide exactly for equal unordered orig/reply pairs. */
  lemma CanonicalKeyFaithful(o1: FlowTuple, r1: FlowTuple, o2: FlowTuple, r2: FlowTuple)
    requires CleanTuple(o1) && CleanTuple(r1) && CleanTuple(o2) && CleanTuple(r2)
    ensures CanonicalKey(o1, r1) == CanonicalKey(o2, r2) <==>
            (KeyTuple(o1) == KeyTuple(o2) && KeyTuple(r1) == KeyTuple(r2)) ||
            (KeyTuple(o1) == KeyTuple(r2) && KeyTuple(r1) == KeyTuple(o2))
  {
    var a, b, x, y := KeyTuple(o1), KeyTuple(r1), KeyTuple(o2), KeyTuple(r2);
    forall t | t in {o1, r1, o2, r2} ensures CleanTuple(KeyTuple(t)) && Lacks(Arrow(KeyTuple(t)), '|') {
      NormalizeTupleKeepsClean(t);
      NormalizeTupleKeepsClean(NormalizeFlowTuple(t));
      ArrowLacksPipe(KeyTuple(t));
    }
    LexTotal(Arrow(a), Arrow(b));
    LexTotal(Arrow(x), Arrow(y));
    if LexLess(Arrow(a), Arrow(b)) { LexAsymmetric(Arrow(a), Arrow(b)); }
    if LexLess(Arrow(x), Arrow(y)) { LexAsymmetric(Arrow(x), Arrow(y)); }
    if CanonicalKey(o1, r1) == CanonicalKey(o2, r2) {
      var l1, l2 := if LexLess(Arrow(b), Arrow(a)) then b else a, if LexLess(Arrow(y), Arrow(x)) then y else x;
      var g1, g2 := if LexLess(Arrow(b), Arrow(a)) then a else b, if LexLess(Arrow(y), Arrow(x)) then x else y;
      PairKeyInjective(Arrow(l1), Arrow(g1), Arrow(l2), Arrow(g2));
      ArrowInjective(l1, l2);
      ArrowInjective(g1, g2);
    }
  }
}

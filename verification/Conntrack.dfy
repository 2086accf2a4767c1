/** Merging conntrack dumps and adding host-facing flows to the connection list:
    internal/collector/conntrack_flows.go and internal/collector/conntrack_merge.go. */
module Conntrack {
  import opened Wrappers
  import opened Sequences
  import opened Text
  import opened Sorting
  import opened Dedupe
  import opened Bandwidth
  import opened Lookup

  // ---------- Merging dumps ----------

  datatype Score = Score(nonZeroFields: int, totalBytes: int, established: bool)

  predicate IsEstablished(state: string) {
    ToUpper(TrimSpace(state)) == "ESTABLISHED"
  }

  function CountNonZeroByteFields(flow: ConntrackFlow): int {
    (if flow.origBytes > 0 then 1 else 0) + (if flow.replyBytes > 0 then 1 else 0)
  }

  function ScoreOf(flow: ConntrackFlow): Score {
    Score(CountNonZeroByteFields(flow), flow.origBytes + flow.replyBytes, IsEstablished(flow.state))
  }

  predicate Beats(b: Score, a: Score) {
    || b.nonZeroFields > a.nonZeroFields
    || (b.nonZeroFields == a.nonZeroFields && b.totalBytes > a.totalBytes)
    || (b.nonZeroFields == a.nonZeroFields && b.totalBytes == a.totalBytes && b.established && !a.established)
  }

  predicate ShouldPrefer(current: ConntrackFlow, candidate: ConntrackFlow) {
    var currentNonZero, candidateNonZero := CountNonZeroByteFields(current), CountNonZeroByteFields(candidate);
    if candidateNonZero != currentNonZero then candidateNonZero > currentNonZero
    else
      var currentTotal := current.origBytes + current.replyBytes;
      var candidateTotal := candidate.origBytes + candidate.replyBytes;
      if candidateTotal != currentTotal then candidateTotal > currentTotal
      else !IsEstablished(current.state) && IsEstablished(candidate.state)
  }

  /** Preference is a comparison of scores. */
  lemma PreferenceComparesScores(current: ConntrackFlow, candidate: ConntrackFlow)
    ensures ShouldPrefer(current, candidate) <==> Beats(ScoreOf(candidate), ScoreOf(current))
  {
    assert !IsEstablished(current.state) ==> !ScoreOf(current).established;
  }

  /** Surrounding space and case do not matter to the state. */
  lemma EstablishedMeans(before: string, state: string, after: string)
    requires AllSpace(before) && AllSpace(after)
    requires state == [] || (!IsSpace(state[0]) && !IsSpace(state[|state| - 1]))
    ensures IsEstablished(before + state + after) <==> ToUpper(state) == "ESTABLISHED"
  {
    TrimMeans(before, state, after);
  }

  predicate AnyBytes(flow: ConntrackFlow) { flow.origBytes > 0 || flow.replyBytes > 0 }

  predicate BytesBothWays(flow: ConntrackFlow) { flow.origBytes > 0 && flow.replyBytes > 0 }

  /** A counts bytes in more directions than b. */
  predicate CountsMore(a: ConntrackFlow, b: ConntrackFlow) {
    (AnyBytes(a) && !AnyBytes(b)) || (BytesBothWays(a) && !BytesBothWays(b))
  }

  /** A candidate is preferred for counting bytes in more directions, then for more bytes in all, then for being
      the only one that is established. */
  lemma PreferenceMeans(current: ConntrackFlow, candidate: ConntrackFlow, more: int)
    requires more == candidate.origBytes + candidate.replyBytes - current.origBytes - current.replyBytes
    ensures ShouldPrefer(current, candidate)
       <==> || CountsMore(candidate, current)
            || (!CountsMore(current, candidate) && more > 0)
            || (!CountsMore(current, candidate) && more == 0
                && IsEstablished(candidate.state) && !IsEstablished(current.state))
  {
  }

  function Put<F, K>(dst: map<K, F>, flow: F, keyOf: F -> K, scoreOf: F -> Score): map<K, F> {
    if keyOf(flow) !in dst || Beats(scoreOf(flow), scoreOf(dst[keyOf(flow)])) then dst[keyOf(flow) := flow] else dst
  }

  function Merge<F, K>(dst: map<K, F>, flows: seq<F>, keyOf: F -> K, scoreOf: F -> Score): map<K, F> {
    if flows == [] then dst
    else Put(Merge(dst, flows[..|flows| - 1], keyOf, scoreOf), flows[|flows| - 1], keyOf, scoreOf)
  }

  /** All flows that compete for a key, in order of arrival. */
  function Candidates<F, K(==)>(dst: map<K, F>, flows: seq<F>, key: K, keyOf: F -> K): seq<F> {
    if flows == [] then (if key in dst then [dst[key]] else [])
    else
      var front, last := Candidates(dst, flows[..|flows| - 1], key, keyOf), flows[|flows| - 1];
      if keyOf(last) == key then front + [last] else front
  }

  /** Position i holds the first flow of maximal score. */
  ghost predicate FirstBestAt<F>(flows: seq<F>, i: int, scoreOf: F -> Score) {
    && 0 <= i < |flows|
    && (forall j :: 0 <= j < i ==> Beats(scoreOf(flows[i]), scoreOf(flows[j])))
    && (forall j :: i <= j < |flows| ==> !Beats(scoreOf(flows[j]), scoreOf(flows[i])))
  }

  ghost predicate FirstBest<F>(flows: seq<F>, best: F, scoreOf: F -> Score) {
    exists i :: FirstBestAt(flows, i, scoreOf) && flows[i] == best
  }

  lemma BestAfterOneMore<F>(flows: seq<F>, best: F, next: F, scoreOf: F -> Score)
    requires FirstBest(flows, best, scoreOf)
    ensures FirstBest(flows + [next], if Beats(scoreOf(next), scoreOf(best)) then next else best, scoreOf)
  {
    var i :| FirstBestAt(flows, i, scoreOf) && flows[i] == best;
    var all := flows + [next];
    assert forall j :: 0 <= j < |flows| ==> all[j] == flows[j];
    if Beats(scoreOf(next), scoreOf(best)) {
      assert FirstBestAt(all, |flows|, scoreOf);
    } else {
      assert FirstBestAt(all, i, scoreOf);
    }
  }

  /** Whatever the dumps, each key keeps the first flow of maximal score among its candidates. */
  lemma {:induction false} MergeKeepsFirstBest<F, K>(dst: map<K, F>, flows: seq<F>, key: K,
                                                    keyOf: F -> K, scoreOf: F -> Score)
    ensures key in Merge(dst, flows, keyOf, scoreOf) <==> Candidates(dst, flows, key, keyOf) != []
    ensures key in Merge(dst, flows, keyOf, scoreOf) ==>
              FirstBest(Candidates(dst, flows, key, keyOf), Merge(dst, flows, keyOf, scoreOf)[key], scoreOf)
  {
    if flows == [] {
      if key in dst { assert FirstBestAt([dst[key]], 0, scoreOf); }
    } else {
      var front, last := flows[..|flows| - 1], flows[|flows| - 1];
      MergeKeepsFirstBest(dst, front, key, keyOf, scoreOf);
      var before, cs := Merge(dst, front, keyOf, scoreOf), Candidates(dst, front, key, keyOf);
      if keyOf(last) == key {
        if key in before {
          BestAfterOneMore(cs, before[key], last, scoreOf);
        } else {
          assert cs + [last] == [last];
          assert FirstBestAt([last], 0, scoreOf);
        }
      }
    }
  }

  /** Merging one dump and then another is merging the two as one. */
  lemma {:induction false} MergeConcat<F, K>(dst: map<K, F>, a: seq<F>, b: seq<F>, keyOf: F -> K, scoreOf: F -> Score)
    ensures Merge(Merge(dst, a, keyOf, scoreOf), b, keyOf, scoreOf) == Merge(dst, a + b, keyOf, scoreOf)
  {
    if b == [] {
      assert a + b == a;
    } else {
      MergeConcat(dst, a, b[..|b| - 1], keyOf, scoreOf);
      assert (a + b)[..|a + b| - 1] == a + b[..|b| - 1];
    }
  }

  lemma {:induction false} CandidatesAre<F, K>(flows: seq<F>, key: K, keyOf: F -> K, f: F)
    ensures f in Candidates(map[], flows, key, keyOf) <==> f in flows && keyOf(f) == key
  {
    if flows != [] {
      var front, last := flows[..|flows| - 1], flows[|flows| - 1];
      CandidatesAre(front, key, keyOf, f);
      assert flows == front + [last];
    }
  }

  lemma SameBestScore<F>(a: seq<F>, b: seq<F>, x: F, y: F, scoreOf: F -> Score)
    requires FirstBest(a, x, scoreOf) && FirstBest(b, y, scoreOf)
    requires x in b && y in a
    ensures scoreOf(x) == scoreOf(y)
  {
    var i :| FirstBestAt(a, i, scoreOf) && a[i] == x;
    var j :| FirstBestAt(b, j, scoreOf) && b[j] == y;
    var k :| 0 <= k < |a| && a[k] == y;
    var l :| 0 <= l < |b| && b[l] == x;
    assert !Beats(scoreOf(a[k]), scoreOf(a[i]));
    assert !Beats(scoreOf(b[l]), scoreOf(b[j]));
  }

  /** In whatever order the flows of the dumps come, the same keys win with the same scores. */
  lemma WinningScoreOrderFree<F, K>(a: seq<F>, b: seq<F>, key: K, keyOf: F -> K, scoreOf: F -> Score)
    requires multiset(a) == multiset(b)
    ensures var ma, mb := Merge(map[], a, keyOf, scoreOf), Merge(map[], b, keyOf, scoreOf);
            && (key in ma <==> key in mb)
            && (key in ma ==> scoreOf(ma[key]) == scoreOf(mb[key]))
  {
    MergeKeepsFirstBest(map[], a, key, keyOf, scoreOf);
    MergeKeepsFirstBest(map[], b, key, keyOf, scoreOf);
    var ca, cb := Candidates(map[], a, key, keyOf), Candidates(map[], b, key, keyOf);
    SameElements(a, b);
    if ca != [] {
      assert ca[0] in ca;
      CandidatesAre(a, key, keyOf, ca[0]);
      CandidatesAre(b, key, keyOf, ca[0]);
    }
    if cb != [] {
      assert cb[0] in cb;
      CandidatesAre(a, key, keyOf, cb[0]);
      CandidatesAre(b, key, keyOf, cb[0]);
    }
    if ca != [] && cb != [] {
      var x, y := Merge(map[], a, keyOf, scoreOf)[key], Merge(map[], b, keyOf, scoreOf)[key];
      CandidatesAre(a, key, keyOf, x);
      CandidatesAre(b, key, keyOf, x);
      CandidatesAre(a, key, keyOf, y);
      CandidatesAre(b, key, keyOf, y);
      SameBestScore(ca, cb, x, y, scoreOf);
    }
  }

  function FlowKey(flow: ConntrackFlow): string {
    CanonicalKey(flow.orig, flow.reply)
  }

  ghost predicate ComparesScores<F(!new)>(prefer: (F, F) -> bool, scoreOf: F -> Score) {
    forall current, candidate :: prefer(current, candidate) <==> Beats(scoreOf(candidate), scoreOf(current))
  }

  /** mergeConntrackFlowSet; the destination map is passed in and handed back. */
  method MergeConntrackFlowSet<F(!new), K(==)>(dst: map<K, F>, flows: seq<F>, keyOf: F -> K, prefer: (F, F) -> bool,
                                         ghost scoreOf: F -> Score)
    returns (merged: map<K, F>)
    requires ComparesScores(prefer, scoreOf)
    ensures merged == Merge(dst, flows, keyOf, scoreOf)
  {
    merged := dst;
    for i := 0 to |flows|
      invariant merged == Merge(dst, flows[..i], keyOf, scoreOf)
    {
      var flow := flows[i];
      var key := keyOf(flow);
      assert flows[..i + 1][..i] == flows[..i];
      if key !in merged || prefer(merged[key], flow) {
        merged := merged[key := flow];
      }
    }
    assert flows[..|flows|] == flows;
  }

  lemma LexOrder()
    ensures StrictOrder(LexLess)
  {
    forall a ensures !LexLess(a, a) { LexIrreflexive(a); }
    forall a, b, c | LexLess(a, b) && LexLess(b, c) ensures LexLess(a, c) { LexTransitive(a, b, c); }
  }

  ghost predicate InKeyOrder<F>(out: seq<F>, rows: map<string, F>, order: seq<string>) {
    && Ascending(order, LexLess) && (forall key :: key in order <==> key in rows)
    && |out| == |order| && forall i :: 0 <= i < |out| ==> order[i] in rows && out[i] == rows[order[i]]
  }

  /** The flows of the map in ascending order of their keys. */
  method FlowMapToSortedSlice<F>(rows: map<string, F>) returns (out: seq<F>)
    ensures exists order :: InKeyOrder(out, rows, order)
  {
    var keys := InSomeOrder(rows.Keys);
    forall i, j | 0 <= i < j < |keys| ensures LexLess(keys[i], keys[j]) || LexLess(keys[j], keys[i]) {
      LexTotal(keys[i], keys[j]);
    }
    LexOrder();
    SortAscending(keys, LexLess);
    SameElements(keys, Sort(keys, LexLess));
    keys := Sort(keys, LexLess);
    out := [];
    for i := 0 to |keys|
      invariant |out| == i
      invariant forall j :: 0 <= j < i ==> keys[j] in rows && out[j] == rows[keys[j]]
    {
      assert keys[i] in keys;
      out := out + [rows[keys[i]]];
    }
    assert InKeyOrder(out, rows, keys);
  }

  /** There is only one such slice, whatever order the map was visited in. */
  lemma SliceUnique<F>(a: seq<F>, b: seq<F>, rows: map<string, F>, orderA: seq<string>, orderB: seq<string>)
    requires InKeyOrder(a, rows, orderA) && InKeyOrder(b, rows, orderB)
    ensures a == b
  {
    LexOrder();
    AscendingDetermined(orderA, orderB, LexLess);
  }

  /** What comes of one dump: it fails, or so many of its lines look like flows and these can be decoded. */
  datatype Dump<F> = Failed | Output(flows: seq<F>, candidateLines: nat)

  datatype CollectError = DumpFailed | NothingDecoded | AccountingOff

  /** The flows of the dumps that succeeded. */
  function AllFlows<F>(dumps: seq<Dump<F>>): seq<F> {
    if dumps == [] then []
    else
      var front, last := AllFlows(dumps[..|dumps| - 1]), dumps[|dumps| - 1];
      if last.Output? then front + last.flows else front
  }

  /** The trouble that a dump leaves behind: it failed, or none of its lines could be decoded. */
  function TroubleOf<F>(dump: Dump<F>): Option<CollectError> {
    match dump
    case Failed => Some(DumpFailed)
    case Output(flows, candidateLines) => if |flows| == 0 && candidateLines > 0 then Some(NothingDecoded) else None
  }

  /** The trouble that came last. */
  function LastTrouble<F>(dumps: seq<Dump<F>>): Option<CollectError> {
    if dumps == [] then None
    else
      var trouble := TroubleOf(dumps[|dumps| - 1]);
      if trouble.Some? then trouble else LastTrouble(dumps[..|dumps| - 1])
  }

  /** The flows of the dumps that succeeded, and no others. */
  lemma {:induction false} AllFlowsHas<F>(dumps: seq<Dump<F>>, f: F)
    ensures f in AllFlows(dumps) <==> exists i :: 0 <= i < |dumps| && dumps[i].Output? && f in dumps[i].flows
  {
    if dumps != [] {
      var front := dumps[..|dumps| - 1];
      AllFlowsHas(front, f);
      assert forall i :: 0 <= i < |front| ==> front[i] == dumps[i];
    }
  }

  predicate Fine<F>(dump: Dump<F>) {
    dump.Output? && (dump.flows != [] || dump.candidateLines == 0)
  }

  predicate Troubled<F>(dump: Dump<F>, trouble: CollectError) {
    match trouble
    case DumpFailed => dump.Failed?
    case NothingDecoded => dump.Output? && dump.flows == [] && dump.candidateLines > 0
    case AccountingOff => false
  }

  /** Dump i is the last one with any trouble, and has this one. */
  ghost predicate LastTroubledAt<F>(dumps: seq<Dump<F>>, trouble: CollectError, i: nat) {
    i < |dumps| && Troubled(dumps[i], trouble) && forall j :: i < j < |dumps| ==> Fine(dumps[j])
  }

  /** The last dump with trouble decides which it is. */
  lemma {:induction false} LastTroubleMeans<F>(dumps: seq<Dump<F>>, trouble: CollectError)
    ensures LastTrouble(dumps) == Some(trouble) <==> exists i: nat :: LastTroubledAt(dumps, trouble, i)
  {
    if dumps != [] {
      var front, last := dumps[..|dumps| - 1], dumps[|dumps| - 1];
      LastTroubleMeans(front, trouble);
      if Fine(last) {
        assert forall i: nat :: LastTroubledAt(dumps, trouble, i) <==> LastTroubledAt(front, trouble, i);
      } else {
        assert forall i: nat :: LastTroubledAt(dumps, trouble, i) ==> i == |dumps| - 1;
        if Troubled(last, trouble) { assert LastTroubledAt(dumps, trouble, |dumps| - 1); }
      }
    }
  }

  predicate AnySucceeded<F>(dumps: seq<Dump<F>>) {
    exists i :: 0 <= i < |dumps| && dumps[i].Output?
  }

  predicate AnyCandidates<F>(dumps: seq<Dump<F>>) {
    exists i :: 0 <= i < |dumps| && dumps[i].Output? && dumps[i].candidateLines > 0
  }

  lemma OneMoreDump<F>(dumps: seq<Dump<F>>, i: nat)
    requires i < |dumps|
    ensures AllFlows(dumps[..i + 1]) == if dumps[i].Output? && |dumps[i].flows| > 0
                                        then AllFlows(dumps[..i]) + dumps[i].flows else AllFlows(dumps[..i])
    ensures LastTrouble(dumps[..i + 1])
         == if TroubleOf(dumps[i]).Some? then TroubleOf(dumps[i]) else LastTrouble(dumps[..i])
    ensures AnySucceeded(dumps[..i + 1]) <==> AnySucceeded(dumps[..i]) || dumps[i].Output?
    ensures AnyCandidates(dumps[..i + 1])
       <==> AnyCandidates(dumps[..i]) || (dumps[i].Output? && dumps[i].candidateLines > 0)
  {
    var front, all := dumps[..i], dumps[..i + 1];
    assert all[..i] == front && all[i] == dumps[i];
    assert forall j :: 0 <= j < i ==> all[j] == front[j];
    assert AllFlows(front) + [] == AllFlows(front);
  }

  /** The dumps of one collection, tried in turn; a failed one is skipped. */
  method MergeDumps<F(!new), K(==)>(dumps: seq<Dump<F>>, keyOf: F -> K, prefer: (F, F) -> bool,
                                    ghost scoreOf: F -> Score)
    returns (merged: map<K, F>, candidateLines: nat, successfulDump: bool, lastError: Option<CollectError>)
    requires ComparesScores(prefer, scoreOf)
    ensures merged == Merge(map[], AllFlows(dumps), keyOf, scoreOf)
    ensures candidateLines > 0 <==> AnyCandidates(dumps)
    ensures successfulDump <==> AnySucceeded(dumps)
    ensures lastError == LastTrouble(dumps)
  {
    merged, candidateLines, successfulDump, lastError := map[], 0, false, None;
    for i := 0 to |dumps|
      invariant merged == Merge(map[], AllFlows(dumps[..i]), keyOf, scoreOf)
      invariant candidateLines > 0 <==> AnyCandidates(dumps[..i])
      invariant successfulDump <==> AnySucceeded(dumps[..i])
      invariant lastError == LastTrouble(dumps[..i])
    {
      OneMoreDump(dumps, i);
      match dumps[i] {
        case Failed =>
          lastError := Some(DumpFailed);
        case Output(flows, candidates) =>
          successfulDump := true;
          candidateLines := candidateLines + candidates;
          MergeConcat(map[], AllFlows(dumps[..i]), flows, keyOf, scoreOf);
          if |flows| == 0 {
            if candidates > 0 {
              lastError := Some(NothingDecoded);
            }
          } else {
            merged := MergeConntrackFlowSet(merged, flows, keyOf, prefer, scoreOf);
          }
      }
    }
    assert dumps[..|dumps|] == dumps;
  }

  lemma {:induction false} MergedSome<F, K>(flows: seq<F>, keyOf: F -> K, scoreOf: F -> Score)
    ensures Merge(map[], flows, keyOf, scoreOf) == map[] <==> flows == []
  {
    if flows != [] {
      var key := keyOf(flows[|flows| - 1]);
      MergeKeepsFirstBest(map[], flows, key, keyOf, scoreOf);
      CandidatesAre(flows, key, keyOf, flows[|flows| - 1]);
    }
  }

  lemma OrderedSome<F>(out: seq<F>, rows: map<string, F>, order: seq<string>)
    requires InKeyOrder(out, rows, order)
    ensures out == [] <==> rows == map[]
  {
    if out != [] {
      assert order[0] in rows;
    }
    if rows != map[] {
      var key :| key in rows;
      assert key in order;
    }
  }

  /** Without any flow, lines that look like flows or the lack of a dump that succeeds leave trouble behind. */
  lemma {:induction false} UndecodedIsTrouble<F>(dumps: seq<Dump<F>>)
    requires AllFlows(dumps) == [] && (AnyCandidates(dumps) || !AnySucceeded(dumps)) && dumps != []
    ensures LastTrouble(dumps).Some?
  {
    var front, last := dumps[..|dumps| - 1], dumps[|dumps| - 1];
    assert dumps == front + [last];
    if TroubleOf(last).None? {
      assert last.Output?;
      var i :| 0 <= i < |dumps| && dumps[i].Output? && dumps[i].candidateLines > 0;
      assert i < |front| && front[i] == dumps[i];
      UndecodedIsTrouble(front);
    }
  }

  predicate NoneCounts<F>(flows: seq<F>, counts: F -> bool) {
    forall i :: 0 <= i < |flows| ==> !counts(flows[i])
  }

  /** The collection fails exactly when nothing was decoded although something was to be, or when the kernel is
      known not to count bytes and none are counted. `accounting` is None when that is not known. */
  function CollectTrouble<F>(dumps: seq<Dump<F>>, flows: seq<F>, counts: F -> bool, accounting: Option<bool>)
    : Option<CollectError>
  {
    if |flows| > 0 then
      if NoneCounts(flows, counts) && accounting == Some(false) then Some(AccountingOff) else None
    else if !AnySucceeded(dumps) then LastTrouble(dumps)
    else if !AnyCandidates(dumps) then None
    else if accounting == Some(false) then Some(AccountingOff)
    else LastTrouble(dumps)
  }

  /** What is reported, with the flows already in order. */
  method ChooseError<F>(flows: seq<F>, counts: F -> bool, candidateLines: nat, successfulDump: bool,
                        lastError: Option<CollectError>, accounting: Option<bool>, ghost dumps: seq<Dump<F>>)
    returns (error: Option<CollectError>)
    requires candidateLines > 0 <==> AnyCandidates(dumps)
    requires successfulDump <==> AnySucceeded(dumps)
    requires lastError == LastTrouble(dumps) && (flows == [] <==> AllFlows(dumps) == [])
    ensures error == CollectTrouble(dumps, flows, counts, accounting)
    ensures flows == [] ==> (error == None <==> !AnyCandidates(dumps) && (AnySucceeded(dumps) || dumps == []))
  {
    if dumps != [] && flows == [] && (AnyCandidates(dumps) || !AnySucceeded(dumps)) { UndecodedIsTrouble(dumps); }
    if |flows| == 0 {
      if !successfulDump && lastError.Some? {
        return lastError;
      }
      if candidateLines > 0 {
        if accounting == Some(false) {
          return Some(AccountingOff);
        }
        if lastError.Some? {
          return lastError;
        }
        return Some(NothingDecoded);
      }
      return None;
    }
    var allZero := true;
    var i := 0;
    while i < |flows| && allZero
      invariant 0 <= i <= |flows|
      invariant allZero <==> forall j :: 0 <= j < i ==> !counts(flows[j])
    {
      if counts(flows[i]) {
        allZero := false;
      }
      i := i + 1;
    }
    error := if allZero && accounting == Some(false) then Some(AccountingOff) else None;
  }

  function CountsBytes(): ConntrackFlow -> bool {
    (flow: ConntrackFlow) => flow.origBytes > 0 || flow.replyBytes > 0
  }

  /** collectConntrackFlowsTCPExec behind the commands it runs: the merged flows in order, if there are any;
      without any it succeeds only if there was nothing to decode. */
  method CollectConntrackFlows(dumps: seq<Dump<ConntrackFlow>>, accounting: Option<bool>)
    returns (flows: seq<ConntrackFlow>, error: Option<CollectError>)
    ensures exists order :: InKeyOrder(flows, Merge(map[], AllFlows(dumps), FlowKey, ScoreOf), order)
    ensures flows == [] <==> AllFlows(dumps) == []
    ensures error == CollectTrouble(dumps, flows, CountsBytes(), accounting)
    ensures flows == [] ==> (error == None <==> !AnyCandidates(dumps) && (AnySucceeded(dumps) || dumps == []))
  {
    forall current, candidate
      ensures ShouldPrefer(current, candidate) <==> Beats(ScoreOf(candidate), ScoreOf(current)) {
      PreferenceComparesScores(current, candidate);
    }
    var merged, candidateLines, successfulDump, lastError := MergeDumps(dumps, FlowKey, ShouldPrefer, ScoreOf);
    flows := FlowMapToSortedSlice(merged);
    MergedSome(AllFlows(dumps), FlowKey, ScoreOf);
    ghost var order :| InKeyOrder(flows, merged, order);
    OrderedSome(flows, merged, order);
    error := ChooseError(flows, CountsBytes(), candidateLines, successfulDump, lastError, accounting, dumps);
  }

  predicate NoBytes(flows: seq<ConntrackFlow>) {
    forall i :: 0 <= i < |flows| ==> flows[i].origBytes <= 0 && flows[i].replyBytes <= 0
  }

  lemma {:induction false} NoTroubleWithoutDumps<F>(dumps: seq<Dump<F>>)
    ensures AnyCandidates(dumps) ==> AnySucceeded(dumps)
    ensures !AnySucceeded(dumps) ==> LastTrouble(dumps) == if dumps == [] then None else Some(DumpFailed)
  {
    if dumps != [] && !AnySucceeded(dumps) { assert dumps[|dumps| - 1].Failed?; }
  }

  /** That bytes are not counted is reported for lines of which none could be decoded and for flows that all
      lack bytes, if it is known; anything else only without a flow, for the last dump with trouble. */
  lemma TroubleMeans(dumps: seq<Dump<ConntrackFlow>>, flows: seq<ConntrackFlow>, accounting: Option<bool>)
    requires flows == [] <==> AllFlows(dumps) == []
    ensures var error := CollectTrouble(dumps, flows, CountsBytes(), accounting);
            && (error == Some(AccountingOff) <==>
                  accounting == Some(false) && if flows == [] then AnyCandidates(dumps) else NoBytes(flows))
            && (flows != [] ==> error == None || error == Some(AccountingOff))
            && (flows == [] && error != Some(AccountingOff) ==>
                  error == if !AnyCandidates(dumps) && AnySucceeded(dumps) then None else LastTrouble(dumps))
  {
    NoTroubleWithoutDumps(dumps);
    assert NoneCounts(flows, CountsBytes()) <==> NoBytes(flows);
  }

  // ---------- Host-facing flows ----------

  datatype HostTuple = HostTuple(localIP: string, localPort: int, remoteIP: string, remotePort: int)

  function HostFacingTuple(orig: FlowTuple, localIPs: set<string>): Option<HostTuple> {
    var srcIP, dstIP := NormalizeFlowIP(orig.srcIP), NormalizeFlowIP(orig.dstIP);
    if srcIP in localIPs && dstIP !in localIPs then Some(HostTuple(srcIP, orig.srcPort, dstIP, orig.dstPort))
    else if dstIP in localIPs && srcIP !in localIPs then Some(HostTuple(dstIP, orig.dstPort, srcIP, orig.srcPort))
    else None
  }

  function HostConnection(t: HostTuple): Connection {
    Connection(t.localIP, t.localPort, t.remoteIP, t.remotePort, "ESTABLISHED", 0, 0, 0, NO_TRAFFIC, "", 0, "ct/nat")
  }

  function ConnKey(c: Connection): string {
    ConnectionTupleKey(c.localIP, c.localPort, c.remoteIP, c.remotePort)
  }

  function HostCandidate(flow: ConntrackFlow, localIPs: set<string>): Option<Connection> {
    if !IsEstablished(flow.state) then None
    else match HostFacingTuple(flow.orig, localIPs)
         case None => None
         case Some(t) => Some(HostConnection(t))
  }

  /** The ends of a flow, addresses normalised. */
  ghost function Ends(t: FlowTuple): set<(string, int)> {
    {(NormalizeFlowIP(t.srcIP), t.srcPort), (NormalizeFlowIP(t.dstIP), t.dstPort)}
  }

  /** The connection made of a flow has the two ends of the flow, the local one in its local place; there is one
      exactly for an established flow with one end of each kind. */
  lemma HostCandidateMeans(flow: ConntrackFlow, localIPs: set<string>)
    ensures HostCandidate(flow, localIPs).Some? <==>
              && IsEstablished(flow.state)
              && (NormalizeFlowIP(flow.orig.srcIP) in localIPs <==> NormalizeFlowIP(flow.orig.dstIP) !in localIPs)
    ensures HostCandidate(flow, localIPs).Some? ==>
              var c := HostCandidate(flow, localIPs).value;
              && c.localIP in localIPs && c.remoteIP !in localIPs
              && {(c.localIP, c.localPort), (c.remoteIP, c.remotePort)} == Ends(flow.orig)
              && c.state == "ESTABLISHED" && c.procName == "ct/nat" && c.inode == "" && c.pid == 0
              && c.txQueue == c.rxQueue == c.activity == 0 && c.bw == NO_TRAFFIC
  {
  }

  function CandidateIn(localIPs: set<string>): ConntrackFlow -> Option<Connection> {
    (flow: ConntrackFlow) => HostCandidate(flow, localIPs)
  }

  function WithHostFlows<F, C, K(==)>(conns: seq<C>, flows: seq<F>, candidate: F -> Option<C>, keyOf: C -> K): seq<C> {
    conns + Fresh(KeysOf(conns, keyOf), Picked(flows, candidate), keyOf)
  }

  /** mergeConntrackHostFlowsWithLocalSet */
  method MergeHostFlows(conns: seq<Connection>, flows: seq<ConntrackFlow>, localIPs: set<string>)
    returns (out: seq<Connection>)
    ensures out == WithHostFlows(conns, flows, CandidateIn(localIPs), ConnKey)
  {
    if |flows| == 0 || |localIPs| == 0 {
      PickedNothing(flows, CandidateIn(localIPs));
      return conns;
    }
    var seen := KeysOf(conns, ConnKey);
    var known := seen;
    var added: seq<Connection> := [];
    for i := 0 to |flows|
      invariant added == Fresh(seen, Picked(flows[..i], CandidateIn(localIPs)), ConnKey)
      invariant known == seen + KeysOf(added, ConnKey)
    {
      assert flows[..i + 1][..i] == flows[..i];
      var candidate := CandidateIn(localIPs)(flows[i]);
      if candidate.None? {
        continue;
      }
      var conn := candidate.value;
      FreshAppend(seen, Picked(flows[..i], CandidateIn(localIPs)), conn, ConnKey);
      var key := ConnKey(conn);
      if key in known {
        continue;
      }
      KeysAppend(added, conn, ConnKey);
      known := known + {key};
      added := added + [conn];
    }
    assert flows[..|flows|] == flows;
    out := conns + added;
  }

  /** The addresses of the interfaces and the local ends of the connections. */
  function LocalIPs(interfaceIPs: set<string>, conns: seq<Connection>): set<string> {
    interfaceIPs + set c | c in conns && NormalizeFlowIP(c.localIP) != "" :: NormalizeFlowIP(c.localIP)
  }

  /** extendLocalSetFromConnections followed by the merge. */
  method MergeConntrackHostFlows(conns: seq<Connection>, flows: seq<ConntrackFlow>, interfaceIPs: set<string>)
    returns (out: seq<Connection>)
    ensures out == WithHostFlows(conns, flows, CandidateIn(LocalIPs(interfaceIPs, conns)), ConnKey)
  {
    var known := interfaceIPs;
    for i := 0 to |conns|
      invariant known == LocalIPs(interfaceIPs, conns[..i])
    {
      var ip := NormalizeFlowIP(conns[i].localIP);
      assert conns[..i + 1] == conns[..i] + [conns[i]];
      if ip == "" {
        continue;
      }
      known := known + {ip};
    }
    assert conns[..|conns|] == conns;
    out := MergeHostFlows(conns, flows, known);
  }

  /** The input stays as a prefix, no key is added twice or again, and merging the same flows once
      more changes nothing. */
  lemma HostMergeAddsOnce<F, C, K>(conns: seq<C>, flows: seq<F>, candidate: F -> Option<C>, keyOf: C -> K)
    ensures conns <= WithHostFlows(conns, flows, candidate, keyOf)
    ensures var all := WithHostFlows(conns, flows, candidate, keyOf);
            forall i, j :: 0 <= i < j < |all| && |conns| <= j ==> keyOf(all[i]) != keyOf(all[j])
    ensures KeysOf(WithHostFlows(conns, flows, candidate, keyOf), keyOf)
         == KeysOf(conns, keyOf) + KeysOf(Picked(flows, candidate), keyOf)
    ensures WithHostFlows(WithHostFlows(conns, flows, candidate, keyOf), flows, candidate, keyOf)
         == WithHostFlows(conns, flows, candidate, keyOf)
  {
    var seen, cs := KeysOf(conns, keyOf), Picked(flows, candidate);
    var added, all := Fresh(seen, cs, keyOf), WithHostFlows(conns, flows, candidate, keyOf);
    FreshKeys(seen, cs, keyOf);
    KeysConcat(conns, added, keyOf);
    forall i, j | 0 <= i < j < |all| && |conns| <= j ensures keyOf(all[i]) != keyOf(all[j]) {
      assert all[j] == added[j - |conns|];
      assert keyOf(added[j - |conns|]) in KeysOf(added, keyOf);
      if i < |conns| {
        assert keyOf(conns[i]) in seen;
      } else {
        assert all[i] == added[i - |conns|];
      }
    }
    FreshNothing(KeysOf(all, keyOf), cs, keyOf);
    assert all + [] == all;
  }

  /** Any order of the flows adds the same keys; and if a key determines its connection, the same
      connections. */
  lemma HostMergeOrderFree<F, C(!new), K>(conns: seq<C>, a: seq<F>, b: seq<F>, candidate: F -> Option<C>, keyOf: C -> K)
    requires multiset(a) == multiset(b)
    ensures KeysOf(WithHostFlows(conns, a, candidate, keyOf), keyOf)
         == KeysOf(WithHostFlows(conns, b, candidate, keyOf), keyOf)
    ensures var cs := Picked(a, candidate);
            (forall c, d :: c in cs && d in cs && keyOf(c) == keyOf(d) ==> c == d) ==>
              forall c :: c in WithHostFlows(conns, a, candidate, keyOf)
                     <==> c in WithHostFlows(conns, b, candidate, keyOf)
  {
    SameElements(a, b);
    forall c ensures c in Picked(a, candidate) <==> c in Picked(b, candidate) {
      PickedHas(a, candidate, c);
      PickedHas(b, candidate, c);
    }
    SameMembersSameKeys(Picked(a, candidate), Picked(b, candidate), keyOf);
    HostMergeAddsOnce(conns, a, candidate, keyOf);
    HostMergeAddsOnce(conns, b, candidate, keyOf);
    if forall c, d :: c in Picked(a, candidate) && d in Picked(a, candidate) && keyOf(c) == keyOf(d) ==> c == d {
      FreshMembers(KeysOf(conns, keyOf), Picked(a, candidate), keyOf);
      FreshMembers(KeysOf(conns, keyOf), Picked(b, candidate), keyOf);
    }
  }

  lemma SameMembersSameKeys<C(!new), K>(a: seq<C>, b: seq<C>, keyOf: C -> K)
    requires forall c :: c in a <==> c in b
    ensures KeysOf(a, keyOf) == KeysOf(b, keyOf)
  {
    forall k | k in KeysOf(a, keyOf) ensures k in KeysOf(b, keyOf) {
      var i :| 0 <= i < |a| && keyOf(a[i]) == k;
      assert a[i] in b;
    }
    forall k | k in KeysOf(b, keyOf) ensures k in KeysOf(a, keyOf) {
      var i :| 0 <= i < |b| && keyOf(b[i]) == k;
      assert b[i] in a;
    }
  }

  lemma FreshMembers<C(!new), K>(seen: set<K>, items: seq<C>, keyOf: C -> K)
    requires forall c, d :: c in items && d in items && keyOf(c) == keyOf(d) ==> c == d
    ensures forall c :: c in Fresh(seen, items, keyOf) <==> c in items && keyOf(c) !in seen
  {
    var kept := Fresh(seen, items, keyOf);
    FreshKeys(seen, items, keyOf);
    forall c ensures c in kept <==> c in items && keyOf(c) !in seen {
      if c in kept {
        var i :| 0 <= i < |kept| && kept[i] == c;
        assert keyOf(kept[i]) in KeysOf(kept, keyOf);
      }
      if c in items && keyOf(c) !in seen {
        var j :| 0 <= j < |items| && items[j] == c;
        assert keyOf(items[j]) in KeysOf(kept, keyOf);
        var i :| 0 <= i < |kept| && keyOf(kept[i]) == keyOf(c);
        assert kept[i] in kept && kept[i] in items;
      }
    }
  }

  /** Normalising twice is normalising once, as it is for every address without a doubled prefix. */
  predicate Settled(ip: string) {
    NormalizeFlowIP(ip) == ip
  }

  /** For clean, settled addresses the key of a host connection determines it. */
  lemma HostKeyDetermines(s: HostTuple, t: HostTuple)
    requires CleanAddress(s.localIP) && CleanAddress(s.remoteIP) && CleanAddress(t.localIP) && CleanAddress(t.remoteIP)
    requires Settled(s.localIP) && Settled(s.remoteIP) && Settled(t.localIP) && Settled(t.remoteIP)
    ensures ConnKey(HostConnection(s)) == ConnKey(HostConnection(t)) ==> s == t
  {
    ConnectionKeyFaithful(FlowTuple(s.localIP, s.localPort, s.remoteIP, s.remotePort),
                          FlowTuple(t.localIP, t.localPort, t.remoteIP, t.remotePort));
  }

  /** The addresses of a flow are clean and settle once they are normalised. */
  predicate RealFlow(flow: ConntrackFlow) {
    && CleanTuple(flow.orig)
    && Settled(NormalizeFlowIP(flow.orig.srcIP)) && Settled(NormalizeFlowIP(flow.orig.dstIP))
  }

  predicate SoundTuple(t: HostTuple) {
    CleanAddress(t.localIP) && CleanAddress(t.remoteIP) && Settled(t.localIP) && Settled(t.remoteIP)
  }

  lemma RealFlowsAreSound(flow: ConntrackFlow, localIPs: set<string>, c: Connection) returns (t: HostTuple)
    requires RealFlow(flow) && HostCandidate(flow, localIPs) == Some(c)
    ensures SoundTuple(t) && c == HostConnection(t)
  {
    t := HostFacingTuple(flow.orig, localIPs).value;
    NormalizeKeeps(flow.orig.srcIP, '|');
    NormalizeKeeps(flow.orig.srcIP, '>');
    NormalizeKeeps(flow.orig.dstIP, '|');
    NormalizeKeeps(flow.orig.dstIP, '>');
  }

  /** Of real flows, the same connections are added in whatever order they come. */
  lemma RealFlowsOrderFree(conns: seq<Connection>, a: seq<ConntrackFlow>, b: seq<ConntrackFlow>, localIPs: set<string>)
    requires multiset(a) == multiset(b) && forall f :: f in a ==> RealFlow(f)
    ensures forall c :: c in WithHostFlows(conns, a, CandidateIn(localIPs), ConnKey)
                   <==> c in WithHostFlows(conns, b, CandidateIn(localIPs), ConnKey)
  {
    var candidate := CandidateIn(localIPs);
    forall c, d | c in Picked(a, candidate) && d in Picked(a, candidate) && ConnKey(c) == ConnKey(d) ensures c == d {
      PickedHas(a, candidate, c);
      PickedHas(a, candidate, d);
      var f :| f in a && candidate(f) == Some(c);
      var g :| g in a && candidate(g) == Some(d);
      var s := RealFlowsAreSound(f, localIPs, c);
      var t := RealFlowsAreSound(g, localIPs, d);
      HostKeyDetermines(s, t);
    }
    HostMergeOrderFree(conns, a, b, candidate, ConnKey);
  }
}

/** Searching the replay timeline: internal/tui/replay/navigation.go, internal/tui/replay/search.go and the
    range filter of internal/tui/replay/timeline.go. `count` is the number of rows a ref has on the shown
    side; a ref without rows is empty. */
module Navigation {
  import opened Wrappers
  import opened Sequences
  import opened Dedupe
  import opened Sorting

  predicate ActiveAt<R>(refs: seq<R>, i: int, count: R -> int) {
    0 <= i < |refs| && count(refs[i]) > 0
  }

  function Distance(i: int, j: int): nat {
    if i < j then j - i else i - j
  }

  method FindPrevNonEmptyIndex<R>(refs: seq<R>, from: int, count: R -> int) returns (idx: int, skipped: nat, ok: bool)
    ensures ok ==> ActiveAt(refs, idx, count) && idx <= from
    ensures ok ==> forall i :: idx < i <= from ==> !ActiveAt(refs, i, count)
    ensures !ok ==> idx == -1 && forall i :: 0 <= i <= from ==> !ActiveAt(refs, i, count)
    ensures skipped == var start := if from >= |refs| then |refs| - 1 else from; if start < 0 then 0 else start - idx
  {
    if |refs| == 0 {
      return -1, 0, false;
    }
    var i := if from >= |refs| then |refs| - 1 else from;
    ghost var start := i;
    skipped := 0;
    while i >= 0
      invariant i <= start && start < |refs| && start <= from && (start < from ==> start == |refs| - 1)
      invariant skipped == if start < 0 then 0 else start - i
      invariant start >= 0 ==> i >= -1
      invariant forall j :: i < j <= start ==> !ActiveAt(refs, j, count)
    {
      if count(refs[i]) > 0 {
        return i, skipped, true;
      }
      skipped := skipped + 1;
      i := i - 1;
    }
    return -1, skipped, false;
  }

  method FindNextNonEmptyIndex<R>(refs: seq<R>, from: int, count: R -> int) returns (idx: int, skipped: nat, ok: bool)
    ensures ok ==> ActiveAt(refs, idx, count) && idx >= from
    ensures ok ==> forall i :: from <= i < idx ==> !ActiveAt(refs, i, count)
    ensures !ok ==> idx == -1 && forall i :: from <= i ==> !ActiveAt(refs, i, count)
    ensures skipped == var start := if from < 0 then 0 else from;
                       if ok then idx - start else if start < |refs| then |refs| - start else 0
  {
    if |refs| == 0 {
      return -1, 0, false;
    }
    var start := if from < 0 then 0 else from;
    var i := start;
    skipped := 0;
    while i < |refs|
      invariant start <= i && (i > start ==> i <= |refs|)
      invariant skipped == i - start
      invariant forall j :: start <= j < i ==> !ActiveAt(refs, j, count)
    {
      if count(refs[i]) > 0 {
        return i, skipped, true;
      }
      skipped := skipped + 1;
      i := i + 1;
    }
    return -1, skipped, false;
  }

  /** The nearest ref with rows; of two equally near ones the earlier. */
  method FindNearestNonEmptyIndex<R>(refs: seq<R>, target: int, count: R -> int) returns (idx: int, ok: bool)
    ensures ok <==> 0 <= target < |refs| && exists i :: ActiveAt(refs, i, count)
    ensures !ok ==> idx == -1
    ensures ok ==> ActiveAt(refs, idx, count)
    ensures ok ==> forall i :: ActiveAt(refs, i, count) ==>
                     Distance(target, idx) < Distance(target, i)
                     || (Distance(target, idx) == Distance(target, i) && idx <= i)
  {
    if |refs| == 0 || target < 0 || target >= |refs| {
      return -1, false;
    }
    if count(refs[target]) > 0 {
      assert ActiveAt(refs, target, count);
      return target, true;
    }
    var left, right := target - 1, target + 1;
    while left >= 0 || right < |refs|
      invariant target - left == right - target && left < target
      invariant forall i :: left < i < right ==> !ActiveAt(refs, i, count)
      decreases if left + 1 > |refs| - right then left + 1 else |refs| - right
    {
      if left >= 0 && count(refs[left]) > 0 {
        assert ActiveAt(refs, left, count);
        return left, true;
      }
      if right < |refs| && count(refs[right]) > 0 {
        assert ActiveAt(refs, right, count) && !ActiveAt(refs, left, count);
        return right, true;
      }
      left := left - 1;
      right := right + 1;
    }
    return -1, false;
  }

  /** How many of the refs from lo up to hi are empty. */
  ghost function EmptyAmong<R>(refs: seq<R>, lo: int, hi: int, count: R -> int): set<int> {
    set i | lo <= i < hi && 0 <= i < |refs| && count(refs[i]) <= 0
  }

  method EmptyCountAfter<R>(refs: seq<R>, index: int, count: R -> int) returns (total: nat)
    ensures total == |EmptyAmong(refs, index + 1, |refs|, count)|
  {
    var from := if index < -1 then -1 else index;
    if from >= |refs| - 1 {
      assert EmptyAmong(refs, index + 1, |refs|, count) == {};
      return 0;
    }
    total := 0;
    for i := from + 1 to |refs|
      invariant total == |EmptyAmong(refs, from + 1, i, count)|
    {
      OneMoreEmpty(refs, from + 1, i, count);
      if count(refs[i]) <= 0 {
        total := total + 1;
      }
    }
    assert EmptyAmong(refs, index + 1, |refs|, count) == EmptyAmong(refs, from + 1, |refs|, count);
  }

  method EmptyCountBefore<R>(refs: seq<R>, index: int, count: R -> int) returns (total: nat)
    ensures total == |EmptyAmong(refs, 0, if index >= |refs| then |refs| - 1 else index, count)|
  {
    if |refs| == 0 || index <= 0 {
      return 0;
    }
    var to := if index >= |refs| then |refs| - 1 else index;
    total := 0;
    for i := 0 to to
      invariant total == |EmptyAmong(refs, 0, i, count)|
    {
      OneMoreEmpty(refs, 0, i, count);
      if count(refs[i]) <= 0 {
        total := total + 1;
      }
    }
  }

  lemma OneMoreEmpty<R>(refs: seq<R>, lo: int, i: nat, count: R -> int)
    requires lo <= i < |refs|
    ensures |EmptyAmong(refs, lo, i + 1, count)|
         == |EmptyAmong(refs, lo, i, count)| + if count(refs[i]) <= 0 then 1 else 0
  {
    var before := EmptyAmong(refs, lo, i, count);
    assert i !in before;
    assert EmptyAmong(refs, lo, i + 1, count) == if count(refs[i]) <= 0 then before + {i} else before;
  }

  // ---------- Time ----------

  predicate TimesSorted(times: seq<int>) {
    forall i, j :: 0 <= i < j < |times| ==> times[i] <= times[j]
  }

  /** sort.Search for the first time that is not before the target. */
  method Search(times: seq<int>, target: int) returns (idx: nat)
    ensures idx <= |times|
    ensures TimesSorted(times) ==> forall i :: 0 <= i < |times| ==> (times[i] < target <==> i < idx)
  {
    var i, j := 0, |times|;
    while i < j
      invariant 0 <= i <= j <= |times|
      invariant TimesSorted(times) ==> forall k :: 0 <= k < i ==> times[k] < target
      invariant TimesSorted(times) ==> forall k :: j <= k < |times| ==> times[k] >= target
    {
      var h := i + (j - i) / 2;
      if times[h] < target {
        i := h + 1;
      } else {
        j := h;
      }
    }
    idx := i;
  }

  /** The snapshot closest in time; of two equally close ones the earlier. */
  method ClosestSnapshotIndex(times: seq<int>, target: int) returns (idx: int)
    ensures times == [] <==> idx == -1
    ensures times != [] ==> 0 <= idx < |times|
    ensures times != [] && TimesSorted(times) ==>
              forall i :: 0 <= i < |times| ==>
                Distance(times[idx], target) < Distance(times[i], target)
                || (Distance(times[idx], target) == Distance(times[i], target) && times[idx] <= times[i])
  {
    if |times| == 0 {
      return -1;
    }
    var at := Search(times, target);
    if at <= 0 {
      return 0;
    }
    if at >= |times| {
      return |times| - 1;
    }
    var before, after := times[at - 1], times[at];
    if target - before <= after - target {
      return at - 1;
    }
    return at;
  }

  /** FilterSnapshotRefsByRange: both bounds included, absent bounds unlimited. */
  method FilterByRange<R>(refs: seq<R>, timeOf: R -> int, begin: Option<int>, end: Option<int>)
    returns (filtered: seq<R>)
    ensures filtered == Filter(refs, InRange(timeOf, begin, end))
  {
    if (begin.None? && end.None?) || |refs| == 0 {
      FilterAll(refs, InRange(timeOf, begin, end));
      return refs;
    }
    filtered := [];
    for i := 0 to |refs|
      invariant filtered == Filter(refs[..i], InRange(timeOf, begin, end))
    {
      assert refs[..i + 1][..i] == refs[..i];
      var time := timeOf(refs[i]);
      if begin.Some? && time < begin.value {
        continue;
      }
      if end.Some? && time > end.value {
        continue;
      }
      filtered := filtered + [refs[i]];
    }
    assert refs[..|refs|] == refs;
  }

  /** What is kept: both bounds belong to the range, and one that is not given does not limit it. */
  lemma KeptInRange<R>(refs: seq<R>, timeOf: R -> int, begin: Option<int>, end: Option<int>, r: R)
    ensures r in Filter(refs, InRange(timeOf, begin, end)) <==>
              && r in refs
              && (begin.None? || timeOf(r) >= begin.value) && (end.None? || timeOf(r) <= end.value)
  {
    FilterHas(refs, InRange(timeOf, begin, end), r);
  }

  function InRange<R>(timeOf: R -> int, begin: Option<int>, end: Option<int>): R -> bool {
    r => (begin.Some? ==> begin.value <= timeOf(r)) && (end.Some? ==> timeOf(r) <= end.value)
  }

  // ---------- The active timeline ----------

  /** How many of the first i refs have rows. */
  function ActiveCount<R>(refs: seq<R>, i: nat, count: R -> int): nat
    requires i <= |refs|
  {
    if i == 0 then 0 else ActiveCount(refs, i - 1, count) + if count(refs[i - 1]) > 0 then 1 else 0
  }

  /** The indices of the refs with rows among the first i. */
  function ActiveIndices<R>(refs: seq<R>, i: nat, count: R -> int): (indices: seq<int>)
    requires i <= |refs|
    ensures |indices| == ActiveCount(refs, i, count)
  {
    if i == 0 then []
    else ActiveIndices(refs, i - 1, count) + if count(refs[i - 1]) > 0 then [i - 1] else []
  }

  ghost predicate IndicesAre<R>(indices: seq<int>, refs: seq<R>, i: nat, count: R -> int)
    requires i <= |refs|
  {
    && (forall k :: 0 <= k < |indices| ==> 0 <= indices[k] < i && ActiveAt(refs, indices[k], count)
                                           && ActiveCount(refs, indices[k] + 1, count) == k + 1)
    && (forall j :: 0 <= j < i && ActiveAt(refs, j, count) ==> j in indices)
    && (forall k, l :: 0 <= k < l < |indices| ==> indices[k] < indices[l])
  }

  lemma OneMoreIndex<R>(before: seq<int>, refs: seq<R>, i: nat, count: R -> int)
    requires 0 < i <= |refs| && IndicesAre(before, refs, i - 1, count) && |before| == ActiveCount(refs, i - 1, count)
    ensures IndicesAre(before + if count(refs[i - 1]) > 0 then [i - 1] else [], refs, i, count)
  {
    var after := before + if count(refs[i - 1]) > 0 then [i - 1] else [];
    forall j | 0 <= j < i && ActiveAt(refs, j, count) ensures j in after {
      if j < i - 1 {
        assert j in before;
      } else {
        assert after[|before|] == i - 1;
      }
    }
  }

  /** These are exactly the active indices, in ascending order. */
  lemma {:induction false} ActiveIndicesAre<R>(refs: seq<R>, i: nat, count: R -> int)
    requires i <= |refs|
    ensures IndicesAre(ActiveIndices(refs, i, count), refs, i, count)
  {
    if i > 0 {
      ActiveIndicesAre(refs, i - 1, count);
      OneMoreIndex(ActiveIndices(refs, i - 1, count), refs, i, count);
    }
  }

  // ---------- Moving ----------

  /** The first active index from i on; the length if there is none. */
  function FirstActiveFrom<R>(refs: seq<R>, i: nat, count: R -> int): (j: nat)
    requires i <= |refs|
    ensures i <= j <= |refs| && (j < |refs| ==> ActiveAt(refs, j, count))
    ensures forall k :: i <= k < j ==> !ActiveAt(refs, k, count)
    decreases |refs| - i
  {
    if i == |refs| || count(refs[i]) > 0 then i else FirstActiveFrom(refs, i + 1, count)
  }

  /** The last active index up to i; -1 if there is none. */
  function LastActiveUpTo<R>(refs: seq<R>, i: int, count: R -> int): (j: int)
    requires i < |refs|
    ensures -1 <= j && (i >= 0 ==> j <= i) && (j >= 0 ==> ActiveAt(refs, j, count))
    ensures forall k :: j < k <= i ==> !ActiveAt(refs, k, count)
    decreases i + 1
  {
    if i < 0 then -1 else if count(refs[i]) > 0 then i else LastActiveUpTo(refs, i - 1, count)
  }

  function Clamp(i: int, n: nat): int
    requires n > 0
  {
    if i < 0 then 0 else if i >= n then n - 1 else i
  }

  /** Where a step forwards, a step backwards and the jumps to both ends go; None is nowhere. */
  function NextTarget<R>(refs: seq<R>, skipEmpty: bool, count: R -> int, current: int): Option<int> {
    if refs == [] then None
    else if !skipEmpty then Some(Clamp(current + 1, |refs|))
    else
      var from := if current + 1 < 0 then 0 else if current + 1 > |refs| then |refs| else current + 1;
      var i := FirstActiveFrom(refs, from, count);
      if i < |refs| then Some(i) else None
  }

  function PrevTarget<R>(refs: seq<R>, skipEmpty: bool, count: R -> int, current: int): Option<int> {
    if refs == [] then None
    else if !skipEmpty then Some(Clamp(current - 1, |refs|))
    else
      var i := LastActiveUpTo(refs, if current - 1 >= |refs| then |refs| - 1 else current - 1, count);
      if i >= 0 then Some(i) else None
  }

  function OldestTarget<R>(refs: seq<R>, skipEmpty: bool, count: R -> int): int
    requires refs != []
  {
    var i := FirstActiveFrom(refs, 0, count);
    if skipEmpty && i < |refs| then i else 0
  }

  function LatestTarget<R>(refs: seq<R>, skipEmpty: bool, count: R -> int): int
    requires refs != []
  {
    var i := LastActiveUpTo(refs, |refs| - 1, count);
    if skipEmpty && i >= 0 then i else |refs| - 1
  }

  /** What the searches find is where the steps go. */
  lemma FoundNext<R>(refs: seq<R>, count: R -> int, current: int, idx: int, ok: bool)
    requires refs != []
    requires ok ==> ActiveAt(refs, idx, count) && idx > current
    requires ok ==> forall i :: current < i < idx ==> !ActiveAt(refs, i, count)
    requires !ok ==> forall i :: current < i ==> !ActiveAt(refs, i, count)
    ensures NextTarget(refs, true, count, current) == if ok then Some(idx) else None
  {
  }

  lemma FoundPrev<R>(refs: seq<R>, count: R -> int, current: int, idx: int, ok: bool)
    requires refs != []
    requires ok ==> ActiveAt(refs, idx, count) && idx < current
    requires ok ==> forall i :: idx < i < current ==> !ActiveAt(refs, i, count)
    requires !ok ==> forall i :: 0 <= i < current ==> !ActiveAt(refs, i, count)
    ensures PrevTarget(refs, true, count, current) == if ok then Some(idx) else None
  {
  }

  /** Ref i is the nearest one with rows in front of the first or behind the second bound. */
  ghost predicate FirstActive<R>(refs: seq<R>, i: int, above: int, count: R -> int) {
    ActiveAt(refs, i, count) && i > above && forall j :: above < j < i ==> !ActiveAt(refs, j, count)
  }

  ghost predicate LastActive<R>(refs: seq<R>, i: int, below: int, count: R -> int) {
    ActiveAt(refs, i, count) && i < below && forall j :: i < j < below ==> !ActiveAt(refs, j, count)
  }

  /** Where the keys go from a ref: with skip-empty on to the first ref with rows on that side, if there is one;
      else to the neighbour, or nowhere else at the end. */
  lemma TargetsMean<R>(refs: seq<R>, count: R -> int, current: int, i: int)
    requires 0 <= current < |refs|
    ensures NextTarget(refs, true, count, current) == Some(i) <==> FirstActive(refs, i, current, count)
    ensures PrevTarget(refs, true, count, current) == Some(i) <==> LastActive(refs, i, current, count)
    ensures NextTarget(refs, false, count, current) == Some(if current == |refs| - 1 then current else current + 1)
    ensures PrevTarget(refs, false, count, current) == Some(if current == 0 then 0 else current - 1)
  {
  }

  /** Where the jumps to both ends go. */
  lemma EndsMean<R>(refs: seq<R>, count: R -> int, i: int)
    requires refs != []
    ensures FirstActive(refs, i, -1, count) ==> OldestTarget(refs, true, count) == i
    ensures LastActive(refs, i, |refs|, count) ==> LatestTarget(refs, true, count) == i
    ensures (forall j :: !ActiveAt(refs, j, count)) ==>
              OldestTarget(refs, true, count) == 0 && LatestTarget(refs, true, count) == |refs| - 1
    ensures OldestTarget(refs, false, count) == 0 && LatestTarget(refs, false, count) == |refs| - 1
  {
  }

  /** The stops of pressing next until nothing follows, with skip-empty on. */
  function Walk<R>(refs: seq<R>, count: R -> int, current: int): seq<int>
    requires -1 <= current < |refs|
    decreases |refs| - current
  {
    match NextTarget(refs, true, count, current)
    case None => []
    case Some(i) => [i] + Walk(refs, count, i)
  }

  ghost predicate StopsAre<R>(stops: seq<int>, refs: seq<R>, count: R -> int, current: int) {
    && (forall k :: 0 <= k < |stops| ==> current < stops[k] && ActiveAt(refs, stops[k], count))
    && (forall j :: current < j && ActiveAt(refs, j, count) ==> j in stops)
    && (forall k, l :: 0 <= k < l < |stops| ==> stops[k] < stops[l])
  }

  lemma {:induction false} WalkStops<R>(refs: seq<R>, count: R -> int, current: int)
    requires -1 <= current < |refs|
    ensures StopsAre(Walk(refs, count, current), refs, count, current)
    decreases |refs| - current
  {
    match NextTarget(refs, true, count, current)
    case None =>
    case Some(i) =>
      WalkStops(refs, count, i);
      var later, stops := Walk(refs, count, i), Walk(refs, count, current);
      forall j | current < j && ActiveAt(refs, j, count) ensures j in stops {
        assert j == i || j in later;
      }
  }

  /** Every ref with rows is visited once, in order, each one position further, and the last stop is where the
      jump to the latest lands. */
  ghost predicate VisitsAll<R>(stops: seq<int>, refs: seq<R>, count: R -> int) {
    && refs != [] && stops != [] && stops == ActiveIndices(refs, |refs|, count)
    && (forall k :: 0 <= k < |stops| ==> 0 <= stops[k] < |refs| && ActiveCount(refs, stops[k] + 1, count) == k + 1)
    && stops[|stops| - 1] == LatestTarget(refs, true, count)
  }

  /** From the oldest on, next visits all refs with rows. */
  lemma WalkVisitsAll<R>(refs: seq<R>, count: R -> int)
    requires exists i :: ActiveAt(refs, i, count)
    ensures refs != []
    ensures var oldest := OldestTarget(refs, true, count);
            VisitsAll([oldest] + Walk(refs, count, oldest), refs, count)
  {
    WalkStops(refs, count, -1);
    StopsVisitAll(Walk(refs, count, -1), refs, count);
  }

  lemma StopsVisitAll<R>(stops: seq<int>, refs: seq<R>, count: R -> int)
    requires StopsAre(stops, refs, count, -1) && exists i :: ActiveAt(refs, i, count)
    ensures VisitsAll(stops, refs, count)
  {
    StopsAreIndices(stops, refs, count);
    ActiveIndicesAre(refs, |refs|, count);
    var i :| ActiveAt(refs, i, count);
    assert i in stops;
    LastStop(stops, refs, count);
  }

  lemma StopsAreIndices<R>(stops: seq<int>, refs: seq<R>, count: R -> int)
    requires StopsAre(stops, refs, count, -1)
    ensures stops == ActiveIndices(refs, |refs|, count)
  {
    var all := ActiveIndices(refs, |refs|, count);
    ActiveIndicesAre(refs, |refs|, count);
    var less := (a: int, b: int) => a < b;
    forall j ensures j in stops <==> j in all {
      assert j in stops ==> ActiveAt(refs, j, count);
      assert j in all ==> ActiveAt(refs, j, count);
    }
    AscendingDetermined(stops, all, less);
  }

  lemma LastStop<R>(stops: seq<int>, refs: seq<R>, count: R -> int)
    requires StopsAre(stops, refs, count, -1) && stops != [] && refs != []
    ensures stops[|stops| - 1] == LatestTarget(refs, true, count)
  {
    var last := stops[|stops| - 1];
    assert ActiveAt(refs, last, count);
    var latest := LatestTarget(refs, true, count);
    assert latest >= last && ActiveAt(refs, latest, count);
    assert latest in stops;
  }

  /** From the k-th active index, next goes to the one behind it, or nowhere. */
  lemma NextOfActive<R>(all: seq<int>, refs: seq<R>, count: R -> int, k: nat)
    requires IndicesAre(all, refs, |refs|, count) && k < |all|
    ensures NextTarget(refs, true, count, all[k]) == if k + 1 < |all| then Some(all[k + 1]) else None
  {
    var ok := k + 1 < |all|;
    assert forall j :: 0 <= j < |all| && all[j] > all[k] ==> ok && all[j] >= all[k + 1];
    assert forall i :: i > all[k] && ActiveAt(refs, i, count) ==> i in all;
    FoundNext(refs, count, all[k], if ok then all[k + 1] else -1, ok);
  }

  /** A step forwards that moved is undone by a step backwards, exactly when it did not start from an empty
      ref that is to be skipped. */
  lemma NextThenPrev<R>(refs: seq<R>, skipEmpty: bool, count: R -> int, current: int)
    requires 0 <= current < |refs|
    requires NextTarget(refs, skipEmpty, count, current).Some?
    requires NextTarget(refs, skipEmpty, count, current).value != current
    ensures PrevTarget(refs, skipEmpty, count, NextTarget(refs, skipEmpty, count, current).value) == Some(current)
       <==> !skipEmpty || ActiveAt(refs, current, count)
  {
  }

  /** Staying, or with skip-empty on moving to the nearest ref with rows. */
  ghost predicate Adjusted<R>(refs: seq<R>, skipEmpty: bool, count: R -> int, base: int, target: int) {
    if skipEmpty && exists i :: ActiveAt(refs, i, count) then
      && ActiveAt(refs, target, count)
      && forall i :: ActiveAt(refs, i, count) ==>
           Distance(base, target) < Distance(base, i) || (Distance(base, target) == Distance(base, i) && target <= i)
    else
      target == base
  }

  /** A ref with rows is not moved away from. */
  lemma ActiveStays<R>(refs: seq<R>, skipEmpty: bool, count: R -> int, base: int, target: int)
    ensures Adjusted(refs, skipEmpty, count, base, target) && (!skipEmpty || ActiveAt(refs, base, count)) ==>
              target == base
  {
  }

  /** The first ref with rows is the nearest to the start, the last one the nearest to the end. */
  lemma EndsAdjust<R>(refs: seq<R>, skipEmpty: bool, count: R -> int, target: int)
    requires refs != []
    ensures Adjusted(refs, skipEmpty, count, OldestTarget(refs, skipEmpty, count), target) ==>
              Adjusted(refs, skipEmpty, count, 0, target)
    ensures Adjusted(refs, skipEmpty, count, LatestTarget(refs, skipEmpty, count), target) ==>
              Adjusted(refs, skipEmpty, count, |refs| - 1, target)
  {
    if skipEmpty && exists i :: ActiveAt(refs, i, count) {
      ActiveStays(refs, skipEmpty, count, OldestTarget(refs, skipEmpty, count), target);
      ActiveStays(refs, skipEmpty, count, LatestTarget(refs, skipEmpty, count), target);
    }
  }
}

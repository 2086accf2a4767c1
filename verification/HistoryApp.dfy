/** The replay cursor: the navigation and reload methods of internal/tui/history_app.go. Reading a snapshot
    is a function of the ref for the length of a call; drawing and status notes are left out. */
module HistoryApp {
  import opened Wrappers
  import opened Sequences
  import opened Dedupe
  import opened Records
  import opened SnapshotLog
  import opened Navigation

  datatype Direction = Incoming | Outgoing

  /** refCountForDirection */
  function RefCount(ref: SnapshotRef, direction: Direction): int {
    if ref.incomingCount == 0 && ref.outgoingCount == 0 && ref.connCount > 0 then ref.connCount
    else if direction == Outgoing then ref.outgoingCount
    else ref.incomingCount
  }

  function CountFor(direction: Direction): SnapshotRef -> int {
    (ref: SnapshotRef) => RefCount(ref, direction)
  }

  type Reader = SnapshotRef -> Option<SnapshotRecord>

  /** Index, record and selected row; no record stands for the zero record. */
  datatype Cursor = Cursor(index: int, record: Option<SnapshotRecord>, selected: int)

  /** The cursor after loading the snapshot at an index: there if it can be read, else where it was. */
  function Landing(refs: seq<SnapshotRef>, at: int, read: Reader, before: Cursor): Cursor {
    if refs == [] then Cursor(-1, None, 0)
    else
      var i := Clamp(at, |refs|);
      match read(refs[i])
      case None => before
      case Some(record) => Cursor(i, Some(record), 0)
  }

  function Moved(refs: seq<SnapshotRef>, target: Option<int>, read: Reader, before: Cursor): Cursor {
    match target
    case None => before
    case Some(at) => Landing(refs, at, read, before)
  }

  /** The cursor's record is the one its ref reads as. */
  predicate Matches(refs: seq<SnapshotRef>, read: Reader, c: Cursor) {
    0 <= c.index < |refs| ==> c.record.Some? && read(refs[c.index]) == c.record
  }

  predicate SamePlace(a: SnapshotRef, b: SnapshotRef) {
    a.day == b.day && a.offset == b.offset
  }

  /** The first ref at the same file and offset; -1 if there is none. */
  function FindPlace(refs: seq<SnapshotRef>, place: SnapshotRef): (i: int)
    ensures -1 <= i < |refs|
    ensures i >= 0 ==> SamePlace(refs[i], place)
    ensures i < 0 ==> forall k :: 0 <= k < |refs| ==> !SamePlace(refs[k], place)
  {
    if refs == [] then -1
    else
      var i := FindPlace(refs[..|refs| - 1], place);
      if i >= 0 then i else if SamePlace(refs[|refs| - 1], place) then |refs| - 1 else -1
  }

  /** Where a reload wants to go before empty refs are skipped. */
  function ReloadBase(before: seq<SnapshotRef>, current: int, refs: seq<SnapshotRef>, selectStart: bool,
                      followLatest: bool): int
    requires refs != []
  {
    if selectStart then 0
    else if followLatest then |refs| - 1
    else
      var place := if 0 <= current < |before| then FindPlace(refs, before[current]) else -1;
      if place >= 0 then place else if 0 <= current < |refs| then current else |refs| - 1
  }

  /** What a ref counts on a side is the number of rows its record has there. */
  lemma RefCounts(day: Day, offset: int, r: SnapshotRecord)
    ensures CountFor(Incoming)(RefOf(day, offset, r)) == |Elements(r.incoming)|
    ensures CountFor(Outgoing)(RefOf(day, offset, r)) == |Elements(r.outgoing)|
    ensures RefOf(day, offset, r).totalCount == |Elements(r.incoming)| + |Elements(r.outgoing)|
    ensures RefOf(day, offset, r).capturedAt == r.capturedAt
  {
  }

  /** A snapshot that can be read is shown with its first row selected; an index beyond the ends means the end;
      a failed read changes nothing. */
  lemma LandingMeans(refs: seq<SnapshotRef>, at: int, read: Reader, before: Cursor)
    requires refs != []
    ensures var i := if at < 0 then 0 else if at >= |refs| then |refs| - 1 else at;
            Landing(refs, at, read, before)
            == if read(refs[i]).Some? then Cursor(i, read(refs[i]), 0) else before
  {
  }

  /** Ref i is the first one at this file and offset. */
  ghost predicate FirstAtPlace(refs: seq<SnapshotRef>, i: int, place: SnapshotRef) {
    0 <= i < |refs| && SamePlace(refs[i], place) && forall j :: 0 <= j < i ==> !SamePlace(refs[j], place)
  }

  /** Where a reload goes. The start means the first snapshot with rows, the live tail the last one; else the
      shown snapshot is looked for at its file and offset, and without it the index stays as far as it exists. */
  ghost predicate Wanted(before: seq<SnapshotRef>, current: int, refs: seq<SnapshotRef>, selectStart: bool,
                         followLatest: bool, skipEmpty: bool, count: SnapshotRef -> int, i: int) {
    if selectStart then if skipEmpty then FirstActive(refs, i, -1, count) else i == 0
    else if followLatest then if skipEmpty then LastActive(refs, i, |refs|, count) else i == |refs| - 1
    else
      && (skipEmpty ==> ActiveAt(refs, i, count))
      && if 0 <= current < |before| && exists j :: 0 <= j < |refs| && SamePlace(refs[j], before[current])
         then FirstAtPlace(refs, i, before[current])
         else i == if 0 <= current < |refs| then current else |refs| - 1
  }

  lemma ReloadMeans(before: seq<SnapshotRef>, current: int, refs: seq<SnapshotRef>, selectStart: bool,
                    followLatest: bool, skipEmpty: bool, count: SnapshotRef -> int, target: int, i: int)
    requires refs != []
    requires Adjusted(refs, skipEmpty, count, ReloadBase(before, current, refs, selectStart, followLatest), target)
    requires Wanted(before, current, refs, selectStart, followLatest, skipEmpty, count, i)
    ensures target == i
  {
    if 0 <= current < |before| && FirstAtPlace(refs, i, before[current]) {
      FindPlaceFirst(refs, before[current], i);
    }
  }

  lemma {:induction false} FindPlaceFirst(refs: seq<SnapshotRef>, place: SnapshotRef, i: nat)
    requires FirstAtPlace(refs, i, place)
    ensures FindPlace(refs, place) == i
  {
    if i < |refs| - 1 { FindPlaceFirst(refs[..|refs| - 1], place, i); }
  }

  /** Loading keeps record and index in step. */
  lemma LandingMatches(refs: seq<SnapshotRef>, at: int, read: Reader, before: Cursor)
    requires Matches(refs, read, before)
    ensures Matches(refs, read, Landing(refs, at, read, before))
  {
  }

  /** The place of an index among those with rows; 0 if it is not one of them. */
  function PositionOf(refs: seq<SnapshotRef>, index: int, count: SnapshotRef -> int): nat {
    if ActiveAt(refs, index, count) then ActiveCount(refs, index + 1, count) else 0
  }

  // ---------- Pressing next ----------

  /** The cursor after so many presses of next, with skip-empty on. */
  function Presses(refs: seq<SnapshotRef>, count: SnapshotRef -> int, read: Reader, start: Cursor, times: nat): Cursor {
    if times == 0 then start
    else
      var before := Presses(refs, count, read, start, times - 1);
      Moved(refs, NextTarget(refs, true, count, before.index), read, before)
  }

  predicate AllReadable(refs: seq<SnapshotRef>, read: Reader) {
    forall i :: 0 <= i < |refs| ==> read(refs[i]).Some?
  }

  /** The cursor stands on the k-th snapshot with rows and shows it; next no longer moves at the last one. */
  ghost predicate StandsAt(refs: seq<SnapshotRef>, count: SnapshotRef -> int, read: Reader, c: Cursor, k: nat) {
    var all := ActiveIndices(refs, |refs|, count);
    && k < |all| && 0 <= all[k] < |refs|
    && c == Cursor(all[k], read(refs[all[k]]), 0)
    && PositionOf(refs, c.index, count) == k + 1
    && (k == |all| - 1 ==> c.index == LatestTarget(refs, true, count))
  }

  lemma StandsThere(refs: seq<SnapshotRef>, count: SnapshotRef -> int, read: Reader, k: nat)
    requires k < ActiveCount(refs, |refs|, count)
    ensures refs != [] && 0 <= ActiveIndices(refs, |refs|, count)[k] < |refs|
    ensures var i := ActiveIndices(refs, |refs|, count)[k];
            StandsAt(refs, count, read, Cursor(i, read(refs[i]), 0), k)
  {
    ActiveIndicesAre(refs, |refs|, count);
    var all := ActiveIndices(refs, |refs|, count);
    assert ActiveAt(refs, all[k], count);
    WalkVisitsAll(refs, count);
  }

  lemma OldestStands(refs: seq<SnapshotRef>, count: SnapshotRef -> int, read: Reader, before: Cursor)
    requires AllReadable(refs, read) && exists i :: ActiveAt(refs, i, count)
    ensures refs != [] && ActiveCount(refs, |refs|, count) > 0
    ensures StandsAt(refs, count, read, Landing(refs, OldestTarget(refs, true, count), read, before), 0)
  {
    WalkVisitsAll(refs, count);
    StandsThere(refs, count, read, 0);
  }

  /** One press of next from the k-th snapshot with rows. */
  lemma PressMoves(refs: seq<SnapshotRef>, count: SnapshotRef -> int, read: Reader, c: Cursor, k: nat)
    requires AllReadable(refs, read) && StandsAt(refs, count, read, c, k)
    ensures var total := ActiveCount(refs, |refs|, count);
            StandsAt(refs, count, read, Moved(refs, NextTarget(refs, true, count, c.index), read, c),
                     if k + 1 < total then k + 1 else k)
  {
    ActiveIndicesAre(refs, |refs|, count);
    NextOfActive(ActiveIndices(refs, |refs|, count), refs, count, k);
    if k + 1 < ActiveCount(refs, |refs|, count) { StandsThere(refs, count, read, k + 1); }
  }

  /** With skip-empty on and reads succeeding, from the oldest snapshot on each press of next shows the next one
      with rows, one position further, until the latest; further presses stay there. */
  lemma {:induction false} PressesVisitAll(refs: seq<SnapshotRef>, count: SnapshotRef -> int, read: Reader,
                                          before: Cursor, times: nat)
    requires AllReadable(refs, read) && exists i :: ActiveAt(refs, i, count)
    ensures refs != [] && ActiveCount(refs, |refs|, count) > 0
    ensures StandsAt(refs, count, read,
                     Presses(refs, count, read, Landing(refs, OldestTarget(refs, true, count), read, before), times),
                     Capped(times, ActiveCount(refs, |refs|, count)))
  {
    OldestStands(refs, count, read, before);
    if times > 0 {
      PressesVisitAll(refs, count, read, before, times - 1);
      var start := Landing(refs, OldestTarget(refs, true, count), read, before);
      PressMoves(refs, count, read, Presses(refs, count, read, start, times - 1),
                 Capped(times - 1, ActiveCount(refs, |refs|, count)));
    }
  }

  function Capped(times: nat, total: nat): nat
    requires total > 0
  {
    if times < total then times else total - 1
  }

  class HistoryApp {
    var refs: seq<SnapshotRef>
    var currentIndex: int
    var currentRecord: Option<SnapshotRecord>
    var selectedIndex: int
    var followLatest: bool
    var skipEmpty: bool
    var topDirection: Direction
    var rangeBegin: Option<int>
    var rangeEnd: Option<int>

    ghost function At(): Cursor
      reads this
    {
      Cursor(currentIndex, currentRecord, selectedIndex)
    }

    constructor (rangeBegin: Option<int>, rangeEnd: Option<int>)
      ensures refs == [] && At() == Cursor(-1, None, 0)
      ensures !followLatest && skipEmpty && topDirection == Incoming
      ensures this.rangeBegin == rangeBegin && this.rangeEnd == rangeEnd
    {
      refs, currentIndex, currentRecord, selectedIndex := [], -1, None, 0;
      followLatest, skipEmpty, topDirection := false, true, Incoming;
      this.rangeBegin, this.rangeEnd := rangeBegin, rangeEnd;
    }

    method LoadSnapshotAt(index: int, read: Reader)
      modifies `currentIndex, `currentRecord, `selectedIndex
      ensures At() == Landing(refs, index, read, old(At()))
    {
      if |refs| == 0 {
        currentIndex, currentRecord, selectedIndex := -1, None, 0;
        return;
      }
      var i := index;
      if i < 0 {
        i := 0;
      }
      if i >= |refs| {
        i := |refs| - 1;
      }
      var record := read(refs[i]);
      if record.None? {
        return;
      }
      currentIndex, currentRecord, selectedIndex := i, record, 0;
    }

    method NavigateNext(read: Reader)
      modifies `currentIndex, `currentRecord, `selectedIndex, `followLatest
      ensures At() == Moved(refs, NextTarget(refs, skipEmpty, CountFor(topDirection), old(currentIndex)),
                            read, old(At()))
      ensures followLatest == (old(followLatest) && refs == [])
      ensures Matches(refs, read, old(At())) ==> Matches(refs, read, At())
    {
      if |refs| == 0 {
        return;
      }
      followLatest := false;
      var target := currentIndex + 1;
      if skipEmpty {
        var idx, skipped, ok := FindNextNonEmptyIndex(refs, target, CountFor(topDirection));
        FoundNext(refs, CountFor(topDirection), currentIndex, idx, ok);
        if !ok {
          return;
        }
        target := idx;
      }
      ghost var before := At();
      if Matches(refs, read, before) { LandingMatches(refs, target, read, before); }
      LoadSnapshotAt(target, read);
    }

    method NavigatePrev(read: Reader)
      modifies `currentIndex, `currentRecord, `selectedIndex, `followLatest
      ensures At() == Moved(refs, PrevTarget(refs, skipEmpty, CountFor(topDirection), old(currentIndex)),
                            read, old(At()))
      ensures followLatest == (old(followLatest) && refs == [])
      ensures Matches(refs, read, old(At())) ==> Matches(refs, read, At())
    {
      if |refs| == 0 {
        return;
      }
      followLatest := false;
      var target := currentIndex - 1;
      if skipEmpty {
        var idx, skipped, ok := FindPrevNonEmptyIndex(refs, target, CountFor(topDirection));
        FoundPrev(refs, CountFor(topDirection), currentIndex, idx, ok);
        if !ok {
          return;
        }
        target := idx;
      }
      ghost var before := At();
      if Matches(refs, read, before) { LandingMatches(refs, target, read, before); }
      LoadSnapshotAt(target, read);
    }

    method NavigateOldest(read: Reader)
      modifies `currentIndex, `currentRecord, `selectedIndex, `followLatest
      ensures refs == [] ==> At() == old(At())
      ensures refs != [] ==>
                At() == Landing(refs, OldestTarget(refs, skipEmpty, CountFor(topDirection)), read, old(At()))
      ensures followLatest == (old(followLatest) && refs == [])
      ensures Matches(refs, read, old(At())) ==> Matches(refs, read, At())
    {
      if |refs| == 0 {
        return;
      }
      followLatest := false;
      var target := 0;
      if skipEmpty {
        var idx, skipped, ok := FindNextNonEmptyIndex(refs, target, CountFor(topDirection));
        if ok {
          target := idx;
        }
      }
      LoadSnapshotAt(target, read);
    }

    method NavigateLatest(read: Reader)
      modifies `currentIndex, `currentRecord, `selectedIndex
      ensures refs == [] ==> At() == old(At())
      ensures refs != [] ==>
                At() == Landing(refs, LatestTarget(refs, skipEmpty, CountFor(topDirection)), read, old(At()))
      ensures Matches(refs, read, old(At())) ==> Matches(refs, read, At())
    {
      if |refs| == 0 {
        return;
      }
      var target := |refs| - 1;
      if skipEmpty {
        var idx, skipped, ok := FindPrevNonEmptyIndex(refs, target, CountFor(topDirection));
        if ok {
          target := idx;
        }
      }
      LoadSnapshotAt(target, read);
    }

    /** The place of the current snapshot among those with rows, and how many of them there are. */
    method ActiveTimelinePosition() returns (pos: nat, total: nat)
      ensures !(0 <= currentIndex < |refs|) ==> pos == 0 && total == 0
      ensures 0 <= currentIndex < |refs| ==>
                && total == ActiveCount(refs, |refs|, CountFor(topDirection))
                && pos == PositionOf(refs, currentIndex, CountFor(topDirection))
    {
      if |refs| == 0 || currentIndex < 0 || currentIndex >= |refs| {
        return 0, 0;
      }
      pos, total := 0, 0;
      for i := 0 to |refs|
        invariant total == ActiveCount(refs, i, CountFor(topDirection))
        invariant pos == if currentIndex < i && ActiveAt(refs, currentIndex, CountFor(topDirection))
                         then ActiveCount(refs, currentIndex + 1, CountFor(topDirection)) else 0
      {
        if CountFor(topDirection)(refs[i]) <= 0 {
          continue;
        }
        total := total + 1;
        if i == currentIndex {
          pos := total;
        }
      }
    }

    /** The oldest snapshot and then so many presses of next: whatever the number, the cursor shows that
        snapshot with rows, or the latest, and the position shown is its number. */
    method OldestThenNext(times: nat, read: Reader) returns (pos: nat, total: nat)
      requires skipEmpty && AllReadable(refs, read) && exists i :: ActiveAt(refs, i, CountFor(topDirection))
      modifies `currentIndex, `currentRecord, `selectedIndex, `followLatest
      ensures total == ActiveCount(refs, |refs|, CountFor(topDirection)) > 0 && pos == Capped(times, total) + 1
      ensures StandsAt(refs, CountFor(topDirection), read, At(), Capped(times, total))
    {
      ghost var count, before := CountFor(topDirection), At();
      PressesVisitAll(refs, count, read, before, 0);
      NavigateOldest(read);
      for i := 0 to times
        invariant At() == Presses(refs, count, read, Landing(refs, OldestTarget(refs, true, count), read, before), i)
      {
        NavigateNext(read);
      }
      PressesVisitAll(refs, count, read, before, times);
      pos, total := ActiveTimelinePosition();
    }

    method AdjustStartIndexForSkipEmpty(target: int) returns (adjusted: int)
      ensures adjusted == if skipEmpty && 0 <= target < |refs|
                             && FirstActiveFrom(refs, target, CountFor(topDirection)) < |refs|
                          then FirstActiveFrom(refs, target, CountFor(topDirection)) else target
    {
      if !skipEmpty || |refs| == 0 || target < 0 || target >= |refs| || CountFor(topDirection)(refs[target]) > 0 {
        return target;
      }
      var idx, skipped, ok := FindNextNonEmptyIndex(refs, target, CountFor(topDirection));
      adjusted := if ok then idx else target;
    }

    method AdjustLatestIndexForSkipEmpty(target: int) returns (adjusted: int)
      ensures adjusted == if skipEmpty && 0 <= target < |refs|
                             && LastActiveUpTo(refs, target, CountFor(topDirection)) >= 0
                          then LastActiveUpTo(refs, target, CountFor(topDirection)) else target
    {
      if !skipEmpty || |refs| == 0 || target < 0 || target >= |refs| || CountFor(topDirection)(refs[target]) > 0 {
        return target;
      }
      var idx, skipped, ok := FindPrevNonEmptyIndex(refs, target, CountFor(topDirection));
      adjusted := if ok then idx else target;
    }

    method AdjustGenericIndexForSkipEmpty(target: int) returns (adjusted: int)
      ensures 0 <= target < |refs| ==> Adjusted(refs, skipEmpty, CountFor(topDirection), target, adjusted)
      ensures !(0 <= target < |refs|) ==> adjusted == target
    {
      if !skipEmpty || |refs| == 0 || target < 0 || target >= |refs| {
        return target;
      }
      if CountFor(topDirection)(refs[target]) > 0 {
        assert ActiveAt(refs, target, CountFor(topDirection));
        return target;
      }
      var idx, ok := FindNearestNonEmptyIndex(refs, target, CountFor(topDirection));
      adjusted := if ok then idx else target;
    }

    /** reloadIndex; `loaded` is the fresh index, None if loading it failed. `target` is where it goes. */
    method ReloadIndex(selectStart: bool, loaded: Option<seq<SnapshotRef>>, read: Reader) returns (ghost target: int)
      modifies `refs, `currentIndex, `currentRecord, `selectedIndex
      ensures loaded.None? ==> refs == old(refs) && At() == old(At())
      ensures loaded.Some? ==>
                refs == Filter(loaded.value, InRange((r: SnapshotRef) => r.capturedAt, rangeBegin, rangeEnd))
      ensures loaded.Some? && refs == [] ==> At() == Cursor(-1, None, 0)
      ensures loaded.Some? && refs != [] ==>
                && At() == Landing(refs, target, read, old(At()))
                && Adjusted(refs, skipEmpty, CountFor(topDirection),
                            ReloadBase(old(refs), old(currentIndex), refs, selectStart, followLatest), target)
    {
      target := 0;
      if loaded.None? {
        return;
      }
      var before := refs;
      var filtered := FilterByRange(loaded.value, (r: SnapshotRef) => r.capturedAt, rangeBegin, rangeEnd);
      refs := filtered;
      if |refs| == 0 {
        currentIndex, currentRecord, selectedIndex := -1, None, 0;
        return;
      }
      var t := ReloadTarget(before, selectStart);
      target := t;
      LoadSnapshotAt(t, read);
    }

    /** The part of reloadIndex that chooses where to go, with the refs already replaced. */
    method ReloadTarget(before: seq<SnapshotRef>, selectStart: bool) returns (target: int)
      requires refs != []
      ensures Adjusted(refs, skipEmpty, CountFor(topDirection),
                       ReloadBase(before, currentIndex, refs, selectStart, followLatest), target)
    {
      target := currentIndex;
      if selectStart {
        target := AdjustStartIndexForSkipEmpty(0);
      } else if followLatest {
        target := AdjustLatestIndexForSkipEmpty(|refs| - 1);
      } else if 0 <= currentIndex < |before| {
        var idx := FindPlaceOf(refs, before[currentIndex]);
        if idx >= 0 {
          target := idx;
        }
      }
      if target < 0 || target >= |refs| {
        target := if selectStart then 0 else |refs| - 1;
      }
      ghost var base := target;
      target := AdjustGenericIndexForSkipEmpty(target);
      EndsAdjust(refs, skipEmpty, CountFor(topDirection), target);
    }

    /** The key that shows or hides empty refs moves the index without loading its record. */
    method ToggleSkipEmpty()
      modifies `skipEmpty, `currentIndex
      ensures skipEmpty == !old(skipEmpty)
      ensures skipEmpty && 0 <= old(currentIndex) < |refs| ==>
                Adjusted(refs, true, CountFor(topDirection), old(currentIndex), currentIndex)
      ensures !skipEmpty || !(0 <= old(currentIndex) < |refs|) ==> currentIndex == old(currentIndex)
    {
      skipEmpty := !skipEmpty;
      if skipEmpty {
        currentIndex := AdjustGenericIndexForSkipEmpty(currentIndex);
      }
    }

    /** So does the key that switches the shown side. */
    method SwitchDirection()
      modifies `topDirection, `currentIndex, `selectedIndex
      ensures topDirection == (if old(topDirection) == Incoming then Outgoing else Incoming) && selectedIndex == 0
      ensures 0 <= old(currentIndex) < |refs| ==>
                Adjusted(refs, skipEmpty, CountFor(topDirection), old(currentIndex), currentIndex)
      ensures !(0 <= old(currentIndex) < |refs|) ==> currentIndex == old(currentIndex)
    {
      topDirection := if topDirection == Incoming then Outgoing else Incoming;
      if skipEmpty {
        currentIndex := AdjustGenericIndexForSkipEmpty(currentIndex);
      }
      selectedIndex := 0;
    }
  }

  method FindPlaceOf(refs: seq<SnapshotRef>, place: SnapshotRef) returns (idx: int)
    ensures idx == FindPlace(refs, place)
  {
    for i := 0 to |refs|
      invariant FindPlace(refs[..i], place) == -1
    {
      assert refs[..i + 1][..i] == refs[..i];
      if SamePlace(refs[i], place) {
        assert forall j :: 0 <= j < i ==> refs[j] == refs[..i][j];
        FindPlaceFirst(refs, place, i);
        return i;
      }
    }
    assert refs[..|refs|] == refs;
    return -1;
  }

  /** A reload that neither selects the start nor follows the latest stays on the snapshot it showed, if that
      is still indexed and not one to be skipped. */
  lemma ReloadKeepsPlace(before: seq<SnapshotRef>, current: int, refs: seq<SnapshotRef>, skipEmpty: bool,
                         direction: Direction, target: int)
    requires refs != [] && 0 <= current < |before|
    requires exists k :: 0 <= k < |refs| && SamePlace(refs[k], before[current])
    requires Adjusted(refs, skipEmpty, CountFor(direction), ReloadBase(before, current, refs, false, false), target)
    requires !skipEmpty || ActiveAt(refs, FindPlace(refs, before[current]), CountFor(direction))
    ensures 0 <= target < |refs| && SamePlace(refs[target], before[current])
  {
    ActiveStays(refs, skipEmpty, CountFor(direction), ReloadBase(before, current, refs, false, false), target);
  }

  /** The keys that move the index without loading its record: where every ref reads differently, the record
      still matches if and only if the index did not have to move. */
  lemma KeysKeepMatch(refs: seq<SnapshotRef>, read: Reader, c: Cursor, skipEmpty: bool, direction: Direction,
                      target: int)
    requires 0 <= c.index < |refs| && Matches(refs, read, c)
    requires forall i, j :: 0 <= i < j < |refs| ==> read(refs[i]) != read(refs[j])
    requires Adjusted(refs, skipEmpty, CountFor(direction), c.index, target)
    ensures Matches(refs, read, c.(index := target))
       <==> !skipEmpty || ActiveAt(refs, c.index, CountFor(direction))
            || !exists i :: ActiveAt(refs, i, CountFor(direction))
  {
    var count := CountFor(direction);
    if ActiveAt(refs, c.index, count) { ActiveStays(refs, skipEmpty, count, c.index, target); }
    if !Adjusted(refs, false, count, c.index, target) {
      assert ActiveAt(refs, target, count);
    }
  }

  /** A run in which skipping empty snapshots leaves the record of one on the screen, at the index of another. */
  method ToggleBreaksMatch(empty: SnapshotRef, full: SnapshotRef, read: Reader) returns (app: HistoryApp)
    requires RefCount(empty, Incoming) <= 0 < RefCount(full, Incoming)
    requires read(empty).Some? && read(full).Some? && read(empty) != read(full)
    ensures fresh(app) && app.refs == [empty, full] && !Matches(app.refs, read, app.At())
  {
    app := new HistoryApp(None, None);
    app.ToggleSkipEmpty();
    ghost var target := app.ReloadIndex(true, Some([empty, full]), read);
    FilterAll([empty, full], InRange((r: SnapshotRef) => r.capturedAt, None, None));
    assert app.refs == [empty, full] && app.At() == Cursor(0, read(empty), 0);
    assert ActiveAt(app.refs, 1, CountFor(Incoming));
    app.ToggleSkipEmpty();
  }
}

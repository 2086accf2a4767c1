/** Grouping connections into ranked rows: internal/history/aggregate.go. */
module Aggregate {
  import opened Wrappers
  import opened Sequences
  import opened Text
  import opened Sums
  import opened Sorting
  import opened Bandwidth
  import opened Lookup
  import opened Records

  datatype Direction = Incoming | Outgoing

  datatype AggregateKey = AggregateKey(peerIP: string, port: int, procName: string)

  /** A connection reduced to what grouping looks at. */
  datatype Item<K, S> = Item(key: K, state: S, txQueue: int, rxQueue: int, activity: int, bw: TupleBandwidth)

  /** One row in the making. */
  datatype Group<!S> = Group(connCount: int, txQueue: int, rxQueue: int, totalQueue: int,
                             bw: TupleBandwidth, states: map<S, int>)

  function EmptyGroup<S>(): Group<S> {
    Group(0, 0, 0, 0, NO_TRAFFIC, map[])
  }

  function Count<S>(states: map<S, int>, state: S): int {
    if state in states then states[state] else 0
  }

  function AddItem<K, S>(g: Group<S>, item: Item<K, S>): Group<S> {
    Group(g.connCount + 1, g.txQueue + item.txQueue, g.rxQueue + item.rxQueue, g.totalQueue + item.activity,
          Plus(g.bw, item.bw), g.states[item.state := Count(g.states, item.state) + 1])
  }

  function AddTo<K, S>(groups: map<K, Group<S>>, item: Item<K, S>): map<K, Group<S>> {
    groups[item.key := AddItem(if item.key in groups then groups[item.key] else EmptyGroup(), item)]
  }

  /** The groups of a list of items. */
  function Groups<K, S>(items: seq<Item<K, S>>): map<K, Group<S>> {
    if items == [] then map[] else AddTo(Groups(items[..|items| - 1]), items[|items| - 1])
  }

  lemma GroupsAppend<K, S>(items: seq<Item<K, S>>, item: Item<K, S>)
    ensures Groups(items + [item]) == AddTo(Groups(items), item)
  {
    assert (items + [item])[..|items|] == items;
  }

  // ---------- The order of arrival does not matter ----------

  lemma AddItemSwap<K, S>(g: Group<S>, a: Item<K, S>, b: Item<K, S>)
    ensures AddItem(AddItem(g, a), b) == AddItem(AddItem(g, b), a)
  {
    var ab, ba := AddItem(AddItem(g, a), b), AddItem(AddItem(g, b), a);
    assert ab.states == ba.states;
  }

  lemma AddToSwap<K, S>(groups: map<K, Group<S>>, a: Item<K, S>, b: Item<K, S>)
    ensures AddTo(AddTo(groups, a), b) == AddTo(AddTo(groups, b), a)
  {
    var ab, ba := AddTo(AddTo(groups, a), b), AddTo(AddTo(groups, b), a);
    AddItemSwap(if a.key in groups then groups[a.key] else EmptyGroup(), a, b);
    assert ab.Keys == ba.Keys;
    assert forall k :: k in ab ==> ab[k] == ba[k];
  }

  /** Any item may be taken last. */
  lemma {:induction false} GroupsTakeOut<K, S>(items: seq<Item<K, S>>, i: nat)
    requires i < |items|
    ensures Groups(items) == AddTo(Groups(items[..i] + items[i + 1..]), items[i])
    decreases |items|
  {
    var front, last := items[..|items| - 1], items[|items| - 1];
    if i == |items| - 1 {
      assert items[..i] + items[i + 1..] == front;
    } else {
      GroupsTakeOut(front, i);
      var rest := front[..i] + front[i + 1..];
      assert items[..i] + items[i + 1..] == rest + [last];
      GroupsAppend(rest, last);
      AddToSwap(Groups(rest), items[i], last);
    }
  }

  /** The groups depend only on the multiset of the items. */
  lemma {:induction false} GroupsPermute<K, S>(a: seq<Item<K, S>>, b: seq<Item<K, S>>)
    requires multiset(a) == multiset(b)
    ensures Groups(a) == Groups(b)
    decreases |a|
  {
    if a == [] {
      assert |b| == |multiset(b)|;
    } else {
      var front, x := a[..|a| - 1], a[|a| - 1];
      assert a == front + [x];
      assert x in multiset(b);
      var i :| 0 <= i < |b| && b[i] == x;
      var rest := b[..i] + b[i + 1..];
      ElementsWithout(b, i);
      ElementsWithout(a, |a| - 1);
      assert a[..|a| - 1] + a[|a|..] == front;
      GroupsPermute(front, rest);
      GroupsTakeOut(b, i);
    }
  }

  // ---------- What a group holds ----------

  /** g measures a group and h an item, and adding the item adds the measures. */
  ghost predicate Additive<K(!new), S(!new)>(g: Group<S> -> int, h: Item<K, S> -> int) {
    g(EmptyGroup()) == 0
    && forall group: Group<S>, item: Item<K, S> :: g(AddItem(group, item)) == g(group) + h(item)
  }

  function Of<K(==), S>(key: K, h: Item<K, S> -> int): Item<K, S> -> int {
    (item: Item<K, S>) => if item.key == key then h(item) else 0
  }

  predicate HasKey<K(==), S>(items: seq<Item<K, S>>, key: K) {
    exists i :: 0 <= i < |items| && items[i].key == key
  }

  /** A group measures the sum over the items with its key; there is one group per key. */
  lemma {:induction false} GroupHoldsItsItems<K(!new), S(!new)>(items: seq<Item<K, S>>, key: K,
                                                              g: Group<S> -> int, h: Item<K, S> -> int)
    requires Additive(g, h)
    ensures key in Groups(items) <==> HasKey(items, key)
    ensures key in Groups(items) ==> g(Groups(items)[key]) == Sum(items, Of(key, h))
    ensures key !in Groups(items) ==> Sum(items, Of(key, h)) == 0
  {
    if items != [] {
      var front, last := items[..|items| - 1], items[|items| - 1];
      GroupHoldsItsItems(front, key, g, h);
      assert items == front + [last];
      if HasKey(front, key) {
        var i :| 0 <= i < |front| && front[i].key == key;
        assert items[i].key == key;
      }
    }
  }

  function Column<K, S>(groups: map<K, Group<S>>, g: Group<S> -> int): map<K, int> {
    map k | k in groups :: g(groups[k])
  }

  /** Every item is counted in exactly one group. */
  lemma {:induction false} GroupsConserve<K(!new), S(!new)>(items: seq<Item<K, S>>, g: Group<S> -> int,
                                                          h: Item<K, S> -> int)
    requires Additive(g, h)
    ensures Total(Column(Groups(items), g)) == Sum(items, h)
  {
    if items == [] {
      assert Column(Groups(items), g) == map[];
    } else {
      var before, last := Groups(items[..|items| - 1]), items[|items| - 1];
      GroupsConserve(items[..|items| - 1], g, h);
      var now := Groups(items);
      assert Column(now, g) == Column(before, g)[last.key := g(now[last.key])];
      TotalUpdate(Column(before, g), last.key, g(now[last.key]));
    }
  }

  function StateCount<S(==)>(state: S): Group<S> -> int { (g: Group<S>) => Count(g.states, state) }

  function InState<K, S(==)>(state: S): Item<K, S> -> int {
    (item: Item<K, S>) => if item.state == state then 1 else 0
  }

  lemma StateCountAdds<K(!new), S(!new)>(state: S)
    ensures Additive<K, S>(StateCount(state), InState(state))
  {
  }

  /** The state counts of a group add up to its connection count, and each is positive. */
  lemma {:induction false} StatesAddUp<K, S>(items: seq<Item<K, S>>, key: K)
    requires key in Groups(items)
    ensures Total(Groups(items)[key].states) == Groups(items)[key].connCount
    ensures forall s :: s in Groups(items)[key].states ==> Groups(items)[key].states[s] > 0
  {
    var front, last := items[..|items| - 1], items[|items| - 1];
    var before := Groups(front);
    if key in before { StatesAddUp(front, key); }
    if key == last.key {
      var g := if key in before then before[key] else EmptyGroup();
      TotalUpdate(g.states, last.state, Count(g.states, last.state) + 1);
    }
  }

  // ---------- Ranking ----------

  predicate KeyLess(a: SnapshotGroup, b: SnapshotGroup) {
    if a.peerIP != b.peerIP then LexLess(a.peerIP, b.peerIP)
    else if a.port != b.port then a.port < b.port
    else LexLess(a.procName, b.procName)
  }

  /** The comparison given to sort.Slice. */
  predicate RowLess(a: SnapshotGroup, b: SnapshotGroup) {
    if a.bw.totalBytesDelta != b.bw.totalBytesDelta then a.bw.totalBytesDelta > b.bw.totalBytesDelta
    else if a.connCount != b.connCount then a.connCount > b.connCount
    else if a.totalQueue != b.totalQueue then a.totalQueue > b.totalQueue
    else KeyLess(a, b)
  }

  lemma KeyLessTransitive(a: SnapshotGroup, b: SnapshotGroup, c: SnapshotGroup)
    requires KeyLess(a, b) && KeyLess(b, c)
    ensures KeyLess(a, c)
  {
    LexIrreflexive(a.peerIP);
    if a.peerIP != b.peerIP && b.peerIP != c.peerIP { LexTransitive(a.peerIP, b.peerIP, c.peerIP); }
    if LexLess(a.procName, b.procName) && LexLess(b.procName, c.procName) {
      LexTransitive(a.procName, b.procName, c.procName);
    }
  }

  lemma RowOrder()
    ensures StrictOrder(RowLess)
  {
    forall a ensures !RowLess(a, a) { LexIrreflexive(a.procName); }
    forall a, b, c | RowLess(a, b) && RowLess(b, c) ensures RowLess(a, c) {
      if KeyLess(a, b) && KeyLess(b, c) { KeyLessTransitive(a, b, c); }
    }
  }

  function KeyOf(row: SnapshotGroup): AggregateKey {
    AggregateKey(row.peerIP, row.port, row.procName)
  }

  lemma DistinctKeysNeverTie(a: SnapshotGroup, b: SnapshotGroup)
    requires KeyOf(a) != KeyOf(b)
    ensures RowLess(a, b) || RowLess(b, a)
  {
    LexTotal(a.peerIP, b.peerIP);
    LexTotal(a.procName, b.procName);
  }

  function RowOf(key: AggregateKey, g: Group<string>): SnapshotGroup {
    SnapshotGroup(key.peerIP, key.port, key.port, key.procName, g.connCount,
                  g.txQueue, g.rxQueue, g.totalQueue, g.bw, Some(g.states))
  }

  ghost predicate RowFrom(groups: map<AggregateKey, Group<string>>, row: SnapshotGroup) {
    KeyOf(row) in groups && row == RowOf(KeyOf(row), groups[KeyOf(row)])
  }

  /** `rows` lists the groups, one row each, best first. */
  ghost predicate IsRanking(rows: seq<SnapshotGroup>, groups: map<AggregateKey, Group<string>>) {
    && Ascending(rows, RowLess)
    && (forall row :: row in rows <==> RowFrom(groups, row))
  }

  /** `rows` is the ranking of the groups, cut at the limit. */
  ghost predicate IsBestOf(rows: seq<SnapshotGroup>, groups: map<AggregateKey, Group<string>>, limit: int) {
    exists all :: IsRanking(all, groups) && rows == Capped(all, limit)
  }

  lemma RankingUnique(a: seq<SnapshotGroup>, b: seq<SnapshotGroup>, groups: map<AggregateKey, Group<string>>)
    requires IsRanking(a, groups) && IsRanking(b, groups)
    ensures a == b
  {
    RowOrder();
    AscendingDetermined(a, b, RowLess);
  }

  lemma RankingKeysDistinct(rows: seq<SnapshotGroup>, groups: map<AggregateKey, Group<string>>, i: int, j: int)
    requires IsRanking(rows, groups) && 0 <= i < j < |rows|
    ensures KeyOf(rows[i]) != KeyOf(rows[j])
  {
    RowOrder();
    assert RowLess(rows[i], rows[j]);
    assert rows[i] in rows && rows[j] in rows;
  }

  // ---------- Connections ----------

  function AggregateServicePort(c: Connection, direction: Direction): int {
    if direction == Outgoing then c.remotePort else c.localPort
  }

  function ItemOf(c: Connection, direction: Direction): Item<AggregateKey, string> {
    var procName := TrimSpace(c.procName);
    var state := TrimSpace(c.state);
    Item(AggregateKey(NormalizeFlowIP(c.remoteIP), AggregateServicePort(c, direction),
                      if procName == "" then "-" else procName),
         if state == "" then "UNKNOWN" else state,
         c.txQueue, c.rxQueue, c.activity, c.bw)
  }

  function ItemFor(direction: Direction): Connection -> Item<AggregateKey, string> {
    (c: Connection) => ItemOf(c, direction)
  }

  function Items(conns: seq<Connection>, direction: Direction): seq<Item<AggregateKey, string>> {
    Map(conns, ItemFor(direction))
  }

  function Capped(rows: seq<SnapshotGroup>, limit: int): seq<SnapshotGroup> {
    if limit > 0 && |rows| > limit then rows[..limit] else rows
  }

  /** One connection goes to its group, which is created if there is none yet. */
  method GroupItem<K(==), S(==)>(byKey: map<K, Group<S>>, item: Item<K, S>) returns (after: map<K, Group<S>>)
    ensures after == AddTo(byKey, item)
  {
    var group := if item.key in byKey then byKey[item.key] else EmptyGroup();
    group := group.(connCount := group.connCount + 1,
                    txQueue := group.txQueue + item.txQueue,
                    rxQueue := group.rxQueue + item.rxQueue,
                    totalQueue := group.totalQueue + item.activity,
                    bw := Plus(group.bw, item.bw),
                    states := group.states[item.state := Count(group.states, item.state) + 1]);
    after := byKey[item.key := group];
  }

  /** The grouping loop. */
  method GroupItems<K(==), S(==)>(items: seq<Item<K, S>>) returns (byKey: map<K, Group<S>>)
    ensures byKey == Groups(items)
  {
    byKey := map[];
    for i := 0 to |items|
      invariant byKey == Groups(items[..i])
    {
      byKey := GroupItem(byKey, items[i]);
      GroupsAppend(items[..i], items[i]);
      assert items[..i + 1] == items[..i] + [items[i]];
    }
    assert items[..|items|] == items;
  }

  /** Lists the groups in an arbitrary order. */
  method ListRows(byKey: map<AggregateKey, Group<string>>) returns (rows: seq<SnapshotGroup>)
    ensures forall row :: row in rows <==> RowFrom(byKey, row)
    ensures forall i, j :: 0 <= i < j < |rows| ==> KeyOf(rows[i]) != KeyOf(rows[j])
  {
    rows := [];
    var todo := byKey.Keys;
    while todo != {}
      invariant todo <= byKey.Keys
      invariant forall row :: row in rows <==> RowFrom(byKey, row) && KeyOf(row) !in todo
      invariant forall i, j :: 0 <= i < j < |rows| ==> KeyOf(rows[i]) != KeyOf(rows[j])
      decreases todo
    {
      var key :| key in todo;
      var row := RowOf(key, byKey[key]);
      assert KeyOf(row) == key;
      assert forall i :: 0 <= i < |rows| ==> rows[i] in rows;
      rows := rows + [row];
      todo := todo - {key};
    }
  }

  /** Groups connections by peer, service port and process, ranks the rows and keeps the best. */
  method AggregateConnectionsByDirection(conns: seq<Connection>, direction: Direction, limit: int)
    returns (rows: seq<SnapshotGroup>)
    ensures IsBestOf(rows, Groups(Items(conns, direction)), limit)
  {
    var items := MapAll(conns, ItemFor(direction));
    var byKey := GroupItems(items);
    rows := ListRows(byKey);
    RowOrder();
    forall i, j | 0 <= i < j < |rows| ensures RowLess(rows[i], rows[j]) || RowLess(rows[j], rows[i]) {
      DistinctKeysNeverTie(rows[i], rows[j]);
    }
    SortAscending(rows, RowLess);
    SameElements(rows, Sort(rows, RowLess));
    rows := Sort(rows, RowLess);
    ghost var all := rows;
    assert IsRanking(all, Groups(items));
    if limit > 0 && |rows| > limit {
      rows := rows[..limit];
    }
    assert rows == Capped(all, limit);
  }

  // ---------- What the rows promise ----------

  /** Rows and their order depend only on the multiset of the connections, and a capped result is
      the uncapped prefix. */
  lemma AggregationDeterministic(a: seq<Connection>, b: seq<Connection>, direction: Direction,
                                 allA: seq<SnapshotGroup>, allB: seq<SnapshotGroup>, limit: int)
    requires multiset(a) == multiset(b)
    requires IsRanking(allA, Groups(Items(a, direction))) && IsRanking(allB, Groups(Items(b, direction)))
    ensures Capped(allA, limit) == Capped(allB, limit)
    ensures forall i, j :: 0 <= i < |Capped(allA, limit)| <= j < |allA| ==> RowLess(allA[i], allA[j])
  {
    MapPermutes(a, b, ItemFor(direction));
    GroupsPermute(Items(a, direction), Items(b, direction));
    RankingUnique(allA, allB, Groups(Items(a, direction)));
  }

  /** Two aggregations of the same connections in any order give the same rows. */
  lemma AggregationsAgree(a: seq<Connection>, b: seq<Connection>, direction: Direction, limit: int,
                          rowsA: seq<SnapshotGroup>, rowsB: seq<SnapshotGroup>)
    requires multiset(a) == multiset(b)
    requires IsBestOf(rowsA, Groups(Items(a, direction)), limit) && IsBestOf(rowsB, Groups(Items(b, direction)), limit)
    ensures rowsA == rowsB
  {
    var allA :| IsRanking(allA, Groups(Items(a, direction))) && rowsA == Capped(allA, limit);
    var allB :| IsRanking(allB, Groups(Items(b, direction))) && rowsB == Capped(allB, limit);
    AggregationDeterministic(a, b, direction, allA, allB, limit);
  }

  /** The rows of a ranking measure in all what its groups measure. */
  lemma RankingTotals(rows: seq<SnapshotGroup>, groups: map<AggregateKey, Group<string>>,
                      f: SnapshotGroup -> int, g: Group<string> -> int)
    requires IsRanking(rows, groups)
    requires forall key, group :: f(RowOf(key, group)) == g(group)
    ensures Sum(rows, f) == Total(Column(groups, g))
  {
    forall i, j | 0 <= i < j < |rows| ensures KeyOf(rows[i]) != KeyOf(rows[j]) {
      RankingKeysDistinct(rows, groups, i, j);
    }
    var m := Column(groups, g);
    forall i | 0 <= i < |rows| ensures KeyOf(rows[i]) in m && m[KeyOf(rows[i])] == f(rows[i]) {
      assert rows[i] in rows;
    }
    forall k | k in m ensures exists i :: 0 <= i < |rows| && KeyOf(rows[i]) == k {
      var row := RowOf(k, groups[k]);
      assert RowFrom(groups, row);
      assert row in rows;
      var i :| 0 <= i < |rows| && rows[i] == row;
      assert KeyOf(rows[i]) == k;
    }
    SumIsTotal(rows, KeyOf, m, f);
  }

  datatype Measure = ConnCount | TxQueue | RxQueue | TotalQueue | TxDelta | RxDelta | TotalDelta

  function OfRow(m: Measure): SnapshotGroup -> int {
    (row: SnapshotGroup) =>
      match m
      case ConnCount => row.connCount
      case TxQueue => row.txQueue
      case RxQueue => row.rxQueue
      case TotalQueue => row.totalQueue
      case TxDelta => row.bw.txBytesDelta
      case RxDelta => row.bw.rxBytesDelta
      case TotalDelta => row.bw.totalBytesDelta
  }

  function OfGroup<S>(m: Measure): Group<S> -> int {
    (g: Group<S>) =>
      match m
      case ConnCount => g.connCount
      case TxQueue => g.txQueue
      case RxQueue => g.rxQueue
      case TotalQueue => g.totalQueue
      case TxDelta => g.bw.txBytesDelta
      case RxDelta => g.bw.rxBytesDelta
      case TotalDelta => g.bw.totalBytesDelta
  }

  function OfItem<K, S>(m: Measure): Item<K, S> -> int {
    (item: Item<K, S>) =>
      match m
      case ConnCount => 1
      case TxQueue => item.txQueue
      case RxQueue => item.rxQueue
      case TotalQueue => item.activity
      case TxDelta => item.bw.txBytesDelta
      case RxDelta => item.bw.rxBytesDelta
      case TotalDelta => item.bw.totalBytesDelta
  }

  function OfConnection(m: Measure): Connection -> int {
    (c: Connection) =>
      match m
      case ConnCount => 1
      case TxQueue => c.txQueue
      case RxQueue => c.rxQueue
      case TotalQueue => c.activity
      case TxDelta => c.bw.txBytesDelta
      case RxDelta => c.bw.rxBytesDelta
      case TotalDelta => c.bw.totalBytesDelta
  }

  lemma MeasuresAdd<K(!new), S(!new)>(m: Measure)
    ensures Additive<K, S>(OfGroup(m), OfItem(m))
  {
  }

  lemma {:induction false} ItemsMeasure(conns: seq<Connection>, direction: Direction, m: Measure)
    ensures Sum(Items(conns, direction), OfItem(m)) == Sum(conns, OfConnection(m))
  {
    if conns != [] {
      ItemsMeasure(conns[..|conns| - 1], direction, m);
      assert conns == conns[..|conns| - 1] + [conns[|conns| - 1]];
      MapAppend(conns[..|conns| - 1], conns[|conns| - 1], ItemFor(direction));
      SumAppend(Items(conns[..|conns| - 1], direction), ItemFor(direction)(conns[|conns| - 1]), OfItem(m));
    }
  }

  /** Uncapped, every integer column adds up to the sum over the connections. */
  lemma AggregationConserves(conns: seq<Connection>, direction: Direction, all: seq<SnapshotGroup>, m: Measure)
    requires IsRanking(all, Groups(Items(conns, direction)))
    ensures Sum(all, OfRow(m)) == Sum(conns, OfConnection(m))
  {
    var items := Items(conns, direction);
    MeasuresAdd<AggregateKey, string>(m);
    GroupsConserve(items, OfGroup(m), OfItem(m));
    RankingTotals(all, Groups(items), OfRow(m), OfGroup(m));
    ItemsMeasure(conns, direction, m);
  }

  /** The state counts of every row add up to its connection count. */
  lemma RowStatesAddUp(conns: seq<Connection>, direction: Direction, all: seq<SnapshotGroup>, row: SnapshotGroup)
    requires IsRanking(all, Groups(Items(conns, direction))) && row in all
    ensures row.states.Some? && Total(row.states.value) == row.connCount
  {
    assert RowFrom(Groups(Items(conns, direction)), row);
    StatesAddUp(Items(conns, direction), KeyOf(row));
  }

  // ---------- What a row stands for ----------

  /** A ranking is by bytes, then connections, then queue, all descending; what still ties is ascending by
      address, port and process. */
  lemma RankingOrder(rows: seq<SnapshotGroup>, groups: map<AggregateKey, Group<string>>, i: int, j: int)
    requires IsRanking(rows, groups) && 0 <= i < j < |rows|
    ensures var a, b := rows[i], rows[j];
            && a.bw.totalBytesDelta >= b.bw.totalBytesDelta
            && (a.bw.totalBytesDelta == b.bw.totalBytesDelta ==>
                  && a.connCount >= b.connCount
                  && (a.connCount == b.connCount ==>
                        && a.totalQueue >= b.totalQueue
                        && (a.totalQueue == b.totalQueue ==>
                              && (a.peerIP != b.peerIP ==> LexLess(a.peerIP, b.peerIP))
                              && (a.peerIP == b.peerIP ==> a.port <= b.port)
                              && (a.peerIP == b.peerIP && a.port == b.port ==> LexLess(a.procName, b.procName)))))
  {
    assert RowLess(rows[i], rows[j]);
  }

  /** A limit that is positive leaves so many rows at most, and none that it drops has more bytes than one it
      keeps; any other keeps all rows. */
  lemma CapKeepsTheMost(rows: seq<SnapshotGroup>, groups: map<AggregateKey, Group<string>>, limit: int,
                        dropped: SnapshotGroup)
    requires IsBestOf(rows, groups, limit) && RowFrom(groups, dropped) && dropped !in rows
    ensures limit > 0 && |rows| == limit
    ensures forall kept :: kept in rows ==> kept.bw.totalBytesDelta >= dropped.bw.totalBytesDelta
  {
    var all :| IsRanking(all, groups) && rows == Capped(all, limit);
    var j :| 0 <= j < |all| && all[j] == dropped;
    forall kept | kept in rows ensures kept.bw.totalBytesDelta >= dropped.bw.totalBytesDelta {
      var i :| 0 <= i < |rows| && rows[i] == kept;
      assert all[i] == kept;
      RankingOrder(all, groups, i, j);
    }
  }

  /** The connections that a row of a side stands for: by peer, service port and process. */
  function InRow(row: SnapshotGroup, direction: Direction): Connection -> bool {
    (c: Connection) =>
      && NormalizeFlowIP(c.remoteIP) == row.peerIP
      && row.port == (if direction == Outgoing then c.remotePort else c.localPort)
      && row.procName == (if TrimSpace(c.procName) == "" then "-" else TrimSpace(c.procName))
  }

  lemma {:induction false} KeyedSum<T, K, S>(conns: seq<T>, itemOf: T -> Item<K, S>, key: K, h: Item<K, S> -> int,
                                             inRow: T -> bool, f: T -> int)
    requires forall c :: c in conns ==> (inRow(c) <==> itemOf(c).key == key) && f(c) == h(itemOf(c))
    ensures Sum(Map(conns, itemOf), Of(key, h)) == Sum(Filter(conns, inRow), f)
  {
    if conns != [] {
      var front, last := conns[..|conns| - 1], conns[|conns| - 1];
      assert conns == front + [last];
      KeyedSum(front, itemOf, key, h, inRow, f);
      MapAppend(front, last, itemOf);
      SumAppend(Map(front, itemOf), itemOf(last), Of(key, h));
      if inRow(last) { SumAppend(Filter(front, inRow), last, f); }
    }
  }

  /** Every integer column of a row is the sum over exactly the connections that the row stands for. */
  lemma RowHoldsItsConnections(conns: seq<Connection>, direction: Direction, all: seq<SnapshotGroup>,
                               row: SnapshotGroup, m: Measure)
    requires IsRanking(all, Groups(Items(conns, direction))) && row in all
    ensures OfRow(m)(row) == Sum(Filter(conns, InRow(row, direction)), OfConnection(m))
  {
    assert RowFrom(Groups(Items(conns, direction)), row);
    MeasuresAdd<AggregateKey, string>(m);
    GroupHoldsItsItems(Items(conns, direction), KeyOf(row), OfGroup(m), OfItem(m));
    KeyedSum(conns, ItemFor(direction), KeyOf(row), OfItem(m), InRow(row, direction), OfConnection(m));
  }

  /** And there is a row for every connection. */
  lemma EveryConnectionHasARow(conns: seq<Connection>, direction: Direction, all: seq<SnapshotGroup>, c: Connection)
    requires IsRanking(all, Groups(Items(conns, direction))) && c in conns
    ensures exists row :: row in all && InRow(row, direction)(c)
  {
    var items, key := Items(conns, direction), ItemOf(c, direction).key;
    var i :| 0 <= i < |conns| && conns[i] == c;
    assert items[i].key == key;
    MeasuresAdd<AggregateKey, string>(ConnCount);
    GroupHoldsItsItems(items, key, OfGroup(ConnCount), OfItem(ConnCount));
    var row := RowOf(key, Groups(items)[key]);
    assert RowFrom(Groups(items), row);
    assert row in all && InRow(row, direction)(c);
  }

  lemma {:induction false} GroupsFit<K, S>(items: seq<Item<K, S>>, key: K, sampleSec: real)
    requires forall i :: 0 <= i < |items| ==> RatesFit(items[i].bw, sampleSec)
    requires key in Groups(items)
    ensures RatesFit(Groups(items)[key].bw, sampleSec)
  {
    var front, last := items[..|items| - 1], items[|items| - 1];
    if key in Groups(front) { GroupsFit(front, key, sampleSec); }
    if key == last.key {
      FitsAdd(if key in Groups(front) then Groups(front)[key].bw else NO_TRAFFIC, last.bw, sampleSec);
    }
  }

  /** If the rates of every connection fit the interval, so do those of every row. */
  lemma RowRatesFit(conns: seq<Connection>, direction: Direction, all: seq<SnapshotGroup>, row: SnapshotGroup,
                    sampleSec: real)
    requires IsRanking(all, Groups(Items(conns, direction))) && row in all
    requires forall i :: 0 <= i < |conns| ==> RatesFit(conns[i].bw, sampleSec)
    ensures RatesFit(row.bw, sampleSec)
  {
    assert RowFrom(Groups(Items(conns, direction)), row);
    GroupsFit(Items(conns, direction), KeyOf(row), sampleSec);
  }

  function StateIs(state: string): Connection -> int {
    (c: Connection) => if state == (if TrimSpace(c.state) == "" then "UNKNOWN" else TrimSpace(c.state)) then 1 else 0
  }

  /** For every state a row counts exactly those of its connections that are in that state. */
  lemma RowCountsStates(conns: seq<Connection>, direction: Direction, all: seq<SnapshotGroup>, row: SnapshotGroup,
                        state: string)
    requires IsRanking(all, Groups(Items(conns, direction))) && row in all
    ensures row.states.Some?
    ensures Count(row.states.value, state) == Sum(Filter(conns, InRow(row, direction)), StateIs(state))
  {
    assert RowFrom(Groups(Items(conns, direction)), row);
    StateCountAdds<AggregateKey, string>(state);
    GroupHoldsItsItems(Items(conns, direction), KeyOf(row), StateCount(state), InState(state));
    KeyedSum(conns, ItemFor(direction), KeyOf(row), InState(state), InRow(row, direction), StateIs(state));
  }

  // ---------- Splitting ----------

  predicate IsSelf(c: Connection, selfPID: int) {
    selfPID > 0 && c.pid == selfPID
  }

  function ListensFor(listenPorts: set<int>, selfPID: int): Connection -> bool {
    (c: Connection) => !IsSelf(c, selfPID) && c.localPort in listenPorts
  }

  function DialsOutFor(listenPorts: set<int>, selfPID: int): Connection -> bool {
    (c: Connection) => !IsSelf(c, selfPID) && c.localPort !in listenPorts
  }

  function NotSelf(selfPID: int): Connection -> bool {
    (c: Connection) => !IsSelf(c, selfPID)
  }

  method SplitConnectionsByDirection(conns: seq<Connection>, listenPorts: set<int>, selfPID: int)
    returns (incoming: seq<Connection>, outgoing: seq<Connection>)
    ensures incoming == Filter(conns, ListensFor(listenPorts, selfPID))
    ensures outgoing == Filter(conns, DialsOutFor(listenPorts, selfPID))
    ensures forall c :: c in incoming <==> c in conns && c.localPort in listenPorts && !IsSelf(c, selfPID)
    ensures forall c :: c in outgoing <==> c in conns && c.localPort !in listenPorts && !IsSelf(c, selfPID)
  {
    incoming, outgoing := [], [];
    for i := 0 to |conns|
      invariant incoming == Filter(conns[..i], ListensFor(listenPorts, selfPID))
      invariant outgoing == Filter(conns[..i], DialsOutFor(listenPorts, selfPID))
    {
      var conn := conns[i];
      assert conns[..i + 1][..i] == conns[..i];
      if selfPID > 0 && conn.pid == selfPID {
        continue;
      }
      if conn.localPort in listenPorts {
        incoming := incoming + [conn];
        continue;
      }
      outgoing := outgoing + [conn];
    }
    assert conns[..|conns|] == conns;
    forall c ensures c in incoming <==> c in conns && c.localPort in listenPorts && !IsSelf(c, selfPID)
             ensures c in outgoing <==> c in conns && c.localPort !in listenPorts && !IsSelf(c, selfPID) {
      FilterHas(conns, ListensFor(listenPorts, selfPID), c);
      FilterHas(conns, DialsOutFor(listenPorts, selfPID), c);
    }
  }

  lemma {:induction false} SplitKeepsEach(conns: seq<Connection>, listenPorts: set<int>, selfPID: int)
    ensures multiset(Filter(conns, ListensFor(listenPorts, selfPID)))
          + multiset(Filter(conns, DialsOutFor(listenPorts, selfPID)))
         == multiset(Filter(conns, NotSelf(selfPID)))
  {
    if conns != [] {
      SplitKeepsEach(conns[..|conns| - 1], listenPorts, selfPID);
    }
  }

  /** Splitting and then aggregating without a cap accounts for every connection that is not the
      program's own exactly once, in every integer column. */
  lemma SplitThenAggregate(conns: seq<Connection>, listenPorts: set<int>, selfPID: int,
                           allIn: seq<SnapshotGroup>, allOut: seq<SnapshotGroup>, m: Measure)
    requires IsRanking(allIn, Groups(Items(Filter(conns, ListensFor(listenPorts, selfPID)), Incoming)))
    requires IsRanking(allOut, Groups(Items(Filter(conns, DialsOutFor(listenPorts, selfPID)), Outgoing)))
    ensures Sum(allIn, OfRow(m)) + Sum(allOut, OfRow(m)) == Sum(Filter(conns, NotSelf(selfPID)), OfConnection(m))
  {
    var incoming := Filter(conns, ListensFor(listenPorts, selfPID));
    var outgoing := Filter(conns, DialsOutFor(listenPorts, selfPID));
    AggregationConserves(incoming, Incoming, allIn, m);
    AggregationConserves(outgoing, Outgoing, allOut, m);
    SumConcat(incoming, outgoing, OfConnection(m));
    SplitKeepsEach(conns, listenPorts, selfPID);
    assert multiset(incoming + outgoing) == multiset(incoming) + multiset(outgoing);
    SumPermutes(incoming + outgoing, Filter(conns, NotSelf(selfPID)), OfConnection(m));
  }

  /** Aggregated rows are complete: storing them changes nothing. */
  lemma AggregatedRowsSettled(rows: seq<SnapshotGroup>, groups: map<AggregateKey, Group<string>>, limit: int)
    requires IsBestOf(rows, groups, limit)
    ensures forall i :: 0 <= i < |rows| ==> Settled(rows[i])
  {
    var all :| IsRanking(all, groups) && rows == Capped(all, limit);
    forall i | 0 <= i < |rows| ensures Settled(rows[i]) {
      assert all[i] in all;
    }
  }

  /** Aggregated rows survive being written to disk: their aliases agree. */
  lemma AggregatedRowsAgree(rows: seq<SnapshotGroup>, groups: map<AggregateKey, Group<string>>, limit: int)
    requires IsBestOf(rows, groups, limit)
    ensures AllSamePorts(rows)
  {
    var all :| IsRanking(all, groups) && rows == Capped(all, limit);
    forall i | 0 <= i < |rows| ensures SamePorts(rows[i]) {
      assert all[i] in all;
    }
  }
}

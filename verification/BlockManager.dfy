/** The table of active blocks: internal/tui/blocking/manager.go. Each method runs under the mutex, so each
    is one step on the table; the functions on maps are what BlockLifetime interleaves. */
module BlockManager {
  import opened Text
  import opened Sorting
  import opened Firewall

  datatype Entry = Entry(startedAt: int, expiresAt: int, summary: string)

  function Added<K>(blocks: map<K, Entry>, key: K, entry: Entry): map<K, Entry> {
    blocks[key := entry]
  }

  function Resummarised<K>(blocks: map<K, Entry>, key: K, summary: string): map<K, Entry> {
    if key in blocks then blocks[key := blocks[key].(summary := summary)] else blocks
  }

  function Removed<K>(blocks: map<K, Entry>, key: K): map<K, Entry> {
    blocks - {key}
  }

  function BlockKey(spec: PeerBlockSpec): string {
    spec.peerIP + "|" + Itoa(spec.localPort)
  }

  /** The table may as well be keyed by the specifications themselves. */
  lemma BlockKeyFaithful(a: PeerBlockSpec, b: PeerBlockSpec)
    ensures BlockKey(a) == BlockKey(b) <==> a == b
  {
    if BlockKey(a) == BlockKey(b) {
      ItoaLacks(a.localPort, '|');
      ItoaLacks(b.localPort, '|');
      assert BlockKey(a) == a.peerIP + ['|'] + Itoa(a.localPort);
      assert BlockKey(b) == b.peerIP + ['|'] + Itoa(b.localPort);
      SplitAtLast(a.peerIP, b.peerIP, Itoa(a.localPort), Itoa(b.localPort), '|');
      ItoaInjective(a.localPort, b.localPort);
    }
  }

  datatype ActiveBlock = ActiveBlock(spec: PeerBlockSpec, entry: Entry)

  predicate SpecLess(a: ActiveBlock, b: ActiveBlock) {
    if a.spec.peerIP != b.spec.peerIP then LexLess(a.spec.peerIP, b.spec.peerIP)
    else a.spec.localPort < b.spec.localPort
  }

  lemma SpecOrder()
    ensures StrictOrder(SpecLess)
  {
    forall a ensures !SpecLess(a, a) { LexIrreflexive(a.spec.peerIP); }
    forall a, b, c | SpecLess(a, b) && SpecLess(b, c) ensures SpecLess(a, c) {
      if a.spec.peerIP != b.spec.peerIP && b.spec.peerIP != c.spec.peerIP {
        LexTransitive(a.spec.peerIP, b.spec.peerIP, c.spec.peerIP);
        LexIrreflexive(a.spec.peerIP);
      }
    }
  }

  class Manager {
    var activeBlocks: map<PeerBlockSpec, Entry>
    var killFlowAutoPaused: bool

    constructor ()
      ensures activeBlocks == map[] && !killFlowAutoPaused
    {
      activeBlocks, killFlowAutoPaused := map[], false;
    }

    method AddActiveBlock(spec: PeerBlockSpec, entry: Entry)
      modifies `activeBlocks
      ensures activeBlocks == Added(old(activeBlocks), spec, entry)
    {
      activeBlocks := activeBlocks[spec := entry];
    }

    method UpdateActiveBlockSummary(spec: PeerBlockSpec, summary: string)
      modifies `activeBlocks
      ensures activeBlocks == Resummarised(old(activeBlocks), spec, summary)
    {
      if spec !in activeBlocks {
        return;
      }
      var entry := activeBlocks[spec];
      activeBlocks := activeBlocks[spec := entry.(summary := summary)];
    }

    method RemoveActiveBlock(spec: PeerBlockSpec)
      modifies `activeBlocks
      ensures activeBlocks == Removed(old(activeBlocks), spec)
    {
      activeBlocks := activeBlocks - {spec};
    }

    method HasActiveBlock(spec: PeerBlockSpec) returns (found: bool)
      ensures found <==> spec in activeBlocks
    {
      found := spec in activeBlocks;
    }

    /** The blocks in order of address and port. */
    method SnapshotActiveBlocks() returns (items: seq<ActiveBlock>)
      ensures forall i, j :: 0 <= i < j < |items| ==>
                || LexLess(items[i].spec.peerIP, items[j].spec.peerIP)
                || (items[i].spec.peerIP == items[j].spec.peerIP && items[i].spec.localPort < items[j].spec.localPort)
      ensures forall b :: b in items <==> b.spec in activeBlocks && activeBlocks[b.spec] == b.entry
    {
      var specs := InSomeOrder(activeBlocks.Keys);
      var found: seq<ActiveBlock> := [];
      for i := 0 to |specs|
        invariant |found| == i
        invariant forall j :: 0 <= j < i ==>
                    specs[j] in activeBlocks && found[j] == ActiveBlock(specs[j], activeBlocks[specs[j]])
      {
        assert specs[i] in specs;
        found := found + [ActiveBlock(specs[i], activeBlocks[specs[i]])];
      }
      forall b ensures b in found <==> b.spec in activeBlocks && activeBlocks[b.spec] == b.entry {
        if b.spec in activeBlocks && activeBlocks[b.spec] == b.entry {
          assert b.spec in specs;
          var j :| 0 <= j < |specs| && specs[j] == b.spec;
          assert found[j] == b;
        }
      }
      forall i, j | 0 <= i < j < |found| ensures SpecLess(found[i], found[j]) || SpecLess(found[j], found[i]) {
        assert specs[i] != specs[j];
        LexTotal(specs[i].peerIP, specs[j].peerIP);
      }
      SpecOrder();
      SortAscending(found, SpecLess);
      SameElements(found, Sort(found, SpecLess));
      items := Sort(found, SpecLess);
    }

    /** The pause that the kill form takes is given back once, and only if the form took it. */
    method EnterKillFlowPause(paused: bool) returns (nowPaused: bool)
      modifies `killFlowAutoPaused
      ensures nowPaused
      ensures killFlowAutoPaused == (old(killFlowAutoPaused) || !paused)
    {
      if paused {
        return true;
      }
      killFlowAutoPaused := true;
      nowPaused := true;
    }

    method ExitKillFlowPause(paused: bool) returns (nowPaused: bool)
      modifies `killFlowAutoPaused
      ensures nowPaused == (paused && !old(killFlowAutoPaused)) && !killFlowAutoPaused
    {
      if !killFlowAutoPaused {
        return paused;
      }
      killFlowAutoPaused := false;
      nowPaused := false;
    }
  }
}

# Verified model of holyf-network

holyf-network watches the TCP connections of a host, blocks and kills peers, and records snapshots that can
be replayed. This project models the parts of it that carry state or arithmetic over whole runs, and proves
what those parts promise. What the table below says of a member is what its contract says; nothing here executes
the program.

## What is modelled

**The snapshot log** (`LineIndex`, `LineLog`, `Records`, `SnapshotLog`, `SnapshotRoundTrip`, `Retention`, `Writer`,
`Daemon`, `Ledger`). A segment file is a byte sequence, a directory a map from day to bytes. The writer appends one JSON line
per record, rotates at midnight and prunes by age; the reader indexes lines by byte offset and seeks back to them.
`encoding/json` and `strings.TrimSpace` are a parameter (`Codec`) with one law: a record that can be marshalled
becomes one line that unmarshals to the record without its unwritten fields. Appending to a torn file loses at
most the next record, and with it an unterminated last line, whole or not: only newline-terminated lines keep
their refs. A record comes back as it was written exactly when the fields that are not written do not
contradict the ones that are; records that the daemon builds never do. So a daemon that runs in an orderly
directory, with a lawful codec and no torn write, leaves an index of exactly the retained records, by their times,
and in append order if that is the order of their times; and so does the next daemon that opens the same
directory. Torn writes cost at most one record each: a ledger of where every record stands is kept over any run,
from any directory. Appends and prunes may come at any time and with any window: what is within the shortest
window any prune used is never lost. An append older than that window is lost exactly when its segment was removed
under the open file.

**The spike detector** (`Traffic`). A capped moving average feeds a display level with two streak counters. The
display is specified by the history of raw levels alone, and the counter machine is proved to follow it.

**Blocking and killing** (`BlockManager`, `BlockLifetime`, `KillConverge`, `Firewall`). The timer goroutines, the
manual removals and the cleanup interleave step by step over one rule set and one table of active blocks. At any
time every rule without an entry has a goroutine about to add one, and every entry has a timer, under a condition
on each step that is exact: a key is blocked only when it is free, that is without an entry and without a goroutine
that is about to add or to take away its rule or entry (`HasActiveBlock` tests the first half only); a key is
removed by hand only when no goroutine is about to block it; a timer fails to unblock only a key without an entry
or with another timer; the cleanup fails to unblock only a key without a rule. A step that breaks its condition can leave a rule or an entry behind
without anything else going wrong; runs from nothing show the first two and the last. Blocking a removed key again
leaks nothing, but the first timer can end the second block early. The kill loop is proved for every behaviour of
sockets, kernel and clock. A firewall rule is its list of expressions, and what a chain drops is said of packets.

**Bandwidth accounting** (`Bandwidth`, `Lookup`, `Aggregate`, `Conntrack`, with keys in `Text`). Counter samples
become deltas, per-tuple rows, connection figures and ranked groups. Seconds and rates are reals.

**Netlink** (`Netlink`, `InetDiag`). Length-prefixed, 4-byte-aligned messages in a reused buffer (section 2.3.2
of RFC 3549), the attribute walk with its 16-bit alignment, and the socket identifiers sent and parsed.

**Replay** (`Navigation`, `HistoryApp`, `Replay`). The cursor that walks the index, with and without empty snapshots,
and what it shows of a directory that the daemon filled.

`Sums`, `Sorting`, `Sequences`, `Dedupe` and `Wrappers` hold what several parts share. Source loops over maps visit the keys
in an arbitrary order. `sort.Slice` is modelled by insertion; every order it is used with is shown to be strict
and total on the elements at hand, so the result is the only one possible.

Where code and comments of the repository differ, the model follows the code: `UnblockPeer` reports success
when listing the nftables tables fails and removes nothing, and `extractTCPInfo` does not end on an attribute
of 65533 bytes or more, which no payload from the 65536-byte receive buffer can hold
(`InetDiag.ReceivedWalksEnd`, `Firewall.UnblockWithoutTables`). The rules of a blocked peer are put into a table
for both versions of IP and do not test the version: besides what the comment on `buildMatchExprs` promises they
match packets of the other version that have the same bytes at the same offset (`Firewall.OtherVersionDropped`).

## Model

| member | source | states |
|---|---|---|
| LineLog.IndexSegmentFile | internal/history/reader.go:100-145 | the read loop gives the index of the file's lines and counts the corrupt ones, last line without newline included |
| LineLog.IndexedExactly | internal/history/reader.go:112-137 | an entry is in the index if and only if a line that has it starts at its offset |
| LineLog.JoinInvertsSplit | internal/history/reader.go:113 | splitting into lines loses and changes no byte |
| LineLog.LineFound | internal/history/reader.go:154-159 | seeking to the summed length of the lines before a line reads exactly that line |
| LineLog.SharedLinesSharedEntries | internal/history/reader.go:100-145 | two files that agree on a prefix of whole lines have the same entries in it and the same lines are read for them, however either goes on |
| LineLog.TornTail | internal/history/writer.go:88-96 | behind whole lines and a torn tail, the first appended line shares the tail's line, all others are indexed at their offsets, all earlier entries stay |
| LineLog.TornTailLosesOne | internal/history/writer.go:88-96 | every appended payload after the first is indexed where it was written and its line is what is read there |
| SnapshotLog.IndexedExactlyReadable | internal/history/reader.go:100-172 | a ref is indexed if and only if its line decodes, and reading it gives the record the ref was made from |
| SnapshotLog.RefsAscend | internal/history/reader.go:110-137 | refs of a segment ascend strictly by offset |
| SnapshotLog.LogGrowth | internal/history/reader.go:100-172 | cutting, tearing or extending a segment behind whole lines changes neither their refs nor what is read for them |
| SnapshotLog.TornTailRecovers | internal/history/writer.go:88-96 | after a torn tail, every appended record but the first is indexed and read back |
| SnapshotLog.TornTailCorruptsOne | internal/history/reader.go:117-121 | a torn tail makes at most one line corrupt, and none when the file ended with a newline |
| SnapshotLog.LoadIndexFromFiles | internal/history/reader.go:74-98 | fails exactly if some segment cannot be read, else all refs in the sorted order with the number of files and corrupt lines |
| SnapshotLog.LoadedIsOrdered | internal/history/reader.go:87-95 | the loaded index is the ascending arrangement of the refs of all segments by time, file and offset |
| SnapshotLog.CorruptAreUndecoded | internal/history/reader.go:114-126 | the corrupt lines counted are those that are not blank and do not decode |
| Records.NormalizeSnapshotRecord | internal/history/types.go:167-183 | computes the normal form, which keeps every field and only fills in limits, groups, ports and missing state counts (`NormalRecordKeeps`, `NormalRowKeeps`) |
| Records.CloneSnapshotGroups | internal/history/types.go:155-165 | copies rows, each with its missing alias port and state counts filled in and nothing else changed; never nil |
| Records.NormalRowKeeps | internal/history/types.go:140-153 | normalising a row fills in a missing port and missing state counts and keeps everything else; a row that has them stays as it is |
| Records.NormalRecordKeeps | internal/history/types.go:167-183 | normalising a record fills in limits and groups and keeps everything else |
| Records.DecodeMeans | internal/history/reader.go:174-199 | a line decodes if and only if all required fields are there and it unmarshals, to the normal form of what it holds; else which error |
| Records.NormalRecordIdempotent | internal/history/types.go:167-183 | normalising twice is normalising once, as decoding requires |
| Records.StrippedRecordReturns | internal/history/types.go:189-209 | dropping the unwritten fields and decoding restores a normalised record if and only if its aliases agree |
| Records.RoundTrip | internal/history/reader.go:174-199 | a written normalised record always decodes, and to itself if and only if its aliases agree |
| SnapshotRoundTrip.SegmentRoundTrip | internal/history/reader.go:100-145 | a segment filled by appends has one ref per record in that order, each standing at its record's line, none corrupt |
| SnapshotRoundTrip.LoadReturnsRetained | internal/history/reader.go:23-98 | loading a directory that records filled gives exactly one ref per retained record over all days, arranged by time, and in append order if that was the order of their times |
| SnapshotRoundTrip.RefReads | internal/history/reader.go:147-172 | reading through the i-th ref gives the i-th retained record |
| SnapshotRoundTrip.LawfulReturns | internal/history/types.go:200-209 | every writable record with agreeing aliases comes back from its line |
| SnapshotRoundTrip.DayIs | internal/history/writer.go:74-80 | a record belongs to the day within whose 24 hours it was captured |
| Retention.PruneDataDirByAge | internal/history/prune.go:11-46 | a segment is left if and only if it is the current one, cannot be removed, or its day ended no earlier than the cutoff in nanoseconds; counts the removed ones; bad retention and unlistable directories fail |
| Retention.RemoveExpired | internal/history/prune.go:30-43 | the removal loop leaves everything but the listed segments that go, and counts what it removed |
| Retention.PruneLeavesNoneExpired | internal/history/prune.go:34-42 | if removals succeed, the day of every segment that remains ended no earlier than `now` minus the retention hours |
| Retention.PruneRemovesOnlyExpired | internal/history/prune.go:30-42 | the day of every segment that goes ended before `now` minus the retention hours, and is not the current one |
| Retention.PruneKeepsTheRest | internal/history/prune.go:30-42 | whatever fails to be removed, a segment that has not expired or is the current one stays as it is |
| Retention.RetainedFill | internal/history/prune.go:30-43 | what prunes leave of a directory that records filled was filled by the retained records alone |
| Writer.SnapshotWriter.NewSnapshotWriter | internal/history/writer.go:23-58 | succeeds if and only if there is a data dir and all three steps succeed, else tells the first that fails; a locked writer with the defaults, orderly if and only if the directory holds the given records and nothing else |
| Writer.SnapshotWriter.constructor | internal/history/writer.go:42-58 | the writer itself: defaults for retention and prune interval, nothing written, nothing open |
| Writer.SnapshotWriter.RotateSegment | internal/history/writer.go:108-120 | closes the old file and opens the day's segment, keeping its contents; on failure nothing is open |
| Writer.SnapshotWriter.WriteLine | internal/history/writer.go:88-94 | the line reaches the segment exactly as long as the open file has its name; a short write leaves a proper prefix and counts nothing |
| Writer.SnapshotWriter.Append | internal/history/writer.go:60-106 | for any capture time: which error, how many bytes, what is counted and removed, when pruning is due, and when the directory stays orderly; other segments at most expire |
| Writer.AppendSucceedsExactly | internal/history/writer.go:60-106 | when an append succeeds: the segment is open or opens, the record marshals, the write is whole and a due prune can list |
| Writer.ReachesSegment | internal/history/writer.go:74-94 | the bytes end up in the directory if and only if the open file was not removed before, which takes a day out of the window |
| Writer.LateAppendIsLost | internal/history/writer.go:74-94 | a run in which an append reports success and no segment is left: its day had been pruned under the open file |
| Writer.StaysOrderly | internal/history/writer.go:60-106 | with a lawful codec, agreeing aliases, a day within the window and a write that is not torn an append keeps the directory orderly |
| Writer.SnapshotWriter.PruneOutside | cmd/daemon.go:535-548 | a prune around the writer, with any window and at any time, keeps its invariant; errors remove nothing |
| Writer.SnapshotWriter.LoadIndex | internal/history/reader.go:23-30 | on any directory the refs of its segments; on an orderly one exactly one per retained record, by time, each reading as its record and none corrupt, and in append order if the log is in time order |
| Writer.NothingYoungLost | internal/history/prune.go:26-43 | over every run of appends and prunes, a segment with anything written within the shortest window used is there in full |
| Writer.OpenSegmentIsThere | internal/history/prune.go:26-33 | the open segment is never unlinked before its day is out of the window |
| Writer.YoungIsRetained | internal/history/prune.go:26-43 | every record within the window is among those LoadIndex returns |
| Writer.RestartIsOrderly | internal/history/writer.go:23-58 | a writer that opens what an orderly writer left is orderly, with the retained records as its log |
| Daemon.DaemonRecordsReturn | cmd/daemon.go:588-610 | records built from aggregated rows have aliases that agree, so a lawful codec returns what was stored |
| Daemon.BuiltIsStored | internal/history/writer.go:60-72 | what is stored of a record that the daemon built is that record, field by field, with only capture time, `topLimit` and `groups` filled in |
| Daemon.RecordHoldsTheSample | cmd/daemon.go:588-610 | every integer column of a row of the record is the sum over exactly the foreign connections of the sample on its side with its peer, service port and process |
| Daemon.Capture | cmd/daemon.go:551-613 | one capture: the record is built of both capped sides and logged unless opening, marshalling or writing fails; it keeps an orderly directory orderly unless the write is torn, and the books in any case |
| Daemon.Run | cmd/daemon.go:640-661 | over any sequence of ticks and prunes the log grows by exactly the stored records; without torn writes an orderly directory stays orderly, and with them the ledger goes on with one tear each |
| Daemon.RunThenLoad | cmd/daemon.go:640-661 | after a run without torn writes the index gives exactly the retained records, each reading as it was stored, by time; earlier ones first in append order if captures are in time order |
| Daemon.RunTornThenLoad | internal/history/writer.go:88-96 | after a run with torn writes, from any directory, every retained record is listed where it was written and reads as it was stored, but for at most one per tear |
| Ledger.BooksByAppend | internal/history/writer.go:60-106 | every append keeps the books: records on lines of their own stand for good, and each record or segment end that is not whole has a tear of its own |
| Ledger.BooksAreLoaded | internal/history/reader.go:74-172 | what the books place is listed by the index and reads back |
| Daemon.Restart | cmd/daemon.go:503-513 | a daemon started again on the same directory finds it orderly |
| Traffic.Manager.Stabilize | internal/tui/traffic/manager.go:118-171 | the counter machine shows exactly the declarative function of the raw history; its streaks are never both positive |
| Traffic.Manager.EvaluateInterfaceSpike | internal/tui/traffic/manager.go:64-116 | per sample: the baseline is that of all earlier peaks, level and readiness as specified (`LevelMeans`, `BaselineMoves`); a first reading or a peak that is not positive changes nothing |
| Traffic.LevelMeans | internal/tui/traffic/manager.go:97-104 | the level is Crit if and only if the peak takes 85 % of a known link, else 200 MiB/s, or is three times baseline and floor; OK if and only if it takes less than 60 % or 80 MiB/s and is less than twice both |
| Traffic.AbsoluteMeans | internal/tui/traffic/manager.go:173-185 | the same for the first sample, without the ratio |
| Traffic.BaselineMoves | internal/tui/traffic/manager.go:82-113 | the first peak is the baseline; a later one counts for three times the baseline at most and a fifth of the new one |
| Traffic.BaselineBounds | internal/tui/traffic/manager.go:103-113 | over any run the average stays between smallest and largest peak and changes by a factor in [0.8, 1.4] per sample |
| Traffic.LargeRatioLifts | internal/tui/traffic/manager.go:87-113 | a ratio of at least 2 lifts the baseline by at least a fifth |
| Traffic.SteadyPeakSettles | internal/tui/traffic/manager.go:82-113 | under a constant peak the ratio level is OK from any k on with 1.2^k times the baseline above half the peak |
| Traffic.CritShowsAtOnce | internal/tui/traffic/manager.go:127-131 | Crit shows on a Crit sample and on nothing else |
| Traffic.OkRisesOnTwoWarns | internal/tui/traffic/manager.go:132-149 | OK rises to Warn exactly on the second of two consecutive Warns |
| Traffic.CritFallsOnCalmPair | internal/tui/traffic/manager.go:135-163 | Crit falls exactly on two consecutive samples of one calm kind, and to Warn |
| Traffic.WarnFallsOnThirdClear | internal/tui/traffic/manager.go:150-169 | Warn falls to OK exactly on the third clear sample in a row taken while Warn was shown |
| Traffic.AlternationHoldsCrit | internal/tui/traffic/manager.go:132-163 | Warn and OK taking turns hold Crit for ever |
| Traffic.CritClearsInFive | internal/tui/traffic/manager.go:150-169 | from Crit exactly five consecutive OKs lead to OK, by way of Warn |
| Traffic.FiveClearsAlwaysSuffice | internal/tui/traffic/manager.go:150-169 | from any history five consecutive OKs reach OK and it stays |
| BlockLifetime.EveryRunTendsAndWaits | internal/tui/blocking/runtime.go:13-83 | over every interleaving each active block has a live goroutine that tends it unless a goroutine gave up on its key after its own UnblockPeer failed, and no goroutine gets to unblocking before its ExpiresAt; what its unblocking takes away is said by `StepChangesItsKey` |
| BlockLifetime.StepChangesItsKey | internal/tui/blocking/runtime.go:21-76 | a key has a rule after a step if and only if the step blocks it, or it had one and the step is not a successful unblock of this very key, by a timer only after its expiry; likewise its entry, whose times change only when it is blocked again |
| BlockLifetime.BlockedUntilUnblocked | internal/tui/blocking/runtime.go:61-76 | over every run a blocked key keeps its rule until its own expired timer, the user or the cleanup unblocks it |
| BlockLifetime.GoroutinesStep | internal/tui/blocking/runtime.go:13-83 | each goroutine goes through its program in order, keeps its key and times, and moves by its own steps only |
| BlockLifetime.CleanupClears | internal/tui/blocking/manager.go:60-72 | a cleanup that is not interrupted leaves no entry, takes away the rules it succeeds to unblock and no others |
| BlockLifetime.RemovedByHand | internal/tui/blocking/ui_blocked_peers.go:79-90 | removing a key by hand takes away its rule and then its entry; where UnblockPeer fails, nothing |
| BlockLifetime.StepKeepsOnTime | internal/tui/blocking/runtime.go:18-69 | the unblocking step is only possible at or after the recorded expiry |
| BlockLifetime.StepKeepsTended | internal/tui/blocking/runtime.go:29-76 | each step of goroutines, removals and cleanup keeps every entry tended |
| BlockLifetime.DisciplinedRunsDoNotLeak | internal/tui/blocking/runtime.go:21-76 | over every disciplined run a rule without an entry exists only between BlockPeer and AddActiveBlock, and every entry has a live timer |
| BlockLifetime.NothingRemains | internal/tui/blocking/runtime.go:13-83 | over a disciplined run from nothing everything is accounted for; once all goroutines have returned no rule and no entry remain |
| BlockLifetime.DisciplineIsExact | internal/tui/blocking/runtime.go:21-76 | from any state that disciplined runs reach, a step respects its condition if and only if everything stays accounted for however goroutines, clock and user interface go on, with a firewall that does what it is told |
| BlockLifetime.DisciplinedRunsExactly | internal/tui/blocking/runtime.go:13-83 | a run is disciplined if and only if none of its steps puts a rule or an entry at risk |
| BlockLifetime.UnfreeSpawnLeaks | internal/tui/blocking/ui_kill.go:133-137 | blocking a key that has an entry or a goroutine about to change it can end with its rule and no entry, by the goroutines' own steps |
| BlockLifetime.EarlyRemovalLeaks | internal/tui/blocking/ui_blocked_peers.go:79-90 | so can removing a key by hand while a goroutine is about to block it |
| BlockLifetime.FailedCleanupLeaks | internal/tui/blocking/manager.go:60-72 | so does a cleanup that fails to unblock a key with a rule |
| BlockLifetime.OverlapLeavesRule | internal/tui/blocking/ui_kill.go:133-137 | a run of one-minute blocks in which a key is blocked again while it is not free ends with a rule that nothing will remove |
| BlockLifetime.UntrackedRemovalLeavesRule | internal/tui/blocking/ui_blocked_peers.go:79-90 | a run in which a leftover rule is removed by hand while its key is being blocked ends with a rule that nothing will remove |
| BlockLifetime.FailedCleanupLeavesRule | internal/tui/blocking/manager.go:60-72 | a run in which the cleanup fails to unblock ends with a rule that nothing will remove |
| BlockLifetime.StaleTimerEndsBlockEarly | internal/tui/blocking/runtime.go:61-76 | a disciplined run in which a key is removed by hand and blocked again, and the first timer takes the rule away before the second block expires |
| BlockManager.BlockKeyFaithful | internal/tui/blocking/manager.go:31-33 | keys collide only for equal specifications |
| BlockManager.Manager.SnapshotActiveBlocks | internal/tui/blocking/manager.go:81-97 | exactly the active blocks, ascending by address and port |
| BlockManager.Manager.ExitKillFlowPause | internal/tui/blocking/manager.go:142-149 | resumes only if the kill form had paused |
| KillConverge.RunKillPeerFlows | internal/actions/kill_converge.go:136-208 | ends at the first pass that counts nothing or finds the time used up, else at the last allowed one; report and effects of every pass (`RunEnds`, `EveryPassKills`, `EveryPassBesides`) |
| KillConverge.RunEnds | internal/actions/kill_converge.go:136-208 | when a run ends and what it reports of the counts, the errors and the last pass, in terms of the answers of the environment alone |
| KillConverge.EveryPassKills | internal/actions/kill_converge.go:158-176 | every pass of a run hands tuples over if and only if it can and one was queried or is in the snapshot; they are such tuples, with every key of those exactly once |
| KillConverge.EveryPassKillsExactly | internal/actions/kill_converge.go:158-176 | for addresses without a bar exactly the queried and the snapshot tuples are handed over |
| KillConverge.EveryPassBesides | internal/actions/kill_converge.go:154-206 | every pass kills broadly and drops conntrack entries if it can, and all but the last pause, for as long as the options say |
| KillConverge.LastCountMeans | internal/actions/kill_converge.go:186-192 | the counts reported are those of the last pass whose count succeeded |
| KillConverge.SocketErrMeans | internal/actions/kill_converge.go:158-176 | the socket error reported is the result of the last pass that handed tuples over or failed to query |
| KillConverge.KillPass | internal/actions/kill_converge.go:156-182 | one pass: broad kill, the deduplicated union handed over whenever it is not empty, conntrack; which error is kept |
| KillConverge.ExactlyOneOutcome | internal/actions/kill_converge.go:42-44 | with non-negative counts exactly one of converged, partial and count error holds |
| KillConverge.NoOutcomeExactly | internal/actions/kill_converge.go:42-44 | none of the three holds if and only if the last count was negative |
| KillConverge.ConvergesWithinActiveCount | internal/actions/kill_converge.go:151-206 | if counts succeed and fall strictly, it converges within as many passes as there were active flows |
| KillConverge.PassKillsTheUnion | internal/actions/kill_converge.go:168-171 | each pass aims at the keys of queried and snapshot tuples, each once |
| KillConverge.PassKillsExactlyTheUnion | internal/actions/kill_converge.go:210-230 | for addresses without a bar exactly the tuples of the union are killed |
| KillConverge.DedupeTuples | internal/actions/kill_converge.go:210-226 | keeps the first tuple of every key, the short-list shortcut included |
| KillConverge.KillPartAddsUp | internal/tui/blocking/runtime.go:209-235 | killed and remaining add up to the total; the remaining number is true unless the peer gained flows |
| KillConverge.KillPartKnows | internal/tui/blocking/runtime.go:209-235 | what is shown when a count is missing: nothing without the first, only the total without the last |
| Firewall.TagRoundTrip | internal/kernelapi/firewall_nft.go:216-235 | parsing a tag gives back the specification it was written for, IPv6 colons included |
| Firewall.TagFaithful | internal/kernelapi/firewall_nft.go:104 | different specifications have different tags |
| Firewall.NftFirewall.BlockPeer | internal/kernelapi/firewall_nft.go:71-130 | succeeds exactly under the stated conditions, adds one rule per chain, with the expressions that `ChainDropsTheBlocked` gives a meaning, and the specification to the blocked set; failures change nothing |
| Firewall.NftFirewall.UnblockPeer | internal/kernelapi/firewall_nft.go:133-162 | succeeds exactly under the stated conditions; then the specification is gone if and only if the table was found or it was not blocked, and exactly the rules with its tag are gone from both chains |
| Firewall.UnblockWithoutTables | internal/kernelapi/firewall_nft.go:139-142 | a run in which unblocking reports success and the rules of the blocked specification stay, because the tables cannot be listed |
| Firewall.NftFirewall.ListBlockedPeers | internal/kernelapi/firewall_nft.go:37-68 | lists exactly the blocked specifications, each once |
| Firewall.OthersUntouched | internal/kernelapi/firewall_nft.go:149-156 | unblocking one specification leaves the rules of every other one as they are |
| Firewall.ChainDropsTheBlocked | internal/kernelapi/firewall_nft.go:240-329 | a chain drops a packet if and only if some blocked specification hits it |
| Firewall.RuleDropsExactly | internal/kernelapi/firewall_nft.go:240-329 | on packets of the IP version of the peer a rule drops exactly the TCP packets from the peer to the 16-bit local port, or back in the other direction |
| Firewall.OtherVersionDropped | internal/kernelapi/firewall_nft.go:240-329 | the rules do not test the IP version: on the other one they drop exactly the TCP packets of the port that have the bytes of the address at the offset where the version of the peer keeps it |
| Firewall.BlockHitsAnother | internal/kernelapi/firewall_nft.go:257-279 | for every blocked IPv4 peer and every IPv6 source with its four bytes behind the first four there is a packet that the rule drops |
| Netlink.RecvNetlinkMsgs | internal/kernelapi/socket_netlink.go:468-513 | with one reused buffer the result depends only on the received bytes |
| Netlink.ScanBuffer | internal/kernelapi/socket_netlink.go:482-510 | the inner loop reads only the first n bytes, always advances and returns the payloads found |
| Netlink.ReceivesExactlyThePayloads | internal/kernelapi/socket_netlink.go:468-513 | datagrams of well-formed messages followed by DONE or ERROR yield exactly their payloads, in order, and the error of the kernel exactly if the code of ERROR, signed, is not zero |
| Netlink.EndsWithout | internal/kernelapi/socket_netlink.go:472-479 | without either, a datagram too short for a header completes the reception and a read that fails fails it |
| Netlink.CutMessageIsDropped | internal/kernelapi/socket_netlink.go:487-489 | a message cut short by the end of its datagram is passed over and the ones before it come back |
| Netlink.ReceivedFit | internal/kernelapi/socket_netlink.go:482-510 | no payload from datagrams of at most 65536 bytes has more than 65520 bytes |
| InetDiag.ExtractTCPInfo | internal/kernelapi/socket_netlink.go:430-455 | the loop computes the attribute walk, and tells when the source would stand still |
| InetDiag.EndsExactlyBelow | internal/kernelapi/socket_netlink.go:437-453 | the walk ends on all payloads of a size if and only if the size is below 65605 bytes |
| InetDiag.ReceivedWalksEnd | internal/kernelapi/socket_netlink.go:430-455 | the walk ends on every payload that datagrams of at most 65536 bytes yield |
| InetDiag.FindsFirstInfo | internal/kernelapi/socket_netlink.go:437-453 | on well-formed attributes the first tcp_info is found |
| InetDiag.BuildInetDiagReqExact | internal/kernelapi/socket_netlink.go:328-350 | the filled buffer is header, states and socket identifier with 16-bit ports in network order |
| InetDiag.WriteIPToSlice | internal/kernelapi/socket_netlink.go:353-369 | writes 4 or 16 bytes into the slot and nothing outside it; an unparsable address writes nothing |
| InetDiag.RequestedSocketIsParsed | internal/kernelapi/socket_netlink.go:396-426 | a message about the requested socket is parsed as the same addresses and ports |
| InetDiag.SockIDLayout | internal/kernelapi/socket_netlink.go:338-369 | where ports, in network order, and addresses are in a socket identifier |
| Bandwidth.DeltasTelescope | internal/collector/bandwidth_tracker.go:46-104 | for a flow in every sample with steps within the cap the reported deltas sum to last minus first |
| Bandwidth.NeverOverReports | internal/collector/bandwidth_tracker.go:265-273 | for any counters the reported total is at most the sum of positive increments |
| Bandwidth.RowsTelescope | internal/collector/bandwidth_tracker.go:66-94 | the rows of a tuple owned by one steady flow show exactly the bytes it sent |
| Bandwidth.TupleConservation | internal/collector/bandwidth_tracker.go:242-259 | every row has total = tx + rx and rate times interval = delta; with non-zero ports tx and rx over all rows equal the sum of both deltas |
| Bandwidth.UnsharedRow | internal/collector/bandwidth_tracker.go:82-94 | a tuple no other flow shares shows that flow's delta |
| Bandwidth.RowIsGrowth | internal/collector/bandwidth_tracker.go:46-104 | in terms of the flows: there are rows for exactly the normalised tuples with both ports, each with the sums of what the byte counters of all its flows grew by since the last flow with the same identifier, orig sending what reply receives, steps outside 0 to 12.5 GB counting nothing |
| Bandwidth.SocketRowIsGrowth | internal/collector/socket_bandwidth_tracker.go:45-66 | in terms of the sockets: the same, sending what was acknowledged and receiving what was received |
| Bandwidth.AddAllGivesRows | internal/collector/bandwidth_tracker.go:242-259 | accumulating row by row gives per tuple the sums of its contributions and their rates |
| Bandwidth.RowsUnique | internal/collector/bandwidth_tracker.go:242-259 | rows are determined by the contributions |
| Bandwidth.BandwidthTracker.BuildSnapshot | internal/collector/bandwidth_tracker.go:46-104 | rows are those of the deltas against the previous sample; availability and interval |
| Bandwidth.SocketBandwidthTracker.BuildSnapshot | internal/collector/socket_bandwidth_tracker.go:26-73 | the same tracker keyed by socket tuple |
| Lookup.EnrichConnectionsWithBandwidth | internal/collector/bandwidth_tracker.go:107-179 | each connection gets its exact row, else the sum of all rows with its peer and ports, else zero |
| Lookup.OverlayMissingBandwidth | internal/collector/bandwidth_tracker.go:182-240 | the same lookup, only where there was no positive bandwidth and something was found |
| Lookup.EnrichedMeans | internal/collector/bandwidth_tracker.go:144-178 | a connection gets the row of its own tuple, seen from its local end, else the column sums of the rows with its peer and ports, with rates that fit where theirs do; nothing else changes |
| Lookup.OverlaidMeans | internal/collector/bandwidth_tracker.go:208-238 | overlaying changes exactly the connections without positive bandwidth for which there is such a row |
| Lookup.SumRowsIsScan | internal/collector/bandwidth_tracker.go:123-142 | the indexed sum equals a linear scan of the rows in any order |
| Lookup.OverlayAfterEnrich | internal/collector/bandwidth_tracker.go:107-240 | enriching and overlaying are idempotent; conntrack figures win where positive |
| Aggregate.AggregateConnectionsByDirection | internal/history/aggregate.go:31-107 | the result is the ranking of the groups, cut at the limit; what that means is said by the rows below |
| Aggregate.RankingOrder | internal/history/aggregate.go:84-101 | bytes, then connections, then queue never rise along the ranking; remaining ties ascend by address, port and process |
| Aggregate.CapKeepsTheMost | internal/history/aggregate.go:103-106 | with a positive limit so many rows are kept, none with fewer bytes than a dropped one; without, all |
| Aggregate.RowHoldsItsConnections | internal/history/aggregate.go:36-77 | every integer column of a row is the sum over exactly the connections with its peer, service port and process |
| Aggregate.EveryConnectionHasARow | internal/history/aggregate.go:36-77 | every connection is in some row |
| Aggregate.RowRatesFit | internal/history/aggregate.go:62-71 | if the rates of every connection fit the interval, so do those of every row |
| Aggregate.AggregationDeterministic | internal/history/aggregate.go:31-107 | the ranking depends only on the multiset of connections; a capped result is its prefix |
| Aggregate.AggregationsAgree | internal/history/aggregate.go:80-106 | two aggregations of the same connections in any order give the same rows |
| Aggregate.RowCountsStates | internal/history/aggregate.go:72-76 | for every state, trimmed and with a name for none, a row counts exactly those of its connections that are in it |
| Aggregate.AggregationConserves | internal/history/aggregate.go:36-77 | uncapped, every integer column sums to that of the connections |
| Aggregate.RowStatesAddUp | internal/history/aggregate.go:62-76 | state counts of a row add up to its connection count |
| Aggregate.SplitConnectionsByDirection | internal/history/aggregate.go:120-138 | incoming are those on listening ports, outgoing the others, own process dropped |
| Aggregate.SplitThenAggregate | internal/history/aggregate.go:120-138 | split followed by uncapped aggregation accounts for every foreign connection exactly once |
| Conntrack.PreferenceComparesScores | internal/collector/conntrack_flows.go:190-210 | the branchy preference is a comparison of scores |
| Conntrack.PreferenceMeans | internal/collector/conntrack_flows.go:190-221 | a candidate is preferred for bytes in more directions, then for more bytes in all, then for being the only one established |
| Conntrack.MergeConntrackFlowSet | internal/collector/conntrack_flows.go:149-157 | the loop folds the flows into the map by key and score |
| Conntrack.MergeDumps | internal/collector/conntrack_flows.go:78-113 | dumps in turn, failed ones skipped, merge like one list; which trouble came last |
| Conntrack.CollectConntrackFlows | internal/collector/conntrack_flows.go:78-147 | all merged flows in key order; without any it succeeds exactly if there was nothing to decode, else it fails exactly if no byte is counted and the kernel is known not to count |
| Conntrack.UndecodedIsTrouble | internal/collector/conntrack_flows.go:104-126 | lines that could not be decoded always leave an error behind, so the last fallback message is never needed |
| Conntrack.TroubleMeans | internal/collector/conntrack_flows.go:115-146 | which error is reported: accounting known to be off, for lines of which none decoded or flows without bytes; else, only without any flow, that of the last dump with trouble |
| Conntrack.LastTroubleMeans | internal/collector/conntrack_flows.go:90-110 | the trouble that is kept is that of the last dump that failed or left all its lines undecoded |
| Conntrack.MergeKeepsFirstBest | internal/collector/conntrack_flows.go:149-157 | per key the first flow of maximal score among all candidates is kept |
| Conntrack.MergeConcat | internal/collector/conntrack_flows.go:149-157 | merging A then B equals merging A and B as one |
| Conntrack.WinningScoreOrderFree | internal/collector/conntrack_flows.go:190-221 | the winning score is independent of the order of the flows |
| Conntrack.FlowMapToSortedSlice | internal/collector/conntrack_flows.go:159-173 | all flows, in ascending order of their keys |
| Conntrack.SliceUnique | internal/collector/conntrack_flows.go:159-173 | the sorted slice does not depend on the order in which the map is visited |
| Conntrack.MergeHostFlows | internal/collector/conntrack_merge.go:18-62 | appends the established host-facing flows with unseen keys |
| Conntrack.MergeConntrackHostFlows | internal/collector/conntrack_merge.go:12-16 | local addresses are those of interfaces and connections |
| Conntrack.HostCandidateMeans | internal/collector/conntrack_merge.go:33-80 | a flow makes a connection if and only if it is established and has one local end; the connection has the two ends of the flow, each address with its port, the local one in its local place |
| Conntrack.HostMergeAddsOnce | internal/collector/conntrack_merge.go:18-62 | connections stay as a prefix, no key is added twice, all are covered, merging again adds nothing |
| Conntrack.HostMergeOrderFree | internal/collector/conntrack_merge.go:18-62 | any order of the flows adds the same keys, and the same connections where a key determines its connection |
| Conntrack.HostKeyDetermines | internal/collector/conntrack_merge.go:123-128 | for clean normalised addresses the key determines the connection |
| Conntrack.RealFlowsOrderFree | internal/collector/conntrack_merge.go:18-62 | for flows with clean addresses that settle when normalised, any order adds the same connections |
| Text.FlowIDFaithful | internal/collector/bandwidth_tracker.go:288-294 | flow identifiers collide only for equal orig and reply tuples |
| Text.CanonicalKeyFaithful | internal/collector/conntrack_flows.go:175-188 | canonical keys collide exactly for equal unordered pairs |
| Text.ConnectionKeyFaithful | internal/collector/conntrack_merge.go:123-128 | connection keys collide exactly for equal normalised tuples |
| Text.PipeKeyInjective | internal/actions/kill_converge.go:228-230 | socket keys collide only for equal tuples |
| Text.EndpointInjective | internal/kernelapi/firewall_nft.go:60 | "address:port" is unambiguous although addresses hold colons |
| Text.AtoiInvertsItoa | internal/kernelapi/firewall_nft.go:226 | a printed port is read back |
| Text.NormalizeMeans | internal/collector/bandwidth_tracker.go:284-286 | the space around an address and one IPv4-mapped prefix go, and nothing else does |
| Text.LexMeans | internal/collector/conntrack_flows.go:166 | strings compare by the first code points that differ; a proper prefix comes first |
| Navigation.FindPrevNonEmptyIndex | internal/tui/replay/navigation.go:51-66 | the last active index up to the start, with the number skipped; not found exactly if there is none |
| Navigation.FindNextNonEmptyIndex | internal/tui/replay/navigation.go:68-83 | the first active index from the start on, with the number skipped |
| Navigation.FindNearestNonEmptyIndex | internal/tui/replay/navigation.go:85-105 | truly nearest, ties to the left; found exactly if some ref is active |
| Navigation.EmptyCountAfter | internal/tui/replay/navigation.go:16-33 | the number of empty refs behind an index |
| Navigation.EmptyCountBefore | internal/tui/replay/navigation.go:35-49 | the number of empty refs before an index |
| Navigation.ClosestSnapshotIndex | internal/tui/replay/search.go:39-62 | minimises the distance in time on any sorted index, ties to the earlier |
| Navigation.FilterByRange | internal/tui/replay/timeline.go:9-25 | keeps exactly the refs within the bounds, in order |
| Navigation.KeptInRange | internal/tui/replay/timeline.go:9-25 | both bounds belong to the range, and one that is not given does not limit it |
| Navigation.WalkVisitsAll | internal/tui/history_app.go:943-1016 | next from the oldest visits every non-empty snapshot once in order, one position further each time, ending where latest lands |
| Navigation.NextThenPrev | internal/tui/history_app.go:919-965 | a next that moved is undone by prev if and only if it did not start on a snapshot that is skipped |
| Navigation.TargetsMean | internal/tui/history_app.go:919-965 | next and prev go to the nearest ref with rows on their side, if there is one, or with empty ones shown to the neighbour, staying at the ends |
| Navigation.EndsMean | internal/tui/history_app.go:967-1016 | oldest and latest go to the first and last ref with rows, or to the very ends |
| Navigation.EndsAdjust | internal/tui/history_app.go:651-708 | after the start and latest adjustments the generic one is the nearest to that end |
| HistoryApp.HistoryApp.LoadSnapshotAt | internal/tui/history_app.go:207-230 | lands on the clamped index with its record, or leaves the cursor where it was if reading fails |
| HistoryApp.LandingMeans | internal/tui/history_app.go:207-230 | a snapshot that reads is shown with its first row selected, an index beyond the ends means the end, a failed read changes nothing |
| HistoryApp.RefCounts | internal/tui/history_app.go:265-273 | what a ref counts on a side is the number of rows its record has there |
| HistoryApp.HistoryApp.NavigateNext | internal/tui/history_app.go:943-965 | goes to the next target; a record that matched its index still does |
| HistoryApp.HistoryApp.NavigatePrev | internal/tui/history_app.go:919-941 | goes to the previous target; a record that matched its index still does |
| HistoryApp.HistoryApp.NavigateOldest | internal/tui/history_app.go:967-991 | goes to the oldest target and stops following |
| HistoryApp.HistoryApp.NavigateLatest | internal/tui/history_app.go:993-1016 | goes to the latest target |
| HistoryApp.HistoryApp.ActiveTimelinePosition | internal/tui/history_app.go:598-622 | rank of the current snapshot among the non-empty ones, and their number |
| HistoryApp.PressesVisitAll | internal/tui/history_app.go:943-965 | with reads succeeding, each press of next from the oldest shows the next snapshot with rows, one position further, until the latest, and stays there |
| HistoryApp.HistoryApp.OldestThenNext | internal/tui/history_app.go:943-991 | the same for the methods: after any number of calls the cursor shows that snapshot and its position is that number |
| HistoryApp.HistoryApp.ReloadIndex | internal/tui/history_app.go:135-205 | the new refs within the range; the cursor goes to the adjusted start, end, former place or clamped index |
| HistoryApp.ReloadKeepsPlace | internal/tui/history_app.go:170-204 | without live tail or select-start the same file and offset stays selected if still indexed and not skipped |
| HistoryApp.ReloadMeans | internal/tui/history_app.go:160-204 | where a reload goes in every case: first or last snapshot with rows, the same file and offset, or the index it had |
| HistoryApp.HistoryApp.ToggleSkipEmpty | internal/tui/history_app.go:884-894 | moves the index to the nearest non-empty snapshot without loading its record |
| HistoryApp.HistoryApp.SwitchDirection | internal/tui/history_app.go:845-862 | the same for the other side of the connections |
| HistoryApp.KeysKeepMatch | internal/tui/history_app.go:845-894 | behind both keys the record still matches the index if and only if nothing is skipped, the snapshot has rows or none has, given that all snapshots differ |
| HistoryApp.ToggleBreaksMatch | internal/tui/history_app.go:884-894 | a run in which the record of an empty snapshot stays on the screen at the index of another |
| Replay.ReplayShows | internal/tui/history_app.go:943-991 | over an index that reads back, pressing next from the oldest snapshot shows exactly the records with rows in order |
| Replay.RunThenReplay | cmd/daemon.go:640-661 | from the daemon to the screen: after a run in time order without torn writes the replay shows exactly the retained records with rows, in append order, each as it was stored and with its number |

## Left out

- Floating point: `float64` is `real`, so rounding of rates and of the moving average is not covered.
- Integer width: Go's `int` and `int64` are unbounded, except ports parsed with `strconv.Atoi` and the netlink fields; overflow of byte sums and of `time.Duration` is not covered.
- JSON, time formatting and `net.ParseIP`: parameters with the laws stated above; strings are sequences of code points.
- Segment names: a segment is its day number; local time is a fixed offset and every day has 24 hours, so daylight saving is not covered.
- Writer.SnapshotWriter.Close: errors of closing and unlocking are not modelled, nor is a second process that ignores the lock.
- Daemon.Run: collecting connections, counters and system load is a parameter; signals and the state files are not modelled.
- SnapshotLog.LoadIndexFromFiles: `LoadIndexFromFile` and its path resolution are not modelled.
- Records.CloneSnapshotGroups: rows are values, so that copies share their `States` map is not captured.
- KillConverge.RunKillPeerFlows: the broad kill has no result, and the effects of a pass are recorded per pass; aliasing by `append` on the queried slice is not captured.
- Firewall.NftFirewall.BlockPeer: how the kernel evaluates expressions, and where it finds the transport header, is a model of nftables; a rule list is kept per chain and listed input first.
- BlockLifetime.NothingRemains: says nothing about rules present before the first step or about goroutines that end with the process.
- Netlink.RecvNetlinkMsgs: sequence numbers and sender are not checked, as in the source; sockets themselves are not modelled.
- Conntrack.CollectConntrackFlows: the text of the dumps is not parsed; what each dump decodes to is a parameter.
- `matchingBlockTuplesFromSnapshot` and the summary texts: the same seen-map loop as `Dedupe.Collect` behind a filter, and string formatting.
- Rendering, key handling, status notes, modals, pagination, configuration, daemon lifecycle and pod lookup.
- Speed sampling, getters and threshold normalisation of the spike detector: single assignments.
- Text search over the timeline (`ScanTimelineMatches`) and `ParsePortFilter`: a filter and a range check.

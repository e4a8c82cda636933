# Redis cache: dictionary, cluster bus, append-only file, keyspace, bit strings and geohash

This project models six parts of the Redis 4.0.9 server that the repository vendors as its
cache, and proves what they promise over all inputs, all runs or all reachable states.

- **Incremental hash table** (`dict.c`). Two chained tables with elements moved bucket by bucket.
  Over every run they refine a finite map. The stateless cursor scan emits every key present
  throughout; the exact condition on calls made during a rehash is proved in both directions, with a
  losing scan for every case outside it. Safe iteration returns each key once; growth finishes before
  the new table overflows.
- **Cluster bus** (`cluster.c`). Failover elections as a protocol over nodes and messages with delay,
  loss and reordering; configuration-epoch collisions with a bound on the moves; slot ownership and
  its convergence.
- **Append-only file** (`aof.c`). Printer and loader with arbitrary truncation and on arbitrary
  bytes; conservation of bytes under every outcome of write and ftruncate; the parent/child handoff
  of a rewrite over every interleaving, alone and together with the log; rewrites that rebuild the
  dataset, and the dataset that a file loads to after any number of them.
- **Keyspace indexes** (`db.c`). Main dictionary, expires and the slot index agree after every run,
  and the first two refine a pair of plain maps.
- **Bit strings** (`bitops.c`). Word-at-a-time counting, searching and combining against their
  bit-by-bit meaning; bitfields with the exact overflow arithmetic.
- **Geohash codes** (`geohash.c`). Interleaving and arithmetic on one interleaved coordinate.

Objects whose fields the server updates in place are classes (`HashDict`, `Iterator`,
`FailoverState`, `Myself`, `ClusterSlots`, `AppendOnlyFile`, `RewriteBuffer`, `Database`,
`GeoHashBits`); their methods carry the source's loops, say what becomes of the fields, and are proved
against functions on values; the properties of whole runs are proved about those functions, and
about their histories against what the events alone say. Protocols between nodes or
processes are state machines over their steps.

Machine words are natural numbers with explicit widths. `Words` and `Bits` define shifts, masks and
bitwise operators by halving and relate them to digits; a sum that wraps is cut with `Lo(x, w)`.

`dfyconfig.toml` lists all files: `dafny verify dfyconfig.toml` checks the project.

Where a promise turned out to be false of the code, the code is modelled as it is:

- A scan may lose an element. The expansion loop counts in plain binary while the cursor runs in
  reversed binary, so a call during a rehash covers everything if and only if the cursor's digits
  between the two masks are ones from below (`Cursor.CoversIffOnes`). `Scan.ScanVisitsAll` has this as
  its hypothesis, `Scan.SimplyGood` and `Scan.GrowingScanVisitsAll` give conditions a caller can see,
  and `ScanLoss.BadCallLoses` builds a losing scan for every other pair of sizes and cursor that a
  scan can meet.
- A late vote acknowledgement may be counted in a later election. `Election.CountExactIffClean` says
  exactly when the counter goes wrong, and by `ElectionRuns.StaleAcksElectTwo` any two replicas of any
  system can then win one epoch.

## Model

| member | source | states |
|---|---|---|
| `DictModel.RunRefines` | redis/src/dict.c:135-399 | for every sequence of adds, replaces, deletes, finds, rehash calls, expansions and resizes, of any length, the two tables hold what a finite map under the same operations holds |
| `DictModel.SizeIsCount` | redis/src/dict.h:147 | `used` of both tables together is the number of keys of the map |
| `DictModel.ReachesWf` | redis/src/dict.c:135-399 | keys in one table at most and in their own bucket, `used` equal to the elements, power-of-two sizes, no element below `rehashidx`: kept by every sequence of operations, room to grow or not |
| `DictModel.ApplyRefines` | redis/src/dict.c:265-399 | one operation has its map meaning and adds at most one element |
| `DictModel.ApplySpec` | redis/src/dict.c:265-399 | every operation keeps the invariant and all bindings of keys it does not name |
| `DictModel.CreateSpec` | redis/src/dict.c:102-131 | a new dictionary is well formed and empty |
| `DictModel.ContentsLookup` | redis/src/dict.c:476-495 | the two-table lookup answers exactly what the map holds |
| `DictModel.AddSpec` | redis/src/dict.c:265-318 | binds an absent key and leaves a present one alone while tables move; only a table that cannot grow refuses an absent key |
| `DictModel.ReplaceSpec` | redis/src/dict.c:325-346 | the key is bound to the new value, and the result tells whether it was new |
| `DictModel.DeleteSpec` | redis/src/dict.c:364-399 | the key leaves the map, the value bound to it is returned, `used` drops by one exactly when it was there |
| `DictModel.FindSpec` | redis/src/dict.c:476-495 | the answer is the map's; the rehash step made on the way changes no binding |
| `DictModel.RehashSpec` | redis/src/dict.c:188-231 | a rehash call keeps every binding and the element count, says whether work is left, and for n > 0 moves `rehashidx` on |
| `DictModel.RehashidxInside` | redis/src/dict.c:195-197 | the assertion that `rehashidx` is inside the old table holds whenever the table has elements |
| `DictModel.RehashLoopSpec` | redis/src/dict.c:188-231 | the loop over buckets with its bound on empty visits preserves the map and never goes back |
| `DictModel.MoveAllSpec` | redis/src/dict.c:202-215 | a chain moved entry by entry is in the new table with every binding, and placed by its hash |
| `DictModel.MoveAllOrder` | redis/src/dict.c:202-215 | the entries of the chain stand before those that were there, in the opposite order |
| `DictModel.NextPowerSpec` | redis/src/dict.c:939-949 | a power of two from 4 up that holds the request and is less than twice as large, capped at half the words |
| `DictModel.ExpandSpec` | redis/src/dict.c:147-178 | expanding or shrinking changes no binding, whether carried out or refused |
| `DictModel.ResizeSpec` | redis/src/dict.c:135-144 | shrinking to the number of elements changes no binding |
| `DictModel.ExpandIfNeededSpec` | redis/src/dict.c:917-936 | it leaves a table to insert into unless the table cannot grow, and changes no binding |
| `DictModel.InsertSpec` | redis/src/dict.c:303-318 | the entry put at the head of its chain, in the new table during a rehash, binds its key and nothing else |
| `DictModel.AddsAtHead` | redis/src/dict.c:303-318 | a new key stands at the head of its chain, in the new table during a rehash |
| `DictImpl.HashDict.constructor` | redis/src/dict.c:102-131 | the fields stand for an empty, valid dictionary |
| `DictImpl.HashDict.MoveChain` | redis/src/dict.c:202-217 | the in-place move of one chain refines the move of a bucket |
| `DictImpl.HashDict.SkipEmpty` | redis/src/dict.c:198-201 | passing empty buckets, or stopping when the visits are used up, is what the specification of the whole call does next |
| `DictImpl.HashDict.RehashBucket` | redis/src/dict.c:192-218 | one round leaves the outcome of the whole call as it was |
| `DictImpl.HashDict.PromoteTables` | redis/src/dict.c:221-227 | the new table takes the old one's place and the invariant holds |
| `DictImpl.HashDict.Rehash` | redis/src/dict.c:188-231 | the loops over both bucket arrays refine the specified rehash, with its result |
| `DictImpl.HashDict.StepIfRehashing` | redis/src/dict.c:260-262 | one step, and none while an iterator is registered |
| `DictImpl.HashDict.Expand` | redis/src/dict.c:147-178 | allocates and installs a table as specified, or refuses |
| `DictImpl.HashDict.ExpandIfNeeded` | redis/src/dict.c:917-936 | refines the specified growth decision |
| `DictImpl.HashDict.Search` | redis/src/dict.c:958-981 | walking the chains of both tables finds the specified binding |
| `DictImpl.HashDict.Add` | redis/src/dict.c:292-318 | refines the specified insertion: the map gains the binding exactly when the result says so, and only for an absent key |
| `DictImpl.HashDict.Find` | redis/src/dict.c:476-495 | refines the specified lookup: the map stays, the answer is its binding, and which array each table is afterwards |
| `DictImpl.HashDict.Remove` | redis/src/dict.c:371-398 | unlinks the entry in place from the table that has it |
| `DictImpl.HashDict.Delete` | redis/src/dict.c:403-405 | the map loses the key and nothing else, and the value it had is returned |
| `DictImpl.HashDict.GenericDelete` | redis/src/dict.c:364-399 | refines the specified deletion, and says which array each table is afterwards |
| `DictImpl.HashDict.Overwrite` | redis/src/dict.c:335-345 | changes the one value in place |
| `DictImpl.HashDict.Replace` | redis/src/dict.c:325-346 | refines the specified replacement: the map binds the key to the value, and the result tells whether it was new |
| `DictImpl.HashDict.Resize` | redis/src/dict.c:135-144 | refines the specified shrinking, or refuses |
| `DictImpl.HashDict.PerformAll` | redis/src/dict.c:135-399 | any sequence of operations on the arrays is a run of the model, so all that is proved of runs holds of the arrays |
| `DictImpl.HashDict.ScanFrom` | redis/src/dict.c:836-912 | the scan over the arrays hands out the specified entries and returns the specified cursor |
| `DictImpl.HashDict.ScanBoth` | redis/src/dict.c:862-899 | during a rehash: the smaller table's bucket, then its expansions in the larger table |
| `DictImpl.EmitExpansions` | redis/src/dict.c:885-899 | the `do` loop with `v & (m0 ^ m1)` emits exactly the specified expansions, in order, and keeps the digits below the smaller mask |
| `DictImpl.NextCursor` | redis/src/dict.c:902-911 | setting the digits above the mask, reversing with the loop of `rev`, adding one and reversing back computes the specified cursor, for every width that is a power of two |
| `DictImpl.SameNext` | redis/src/dict.c:902-911 | only the digits below the smaller mask decide the next cursor |
| `BitReverse.ReverseBits` | redis/src/dict.c:742-750 | for every width that is a power of two, the swapping loop reverses the order of all bits |
| `BitReverse.SwapRound` | redis/src/dict.c:745-748 | one round turns reversed blocks of b digits into reversed blocks of b/2, at every width |
| `BitReverse.MaskRound` | redis/src/dict.c:746 | the mask, shifted and exclusive-ored with itself, selects the lower half of each block of the next round |
| `BitReverse.RevBit` | redis/src/dict.c:742-750 | the reversal puts digit w-1-i at position i |
| `Cursor.RevTwice` | redis/src/dict.c:742-750 | reversing twice gives the word back |
| `Cursor.CursorIncreases` | redis/src/dict.c:902-911 | the reversed cursor strictly grows until it returns to 0 |
| `Cursor.NextReversed` | redis/src/dict.c:902-911 | the cursor moves to the next block of the reversed numbers, and to 0 exactly after the last |
| `Cursor.PassedIffSameBucket` | redis/src/dict.c:902-911 | a call passes exactly the hashes ahead of the cursor in the cursor's bucket |
| `Cursor.NextElsewhere` | redis/src/dict.c:902-911 | later cursors never stand on a bucket already done |
| `Cursor.NextShort` | redis/src/dict.c:902-911 | the cursor returned has no digit above the smaller mask |
| `Cursor.LoopCondition` | redis/src/dict.c:899 | the loop condition tests the digits between the two masks |
| `Cursor.StepUpBetween` | redis/src/dict.c:896 | the loop keeps the smaller bucket and counts the digits between the masks up by one in plain binary |
| `Cursor.ExpansionsExact` | redis/src/dict.c:884-899 | the large buckets visited are those of the smaller bucket whose digits in between are at least the cursor's |
| `Cursor.CoversIffOnes` | redis/src/dict.c:884-911 | a call during a rehash leaves nothing behind if and only if the cursor's digits between the masks are ones from below (none, or all, for instance) |
| `Scan.ScanVisitsAll` | redis/src/dict.c:836-912 | over every scan from 0 back to 0, with any operations between calls, a key present throughout is emitted with its value, if each call during a rehash meets the exact condition |
| `Scan.GrowingScanVisitsAll` | redis/src/dict.c:836-912 | no condition on cursors is needed when tables only grow, by any factor |
| `Scan.SimplyGood` | redis/src/dict.c:862-899 | the condition holds when the cursor fits the smaller table or the sizes differ by at most a factor of two |
| `Scan.ScanEnds` | redis/src/dict.c:836-912 | a scan begun at 0 makes at most as many calls as there are cursors before 0 comes back, however the table changes |
| `Scan.StaticScanOnce` | redis/src/dict.c:836-912 | without a resize each key is exactly one entry of all that the scan hands out, with its value |
| `Scan.CallEmits` | redis/src/dict.c:836-912 | one call emits every key whose hash it moves past |
| `Scan.CallSound` | redis/src/dict.c:836-899 | a call hands out nothing but entries of the dictionary, each with its present value |
| `Scan.BothCallExact` | redis/src/dict.c:862-899 | during a rehash a call hands out a key once or not at all: once iff the cursor is in its smaller bucket and, for a key of the larger table, the digits between the masks are not behind the cursor's |
| `Scan.CallAdvances` | redis/src/dict.c:836-912 | each call returns a word whose reversal is greater, or 0 |
| `ScanLoss.BadCallLoses` | redis/src/dict.c:884-911 | for every pair of sizes and every cursor a scan can meet that fails the condition there is a whole scan, from a dictionary that operations on a new one reach and with nothing but shrinking in it, that loses a key present throughout |
| `ScanLoss.CursorInReach` | redis/src/dict.c:902-911 | no scan meets a cursor with the highest digit set, so those are all cursors there are |
| `ScanLoss.LosingRunIsScan` | redis/src/dict.c:836-912 | the losing run is a scan of the kind the guarantee speaks of, and never emits the key |
| `SafeIter.SafeIterationOnce` | redis/src/dict.c:555-606 | over every mix of additions, overwrites, lookups and deletions of the entry just returned, a key that is in the dictionary at the start and after every event has been returned exactly once when the end is reported |
| `SafeIter.NextFromSpec` | redis/src/dict.c:562-595 | each call returns one pending entry with its current value, or reports the end when nothing is pending |
| `SafeIter.GrowUndisturbed` | redis/src/dict.c:917-936 | a rehash started under the iterator moves nothing away from it |
| `SafeIter.AddUndisturbed` | redis/src/dict.c:292-318 | an insertion leaves what is pending as it was |
| `SafeIter.DeleteUndisturbed` | redis/src/dict.c:364-399 | deleting another key than the saved one leaves what is pending as it was |
| `SafeIter.ReplaceUndisturbed` | redis/src/dict.c:325-346 | overwriting leaves what is pending as it was |
| `SafeIterImpl.Iterator.constructor` | redis/src/dict.c:542-560 | a new iterator stands before the first bucket |
| `SafeIterImpl.Iterator.FindNext` | redis/src/dict.c:562-595 | the loop over buckets and tables finds the specified entry |
| `SafeIterImpl.Iterator.GetNext` | redis/src/dict.c:562-595 | refines the specified step; the entry is one of the dictionary with its present value, and the iterator is registered at its first call |
| `SafeIterImpl.Iterator.Release` | redis/src/dict.c:597-606 | unregisters an iterator that was registered |
| `RehashPace.GrowthKeepsAhead` | redis/src/dict.c:260-313 | a growth begun by an add or a replace ends within as many steps as the old table has buckets, with no more elements than new buckets, for every mix of adds, replaces, finds and deletes |
| `RehashPace.GrowthPace` | redis/src/dict.c:188-231 | the same from any point of a growth in progress |
| `RehashPace.ExpandGrows` | redis/src/dict.c:917-936 | growth begins only in a full table and asks for at least twice its elements |
| `RehashPace.ExpandIff` | redis/src/dict.c:147-178 | a size that some table can hold is granted iff no rehash is running, it holds the elements and the least power of two from 4 up for it is not the present size; the new table has that size, and the rehash begins at bucket 0 |
| `RehashPace.ResizeIff` | redis/src/dict.c:135-144 | a resize is carried out iff it is allowed, no rehash is running and the least table for the elements is another one |
| `RehashPace.GrowsIff` | redis/src/dict.c:917-936 | a growth begins iff the table holds as many elements as buckets, resizing is allowed or there are six times as many, and there is a larger table to be had; it has the least size for twice the elements |
| `RehashPace.InsertionGrowsIff` | redis/src/dict.c:958-965 | an add or replace as a whole begins a growth under just these conditions, whether the key is new or not |
| `RehashPace.FirstTableIs` | redis/src/dict.c:922 | the first insertion makes a table of four buckets |
| `RehashPace.RehashStops` | redis/src/dict.c:188-201 | a call for n buckets that leaves work has moved n of them or passed 10n empty ones, and no more of either |
| `RehashPace.StepStops` | redis/src/dict.c:260-262 | a step on the way of another operation moves one bucket or passes ten empty ones, and does nothing while an iterator is registered |
| `Election.ElectionSafety` | redis/src/cluster.c:2630-2731 | no two replicas win the same epoch in any run with any delay, loss and reordering, if no acknowledgement of an old election is counted between the reset of the count and the next epoch |
| `ElectionRuns.StaleAcksElectTwo` | redis/src/cluster.c:2942-2947 | without that hypothesis, whatever masters there are and whatever epochs are stored, any two replicas can win the same epoch |
| `ElectionRuns.MajorityElects` | redis/src/cluster.c:2870-3034 | elections can be won: whatever happened before, the masters of any majority that have not voted in the next epoch can elect any replica that may start |
| `Election.WinsIffMajority` | redis/src/cluster.c:3018-3034 | a replica wins iff it has asked, is not a master already and counted more than half of the masters; it then has the election's epoch or a greater one |
| `Election.VotesIff` | redis/src/cluster.c:2630-2731 | a master votes iff the other checks pass, the request is not behind its epoch and it has not voted in the request's epoch |
| `Election.CountsIff` | redis/src/cluster.c:2033-2045 | an acknowledgement counts iff a voting master sent it and its epoch is not behind the election's |
| `Election.StartsIff` | redis/src/cluster.c:3004-3016 | a replica that has not asked asks under the epoch after its current one; what it counted before stays counted |
| `Election.CountExactIffClean` | redis/src/cluster.c:2033-2045 | the vote counter stays the number of masters that voted if and only if the acknowledgement delivered is not such a late one |
| `Election.ApplyInv` | redis/src/cluster.c:2630-2731 | every event keeps: one vote per epoch and master, votes only on requests, acknowledgements single and backed by votes, counts equal to voters plus late ones |
| `Election.OneBackedPerEpoch` | redis/src/cluster.c:3005-3034 | majorities of one epoch share a master, so they back one candidate |
| `Election.CleanTraceInv` | redis/src/cluster.c:2870-3034 | in every reachable state all wins are backed by a majority that voted for the winner in its epoch |
| `Election.AckNotAhead` | redis/src/cluster.c:2033-2045 | an acknowledgement never carries a later epoch than its candidate's last election |
| `ElectionImpl.FailoverState.constructor` | redis/src/cluster.c:429-452 | stored epochs and no election under way |
| `ElectionImpl.FailoverState.ProcessHeader` | redis/src/cluster.c:1690-1695 | the node makes the header step of the protocol: its current epoch is the greater of the two |
| `ElectionImpl.FailoverState.SendFailoverAuthIfNeeded` | redis/src/cluster.c:2630-2731 | the node makes the vote step: exactly when it votes, under which epoch, and the acknowledgement it sends |
| `ElectionImpl.FailoverState.ProcessAuthAck` | redis/src/cluster.c:2033-2045 | the node makes the counting step: exactly when the count goes up |
| `ElectionImpl.FailoverState.HandleSlaveFailover` | redis/src/cluster.c:2870-3034 | exactly when a new try is scheduled, votes are asked for, or the election is won with more than half of the masters; the epochs after each; and that each is the protocol's step |
| `ElectionImpl.FailoverState.SetMaster` | redis/src/cluster.c:3844-3860 | a winner turned replica again makes the demotion step: it may stand again, and its past wins still count |
| `ConfigEpoch.MovesBounded` | redis/src/cluster.c:1077-1092 | in a run, a master's epoch changes at most as often as masters with greater names held or had announced epochs at the start, under any order, delay and repetition of packets |
| `ConfigEpoch.MovesAtMostNames` | redis/src/cluster.c:1077-1092 | a master with k greater names changes its epoch at most k times, when packets under way at the start carry present epochs |
| `ConfigEpoch.AtRestIffDistinct` | redis/src/cluster.c:1979-1984 | in every reachable state no fresh packet changes an epoch if and only if all epochs differ |
| `ConfigEpoch.MovesIffCollides` | redis/src/cluster.c:1077-1092 | a fresh packet changes the receiver's epoch exactly when the sender has the greater name and the same epoch |
| `ConfigEpoch.MovesRecorded` | redis/src/cluster.c:1077-1092 | the history of a master holds one epoch for every change of its own |
| `ConfigEpoch.MovesAbove` | redis/src/cluster.c:1077-1092 | the new epoch is greater than every epoch that the master and the packet know, and becomes the current one |
| `ConfigEpoch.MovesWithin` | redis/src/cluster.c:1077-1092 | a master leaves each epoch at most once, and only one that a greater name has held |
| `ConfigEpoch.ApplyInv` | redis/src/cluster.c:1690-1701 | beliefs and packets never go beyond what a master held; epochs left were held by greater names |
| `ConfigEpoch.Myself.constructor` | redis/src/cluster.c:429-452 | the fields of one master |
| `ConfigEpoch.Myself.HandleConfigEpochCollision` | redis/src/cluster.c:1077-1092 | exactly when the epochs change: one past the current epoch, for both |
| `ConfigEpoch.Myself.ProcessPacket` | redis/src/cluster.c:1690-1701 | the epochs and the view after a packet, in terms of those before it: the header's maxima, then a collision iff the epochs agree and the sender has the greater name |
| `SlotTable.SlotsAgree` | redis/src/cluster.c:3581-3653 | after every sequence of operations a slot's owner is n iff the slot's bit is set for n, and `numslots` is the number of bits |
| `SlotTable.ApplyAgree` | redis/src/cluster.c:3581-3653 | each of add, delete, node removal, role change, packet, update, takeover and SETSLOT NODE keeps table and bitmaps in agreement |
| `SlotTable.AgreeCount` | redis/src/cluster.c:3581-3611 | `numslots` is the size of the bitmap |
| `SlotTable.OwnerAfter` | redis/src/cluster.c:1553-1590 | the owner of every slot after each of the nine operations, in terms of the owners and epochs before it |
| `SlotTable.PeersAfter` | redis/src/cluster.c:890-933 | the nodes known after each operation, and the configuration epoch known of each |
| `SlotTable.ClaimedSlot` | redis/src/cluster.c:1559-1590 | a claim changes a slot iff it names it, the slot is not being imported, and it is free or its owner has a smaller epoch |
| `SlotTable.UpdateAgree` | redis/src/cluster.c:1553-1590 | rebinding claimed slots keeps the agreement |
| `SlotTable.TakeoverAgree` | redis/src/cluster.c:2842-2848 | a failover keeps the agreement |
| `SlotTable.DelNodeAgree` | redis/src/cluster.c:905-933 | removing a node keeps the agreement |
| `SlotTableImpl.ClusterSlots.constructor` | redis/src/cluster.c:429-452 | a node that knows no owner of any slot |
| `SlotTableImpl.ClusterSlots.AddSlot` | redis/src/cluster.c:3622-3627 | a free slot gets the owner, its bit and one more in the count; a bound one is refused; every other slot is as it was |
| `SlotTableImpl.ClusterSlots.DelSlot` | redis/src/cluster.c:3632-3640 | the slot is free in table and bitmap and all others are as they were; the assertion on the owner's bit never fails |
| `SlotTableImpl.ClusterSlots.DelNodeSlots` | redis/src/cluster.c:3643-3653 | a slot is free afterwards iff it was free or the node's; all others keep their owner; the number freed is returned |
| `SlotTableImpl.ClusterSlots.DelNode` | redis/src/cluster.c:905-933 | no slot is owned by, or imported from, the removed node; all others keep their owner, and the node is forgotten |
| `SlotTableImpl.ClusterSlots.FailoverReplaceYourMaster` | redis/src/cluster.c:2842-2848 | the slots of the old master, and only those, come to this node, with their number; the old master has none |
| `SlotTableImpl.ClusterSlots.SetSlotNode` | redis/src/cluster.c:4297-4298 | the one slot changes its owner in table and bitmaps, and no other |
| `SlotTableImpl.ClusterSlots.UpdateSlotsConfigWith` | redis/src/cluster.c:1530-1618 | exactly the claimed slots with an older owner, or none, and not being imported are rebound; which of them this node lost with keys in them; whether its master lost the last slot; nothing for a message about itself |
| `SlotTableImpl.ClusterSlots.ProcessPacket` | redis/src/cluster.c:1690-1701 | header and slots of a packet, with the slots lost and the demotion that follow |
| `SlotTableImpl.ClusterSlots.MayVoteFor` | redis/src/cluster.c:2702-2722 | true iff no claimed slot has an owner with a greater configuration epoch than the request's |
| `SlotClaims.Converges` | redis/src/cluster.c:1530-1590 | after packets in any order and number, each slot is bound to the claimant with the greatest epoch among the masters heard, or to nobody if it has none |
| `SlotClaims.ReceiversAgree` | redis/src/cluster.c:1530-1590 | two receivers that heard the same masters have the same table |
| `SlotClaims.StaysSettled` | redis/src/cluster.c:1553-1590 | a further packet keeps a settled table settled |
| `AofFormat.LoadCut` | redis/src/aof.c:725-841 | any byte cut of a printed file loads exactly the whole commands before the cut, `valid_up_to` is their length, and the outcome is a clean or a truncated end, never a format error |
| `AofFormat.LoadPrinted` | redis/src/aof.c:725-798 | the loader recovers the printed command list |
| `AofFormat.ReadWhole` | redis/src/aof.c:739-775 | a printed command is read back whatever follows it |
| `AofFormat.ReadCut` | redis/src/aof.c:739-775 | a command cut anywhere is an unexpected end of file |
| `AofFormat.WholeWithinGreatest` | redis/src/aof.c:797 | the commands counted as whole are the longest list that fits |
| `AofFormat.StrTolReads` | redis/src/aof.c:761 | a printed length is read back whatever other than a digit follows |
| `AofFormat.CatAppendOnlyGenericCommand` | redis/src/aof.c:493-516 | appends the printed command to what the buffer holds |
| `AofFormat.Fgets` | redis/src/aof.c:739-744 | the line that a buffer of 128 bytes holds |
| `AofFormat.LoadArg` | redis/src/aof.c:755-774 | refines the reading of one argument, with all its failures |
| `AofFormat.LoadArgs` | redis/src/aof.c:754-775 | refines the reading of the arguments |
| `AofFormat.LoadOneCommand` | redis/src/aof.c:745-775 | refines the reading of one command |
| `AofFormat.LoadCommand` | redis/src/aof.c:739-775 | one round of the load loop, and that the rest of the file is a tail of it |
| `AofFormat.LoadAppendOnlyFile` | redis/src/aof.c:725-798 | the load loop over the bytes of a file, reading lengths with `strtol`: commands run, the offset kept as valid, and why it stopped |
| `AofFormat.LoadCommands` | redis/src/aof.c:725-798 | the same for any reading of numbers |
| `AofRepair.RepairedLoads` | redis/src/aof.c:797-830 | any file at all, cut back to the offset kept as valid, loads to its end and runs the same commands; a load gets to the end iff that offset is the length of the file |
| `AofRepair.StopsAt` | redis/src/aof.c:739-798 | behind printed commands, what is not a command ends the load there, with all of them run |
| `AofRepair.RejectsMark` | redis/src/aof.c:745 | a command without its mark is a format error |
| `AofRepair.RejectsCount` | redis/src/aof.c:747-748 | so is a command that announces no arguments or fewer |
| `AofRepair.RejectsArgument` | redis/src/aof.c:760 | and an argument without its mark, however many good ones came before it; none of the command runs |
| `AofRepair.RejectsLength` | redis/src/aof.c:761-762 | a negative length ends the load for good |
| `AofRepair.PrintedArg` | redis/src/aof.c:505-513 | the bytes of an argument, written out |
| `AofRepair.PrintedPair` | redis/src/aof.c:498-513 | the bytes of a command, written out |
| `AofLog.LogConservation` | redis/src/aof.c:331-491 | over every sequence of feeds, flushes with any outcome, forks, finished and aborted rewrites that does not exit: file followed by buffer is everything printed, and `aof_current_size` is the file's length |
| `AofLog.ReplayInOwnDb` | redis/src/aof.c:555-568 | loading whatever reached the file runs the clients' commands from the first on, each in its own database; all of them once the buffer is empty |
| `AofLog.LoadsServed` | redis/src/aof.c:331-619 | through any number of rewrites, finished or failed, file and buffer load to the dataset the clients see, whatever commands do to a dataset, if every child rebuilds the dataset it was forked with |
| `AofLog.FlushedReplays` | redis/src/aof.c:331-469 | after a flush that writes everything the file alone loads to all the commands, whatever happened before |
| `AofLog.ApplyInv` | redis/src/aof.c:331-619 | each event keeps bytes and databases in order, in the file and in the rewrite's diff |
| `AofLog.FlushConserves` | redis/src/aof.c:405-469 | a full, short or failed write, undone or not, loses no byte |
| `AofLog.FeedReplays` | redis/src/aof.c:561-568 | forced re-selection makes appended commands replay in their database, whatever was selected before |
| `AofLogImpl.AppendOnlyFile.constructor` | redis/src/server.c:1897 | an empty file, an empty buffer and no database selected |
| `AofLogImpl.AppendOnlyFile.Write` | redis/src/aof.c:291-310 | how many bytes go out, in terms of what the calls of `write` return, over short and interrupted ones, and that they are the front of the data |
| `AofLogImpl.AppendOnlyFile.Flush` | redis/src/aof.c:331-469 | exactly when it exits; file, buffer and size after a full write, after a short one with and without the undo, and after a failure, each written out; the new error status |
| `AofLogImpl.AppendOnlyFile.Feed` | redis/src/aof.c:555-619 | the bytes appended, with SELECT exactly when another database was selected, and the bytes a rewrite child is sent |
| `AofRewrite.HandoffExact` | redis/src/aof.c:1247-1266 | over every interleaving: the installed file is the snapshot followed by exactly the bytes fed since the fork if and only if the child's last read emptied the pipe |
| `AofRewrite.Handoff` | redis/src/aof.c:1297-1318 | with reads that end at an empty pipe nothing is lost or repeated under any order of feeds, partial writes, reads and stop bytes |
| `AofRewrite.CanFinish` | redis/src/aof.c:1247-1318 | while the child is copying, the stop bytes and one last read can always finish the rewrite, with everything fed so far in the file |
| `AofRewrite.StepMoves` | redis/src/aof.c:95-120 | how many bytes each step moves, between which of parent, pipe and child |
| `AofServer.RunRefines` | redis/src/aof.c:1481-1590 | log, pipes and child together: every run, with the handoff in single steps in any order, is a run of the log in which a rewrite is one step |
| `AofServer.ServerConserves` | redis/src/aof.c:1481-1590 | so over every interleaving of feeds, writes, forks, pipe steps and finished or failed rewrites file and buffer hold everything printed |
| `AofServer.ServerReplays` | redis/src/aof.c:1481-1590 | and what reached the file loads to the clients' commands, each in its own database |
| `AofServer.ServerLoadsServed` | redis/src/aof.c:1481-1590 | and file and buffer load to the dataset the clients see, if every child rebuilds the dataset it was forked with |
| `AofServer.InstallExact` | redis/src/aof.c:1503-1589 | in any run at all, the file installed holds the snapshot and everything fed since the fork if and only if the child's last read emptied the pipe |
| `AofRewrite.ApplyInv` | redis/src/aof.c:95-120 | every byte fed is in exactly one of child, pipe and buffer, in order; nothing enters the pipe once the child may believe the parent stopped |
| `AofRewrite.ExitedStays` | redis/src/aof.c:1247-1266 | after the child's exit nothing moves through the pipe |
| `AofRewrite.ReadDiffFromParent` | redis/src/aof.c:1096-1106 | the bytes taken are the front of the pipe, no more per read than it gave and the buffer holds; it stops only at an empty pipe or a read that gives nothing |
| `AofRewrite.RewriteBuffer.constructor` | redis/src/aof.c:70-76 | no blocks |
| `AofRewrite.RewriteBuffer.Append` | redis/src/aof.c:125-167 | the blocks hold what they held followed by the new bytes, each within its size, with no more blocks than needed |
| `AofRewrite.RewriteBuffer.FillLast` | redis/src/aof.c:129-142 | the last block takes as much as fits, and no more |
| `AofRewrite.RewriteBuffer.AppendSome` | redis/src/aof.c:129-160 | a block is added iff the last one could not take everything |
| `AofRewrite.RewriteBuffer.ChildWriteDiffData` | redis/src/aof.c:95-120 | what is sent is the front of what was held, no more than the calls took; nothing after the stop; it ends with bytes left only where a call takes nothing |
| `AofRewrite.RewriteBuffer.SendFirst` | redis/src/aof.c:111-119 | one write sends as much of the first block as it takes, and the rest stays in order |
| `AofRewrite.RewriteBuffer.Write` | redis/src/aof.c:174-194 | a front of all blocks in order; it succeeds, with all of them, iff no block is written short |
| `AofReplay.RewritePreserves` | redis/src/aof.c:1108-1178 | replaying the emitted commands from an empty server gives every entry whose time is not over, with value and expire time, and nothing else, for every chunk size; key by key and as a whole |
| `AofReplay.RewriteLoads` | redis/src/aof.c:1108-1178 | the bytes of a rewrite load without error to those commands, and they rebuild the dataset |
| `AofReplay.ObjectRebuilt` | redis/src/aof.c:875-952 | the commands of one object rebuild it: strings, lists in order, sets and hashes |
| `AofReplay.ChunksTogether` | redis/src/aof.c:875-905 | the chunks do together what one command with all items would |
| `AofReplay.EntryRebuilt` | redis/src/aof.c:1132-1168 | an entry whose time is over leaves no trace, another one its value and time |
| `AofReplay.WithEntriesIs` | redis/src/aof.c:1127-1174 | which keys a database gets, with which values |
| `AofDataset.TextsOfPieces` | redis/src/aof.c:1108-1178 | what the rewriters write piece by piece is the printed commands |
| `AofDataset.PendingOpen` | redis/src/aof.c:884-890 | the count in each header is the number of arguments that follow it |
| `AofDataset.ChunkSizes` | redis/src/aof.c:884-890 | every command of a large object has the chunk size of items but the last, which has at least one and no more |
| `AofDataset.RewriteItems` | redis/src/aof.c:875-905 | the loop with its running count writes the chunked commands |
| `AofDataset.RewriteObject` | redis/src/aof.c:1142-1161 | the commands of an object |
| `AofDataset.RewriteEntry` | redis/src/aof.c:1132-1168 | nothing for a key whose time is over; otherwise the object, and PEXPIREAT with the time iff there is one |
| `AofDataset.RewriteDb` | redis/src/aof.c:1127-1174 | all entries of a database |
| `AofDataset.RewriteAppendOnlyFileRio` | redis/src/aof.c:1108-1178 | every database that holds keys, each after its SELECT |
| `Keyspace.IndexesAgree` | redis/src/db.c:1390-1465 | after every run: expires are of existing keys, the count of a slot is the number of its keys, and the index holds a prefixed key iff the key exists and hashes to that slot |
| `Keyspace.ApplyAgrees` | redis/src/db.c:167-258 | each operation keeps dictionary, expires, counts and index in agreement |
| `Keyspace.RunPlain` | redis/src/db.c:167-258 | over every run the database holds what two plain maps, of values and of expire times, hold under the same operations |
| `Keyspace.ApplyPlain` | redis/src/db.c:167-258 | what each operation does to the two maps |
| `Keyspace.SetPlain` | redis/src/db.c:206-215 | setting a key gives it the value and takes its expire time, whether it was there or not |
| `Keyspace.ExpirePlain` | redis/src/db.c:1116-1152 | a key is dropped iff its time is before now, on a master |
| `Keyspace.RenamePlain` | redis/src/db.c:839-875 | what a rename does to the two maps, with the key looked up first, a missing source and an equal target |
| `Keyspace.RenameMoves` | redis/src/db.c:839-875 | a rename moves value and expire time, whatever was at the target, also of a key whose time is over on a replica; an expire time of -1 is not carried over |
| `Keyspace.RenameAgrees` | redis/src/db.c:839-875 | a rename keeps the agreement in all its branches |
| `Keyspace.PrefixInjective` | redis/src/db.c:1390-1407 | the two prefix bytes tell the slot |
| `KeyspaceImpl.Database.constructor` | redis/src/server.c:1875-1876 | an empty database |
| `KeyspaceImpl.Database.SlotToKeyUpdateKey` | redis/src/db.c:1390-1407 | count and index change for the key's slot alone |
| `KeyspaceImpl.Database.Add` | redis/src/db.c:167-174 | values and expire times after the addition: one binding more; the agreement is kept |
| `KeyspaceImpl.Database.Overwrite` | redis/src/db.c:181-197 | the value changes and the expire time stays; the agreement is kept |
| `KeyspaceImpl.Database.Set` | redis/src/db.c:206-215 | whatever was there, the key has the value and no expire time; all other keys are as they were |
| `KeyspaceImpl.Database.Delete` | redis/src/db.c:248-258 | the key has no value and no expire time, all others are as they were, and whether it existed |
| `KeyspaceImpl.Database.Expire` | redis/src/db.c:1116-1152 | the key is deleted iff its time is before now and this is a master; it tells whether the time is over |
| `KeyspaceImpl.Database.RenameKey` | redis/src/db.c:839-875 | values and expire times are those of the plain rename; the agreement is kept |
| `KeyspaceImpl.Database.SetExpireTime` | redis/src/db.c:1044-1056 | the one expire time changes, and nothing else |
| `KeyspaceImpl.Database.Persist` | redis/src/db.c:1033-1038 | removes the expire, and tells whether there was one |
| `KeyspaceImpl.Database.Empty` | redis/src/db.c:319-347 | empties dictionary, expires and index, and returns the number of keys |
| `KeyspaceImpl.Database.DelKeysInSlot` | redis/src/db.c:1446-1465 | ends, deletes exactly the keys of the slot with their expires, and counts them |
| `KeyspaceImpl.Database.GetKeysInSlot` | redis/src/db.c:1427-1442 | the first keys of the slot in index order, each once, as many as asked for or there are |
| `KeyspaceImpl.Seek` | redis/src/db.c:1427-1442 | the least element of the index not below a prefix, or that there is none |
| `KeyspaceImpl.FirstOfSlot` | redis/src/db.c:1446-1465 | what a seek to the slot's prefix finds is a key of that slot while the count is not zero |
| `KeySlot.KeyHashSlot` | redis/src/cluster.c:662-681 | the slot of the part between the first brace and the next closing one, or of the whole key |
| `KeySlot.TagDecides` | redis/src/cluster.c:662-681 | keys with the same tag share the slot of the tag |
| `KeySlot.EmptyTag` | redis/src/cluster.c:662-681 | an empty tag does not count |
| `KeySlot.NoBrace` | redis/src/cluster.c:665-669 | a key without an opening brace is hashed whole |
| `KeySlot.Unclosed` | redis/src/cluster.c:672-676 | so is one without a closing brace behind the first opening one |
| `Popcount.RedisPopcount` | redis/src/bitops.c:40-92 | for every length and alignment, the sum of the ones of all bytes |
| `Popcount.CountBlock` | redis/src/bitops.c:54-87 | 28 bytes through seven folded words and one multiplication add exactly their ones |
| `Popcount.SevenWords` | redis/src/bitops.c:80-86 | the highest byte of the product cut to 32 bits is the sum of all counts, at most 224 |
| `Popcount.FoldedWord` | redis/src/bitops.c:66-86 | three folds give the ones of each byte |
| `Popcount.FoldFirst` | redis/src/bitops.c:66-79 | the subtraction leaves the ones of every two bits |
| `Popcount.FoldAdd` | redis/src/bitops.c:66-79 | masking and adding merges neighbouring counts |
| `Popcount.FoldMask` | redis/src/bitops.c:80-86 | adding before masking does the same where sums fit |
| `Popcount.OnesAreBits` | redis/src/bitops.c:40-92 | the sum over bytes is the number of bits set |
| `Bitpos.RedisBitpos` | redis/src/bitops.c:101-186 | the first position with the bit in the zero-padded string; -1 exactly when a 1 is looked for and there is none |
| `Bitpos.SkipWords` | redis/src/bitops.c:132-142 | whole words without a match are passed, and the one that stops the loop has one |
| `Bitpos.LoadPadded` | redis/src/bitops.c:151-159 | the bytes left as a big-endian word, zero padded |
| `Bitpos.ScanWord` | redis/src/bitops.c:172-180 | the first match in a word that has one |
| `Bitop.Compute` | redis/src/bitops.c:622-745 | whatever part was done word by word, every byte of the result combines the zero-padded strings, over the longest length |
| `Bitop.CombinedBit` | redis/src/bitops.c:732-744 | bit by bit: all, some or an odd number of the strings have the bit set, or the one string has not |
| `Bitop.WordOp` | redis/src/bitops.c:678-727 | an operation on words works on their bytes |
| `Bitop.FastPath` | redis/src/bitops.c:667-728 | blocks of four words as long as all strings have them, and no other byte changed |
| `Bitop.CombineByte` | redis/src/bitops.c:732-744 | the bytewise loop computes the specified byte |
| `Bitop.Lengths` | redis/src/bitops.c:622-654 | least and greatest length |
| `Bitfield.SetUnsignedBitfield` | redis/src/bitops.c:209-222 | the field's bits are the value's digits, and no other bit changes |
| `Bitfield.GetUnsignedBitfield` | redis/src/bitops.c:229-241 | the number that the field's bits stand for |
| `Bitfield.GetAfterSet` | redis/src/bitops.c:209-241 | get after set gives the value modulo 2^bits, and all other bits are as before |
| `BitfieldOps.SignExtendIs` | redis/src/bitops.c:243-263 | sign extension gives the two's complement number of the field |
| `BitfieldOps.SignedRoundTrip` | redis/src/bitops.c:224-263 | numbers in range survive storing and signed reading |
| `BitfieldOps.CheckUnsignedExact` | redis/src/bitops.c:288-323 | overflow is reported iff the sum does not fit; the limit is the remainder of the sum by 2^bits or the nearest number that fits |
| `BitfieldOps.CheckSignedExact` | redis/src/bitops.c:325-375 | the same for signed fields, the remainder taken around zero |
| `BitfieldOps.WrapStores` | redis/src/bitops.c:288-375 | under WRAP every number is stored as its remainder by 2^bits, read as a signed number in a signed field |
| `BitfieldOps.SatStores` | redis/src/bitops.c:288-375 | under SAT a number that does not fit is stored as the end of the range on its side |
| `BitfieldOps.FailStores` | redis/src/bitops.c:1047-1080 | under FAIL a number is stored iff it fits |
| `BitfieldOps.SignedWrapIs` | redis/src/bitops.c:350-368 | the word arithmetic wraps the exact sum modulo 2^bits as a signed number |
| `BitfieldOps.UnsignedOp` | redis/src/bitops.c:1052-1081 | SET and INCRBY store the exact sum under WRAP modulo 2^bits, under SAT clamped, under FAIL not at all; the reply; no other bit changes |
| `BitfieldOps.SignedOp` | redis/src/bitops.c:1022-1051 | the same for signed fields |
| `BitfieldOps.ReadBack` | redis/src/bitops.c:1022-1115 | a later GET of the field gives the number that was stored |
| `BitfieldOps.GetField` | redis/src/bitops.c:1084-1115 | GET through the nine-byte copy is the field of the zero-padded string |
| `GeohashCode.InterleaveRoundTrip` | redis/src/geohash.c:52-110 | both coordinates come back from their interleaved code |
| `GeohashCode.InterleaveIs` | redis/src/geohash.c:52-77 | the code has the digits of one coordinate at the even and of the other at the odd positions |
| `Geohash.SpreadStage` | redis/src/geohash.c:60-75 | one masked shift splits blocks into halves, for every block size |
| `Geohash.SquashStage` | redis/src/geohash.c:93-107 | one masked shift back joins them |
| `Geohash.Spread64Is` | redis/src/geohash.c:60-75 | five stages bring every digit to its even position |
| `Geohash.Squash64Is` | redis/src/geohash.c:90-107 | six stages bring the even digits together |
| `GeohashMove.IncOdd` | redis/src/geohash.c:233-241 | the sum on the odd digits carries through the filled even ones: one more modulo 2^step |
| `GeohashMove.DecOdd` | redis/src/geohash.c:235-241 | the difference borrows through them: one less modulo 2^step |
| `GeohashMove.IncEven` | redis/src/geohash.c:252-259 | the same on the even digits |
| `GeohashMove.DecEven` | redis/src/geohash.c:252-259 | the same on the even digits, one less |
| `GeohashCells.MoveOdd` | redis/src/geohash.c:224-242 | the word operations move one coordinate by one modulo 2^step and leave the other fixed |
| `GeohashCells.MoveEven` | redis/src/geohash.c:244-260 | the same for the other coordinate |
| `GeohashCells.OppositeMovesCancel` | redis/src/geohash.c:224-260 | opposite moves lead back to the very same code |
| `GeohashCells.CodeOfCoordinates` | redis/src/geohash.c:52-77 | every code of 2n digits is that of its two coordinates |
| `GeohashCells.CoordinatesOfCode` | redis/src/geohash.c:82-110 | the coordinates of a code are those it was made of |
| `GeohashCells.GeoHashBits.constructor` | redis/src/geohash.c:133-149 | a cell at the place its code says |
| `GeohashCells.GeoHashBits.MoveX` | redis/src/geohash.c:224-242 | the cell is one place on in x, modulo 2^step, and in the same y |
| `GeohashCells.GeoHashBits.MoveY` | redis/src/geohash.c:244-260 | the cell is one place on in y, modulo 2^step, and in the same x |
| `GeohashCells.GeoHashNeighbors.constructor` | redis/src/geohash.c:262-295 | the eight cells are the eight true neighbours on the grid |

## Left out

- DictModel.RunRefines: an insertion is made only while the map has at most a quarter of the words as keys; beyond that an expansion can be refused by the cap on table sizes, and `DictModel.AddSpec` says what happens then.
- DictModel.ReplaceSpec: when a table that cannot grow refuses the insertion, the source goes on with a null pointer (dict.c:342); the model then overwrites the key if it is there and changes nothing otherwise.
- DictImpl.HashDict.ScanFrom: the word width is a power of two, as the source demands of `rev`.
- RehashPace.ExpandIff: for sizes up to half the words, beyond which sizes are capped.
- RehashPace.ResizeIff: for as many elements at most.
- RehashPace.GrowthKeepsAhead: with no safe iterator running, and insertions below the same bound.
- Election.ElectionSafety: one fixed set of voting masters known to all, `lastVoteEpoch` durable, no restart or CLUSTER RESET, and a replica that wins does not join the voters; each is a hypothesis of the protocol's description.
- ElectionImpl.FailoverState.HandleSlaveFailover: clocks, random delays, ranks and data age are the truth values of its time checks.
- ConfigEpoch.MovesBounded: only collision handling moves epochs.
- SlotTableImpl.ClusterSlots.UpdateSlotsConfigWith: a replica that knows no master is outside; its `curmaster` is a null pointer (cluster.c:1546), which equals the owner of an unassigned slot.
- SlotClaims.Converges: the receiver owns and imports no slot and starts with an empty table.
- AofRewrite.Handoff: reads end only at an empty pipe; a failing read is `AofRewrite.HandoffExact`.
- AofServer.RunRefines: the log stays switched on while a rewrite runs, and last reads end at an empty pipe; other reads are `AofServer.InstallExact`.
- AofLog.ReplayInOwnDb: commands come as they are printed; the translation of EXPIRE, SETEX and SET EX into PEXPIREAT by the feed is not modelled.
- AofLog.LoadsServed: that a child rebuilds the dataset it was forked with is a hypothesis; `AofReplay.RewriteLoads` proves it for the objects modelled.
- AofServer.ServerLoadsServed: the same hypothesis, and last reads end at an empty pipe.
- AofReplay.RewriteLoads: string lengths and times below 2^63, times not negative, and chunks below 2^29 items, as the C types and the clock hold them.
- BitfieldOps.SignedOp: the check of a signed field computes `max - value` and `min - value` (bitops.c:332-333), and INCRBY its sum, exactly; in C they can leave the 64-bit range.
- BitfieldOps.CheckUnsignedExact: fields of 64 bits (a shift by the word width in C) are outside.
- Chains are sequences of entries: the linking of chain nodes, and aliasing between them, are not modelled.
- Unsafe iterators and their fingerprint, random keys, sampling, bulk deletion of a table, incremental rehashing by time.
- Hash functions and crc16 are arbitrary functions; the radix tree of the slot index is an ordered set.
- Gossip, handshake, failure detection, manual failover, migrating slots, UPDATE messages sent to outdated nodes, and sockets.
- Slot bitmaps are sets of slot numbers; the byte layout of a bitmap is not modelled.
- RDB preamble, MULTI and EXEC in the log, lookup and execution of the commands loaded, the special case of an empty file.
- Fsync timing, the state that waits for a first rewrite, temporary file names and renaming.
- Sorted sets, modules and the encodings of objects in a rewrite.
- Asynchronous deletion, LRU and LFU stamps, keyspace events, replication and client replies.
- An emptied server of several databases is modelled database by database.
- The bit-count table of `redisPopcount` is taken as the number of ones of each byte.
- Argument parsing of BITFIELD, BITOP, BITCOUNT and BITPOS with their ranges.
- Floating point in geohash encoding and decoding.

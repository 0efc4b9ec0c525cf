# Verified models of the MOAC vnode

A Dafny model of the parts of the MOAC vnode whose correctness rests on invariants over many steps, and proofs of
these. `dafny verify dfyconfig.toml` checks the whole project.

**Binary Merkle tree hasher** (`Bmt*.dfy`; `bmt/`). `RefHasher` is the recursive definition of the hash. The pooled
`Hasher` starts one goroutine for each double segment; the goroutines write into shared tree nodes, and of the two
that reach a node the second goes on, told by the parity of an atomic 32-bit counter. Each action on shared memory is
one atomic step here. Under every schedule exactly one result is sent, and it is the reference hash of the data, for
any segment size and count and any length. The base hash is any function. `BmtUses` has many uses of one tree,
`BmtOverflow` the runs of one whose counters have wrapped.

**Chains** (`ChainTree`, `HeaderChain`, `BlockChain`; `core/headerchain.go`, `core/blockchain.go`,
`core/database_util.go`). Headers form a tree below genesis. The head has the highest total difficulty, with a coin
for ties, which is a parameter; the index from numbers to hashes is the path to the head; a reorganisation moves index
and transaction lookup table to the other branch. This is the rule of section 10, "Blocktree to Blockchain", of the
Ethereum Yellow Paper.

**Chain indexer** (`ChainIndexer`, `StaleSections`; `core/chain_indexer.go`). The update loop reads a section without
the lock, while new heads and reorganisations come in, and checks the previous section head again before it stores the
result.

**Event feed** (`Feed`; `event/feed.go`). `Send` keeps an array of cases partitioned into active and served ones, and
others subscribe and unsubscribe while it waits.

**Selection and distribution** (`WeightedSelect`, `RejectionChance`, `Distributor`; `les/`). An 8-ary tree of weight
sums, from which an item is chosen with a chance equal to its weight, also when weights have gone down meanwhile, and
the queue of light client requests that uses it.

**Transaction pool** (`Heaps`, `TxSortedMap`, `TxList`, `PricedList`, `PoolLists`, `PoolContents`, `PoolReset`,
`TxPool`, `PoolRuns`; `core/tx_list.go`, `core/tx_pool.go`). Lists by nonce with a heap and a cache, a lazily cleaned
heap by price, and the pool that moves transactions between queues and pending lists, cuts large senders back, and
takes transactions in again after a reorganisation.

**Gas and balances** (`StateTransition`, `Sums`; `core/state_transition.go`, `core/gaspool.go`,
`core/state_processor.go`). Gas is bought, used, refunded and paid for, as in section 6 of the Ethereum Yellow Paper.
Execution by the EVM is a parameter that conserves balances and does not return more gas than it was given.

**Light transaction pool** (`LightTxPool`; `light/txpool.go`). The walk to a common ancestor, rolling back and mining
again, with the net changes that are reported, also when a block cannot be fetched.

## Properties that do not hold

For each there is an example, and a proof of when the property does hold.

- `Write` of a hasher with an odd segment count may take more than the capacity when data is written in parts, since
  what the open double segment holds is not taken off the need (bmt/bmt.go:342); any later write panics. It stays
  within the capacity if and only if the data fits, or is the first, or the count is even, or the last double segment
  is open (`WithinCapacityIff`). Four bytes for three segments of one byte are taken in two parts, but not at once
  (`WrittenInParts`, `WrittenAtOnce`).
- A tree of the hasher cannot be used for ever. Its counters are 32-bit, and Go's remainder of a negative number is
  not positive. A goroutine waits exactly if the counter is even and not negative (`ToggleWaitsIff`). Up to 2^30 uses
  each give the reference hash (`HashOften`). Use 2^30 of a tree leaves a negative counter (`CounterAfterUses`), and
  then two results are sent, of which the first is wrong (`TwoResultsAfterWrap`).
- The comment on `insert` (core/blockchain.go:519-522) says that the header head follows the block if this is on
  another chain. A reorganisation inserts the new branch from its head down, so the header head stays at the first
  block of the branch. It is the head block if and only if its parent was on the old chain (`HeaderHeadAfterSwitch`,
  `HeaderHeadLagsBehind`).
- The chain indexer stores a section although a reorganisation has replaced some of its blocks after they were read,
  if this begins inside the section (`StaleSection`); when every change of the chain is announced to it, only then
  (`StaleIffOvertaken`). Without blocks that come back this is exact, and with them it is not (`ReturnedSection`).
  After a stale section no further one is stored until a reorganisation to below it is announced (`RunBlocked`).
- A message that has used no gas gets nothing back. As long as the base price of a message is positive, only a system
  message can be like this; gas and balances are conserved if and only if the message is not one of these
  (`LostIffForfeits`, `SystemMessageLoses`).
- Removing the first of several pending transactions of an account leaves the others known to the pool, but in none of
  its lists (`RemovalStrandsIff`, `SecondIsStranded`).
- After a reorganisation that sets transactions free, the pending transactions of an account may have a gap. The pool
  looks only for a gap at the front (core/tx_pool.go:1321), and a reinjected transaction may be there. As long as
  there are no more than `globalSlots` transactions in all, this happens if and only if the nonce of an account goes
  back, the transaction for the new nonce is added or queued and can be paid for, one between it and the pending ones
  is missing, and the first pending one can still be paid for (`ResetIff`, `GapAfterReset`).
- With more transactions, the pool may cut pending ones that the new state has passed before it drops the others of
  these. The cut takes the pending nonce below that of the state (core/tx_pool.go:1197-1199, 1219-1221), and it stays
  there (`NonceBelowState`); the next transaction of the account is then accepted, but does not become pending
  (`NextIsStuck`). This does not happen if there is no gap as above and each account is local, within its slots, or
  has nothing pending that the new state has passed (`ResetIff`, and `TxPool.Pool.Reset` on the pool). Whether an
  account beyond this is hurt depends on the order in which the pool takes the accounts, so this goes one way only.
- `SetHead` leaves side branches in the store. The head is then the highest stored header, and every header has its
  parent, if and only if no side branch begins above the new head and nothing that remains is higher than it
  (`RewoundIff`, `LowerHead`).
- Adding a transaction to the light pool may list it twice. Its nonce is checked against the state of the current
  header of the chain, so one that is mined there is refused (light/txpool.go:358-362). If the chain has moved to
  another branch, and the pool has not been told, a transaction that it lists with a block of the old one is accepted.
  Each transaction stays in one place if and only if the one added is not listed with a block that the chain has left
  (`LightTxPool.Pool.Add`, `AddedTwice`).

Where the comments of the code say something else than the code, the code is followed. Besides `insert`: the comment
in the pool says that the oldest queued transactions are dropped (core/tx_pool.go:1230); the code goes by the
heartbeats of accounts from the latest down, and the proof holds for any order of accounts.

## Model

| member | source | states |
|---|---|---|
| `BmtReference.NewRefHasher` | bmt/bmt_r.go:39-57 | the span is the width of a node at the least height such that two of these hold all segments |
| `BmtReference.Hash` | bmt/bmt_r.go:59-85 | the halving loop and the recursion compute the reference hash, for every length and every span |
| `BmtReference.HalveToWidth` | bmt/bmt_r.go:71-77 | halving the span stops at the width of the greatest node that is narrower than the data |
| `BmtReference.RefHashSplits` | bmt/bmt_r.go:67-85 | the reference hash of data that fills more than one node is the hash of its left half and of what its right half passes up |
| `BmtReference.NodeValueIsRefHash` | bmt/bmt_r.go:67-85 | what a node of the tree passes up is the reference hash of its part of the data, and short data unhashed |
| `BmtProtocol.ToggleWaitsIff` | bmt/bmt.go:506-511 | a goroutine waits in a node if and only if the counter is even and has not wrapped around to negative values |
| `BmtProtocol.ToggleFailsAfterWrap` | bmt/bmt.go:506-511 | at any counter that has wrapped, neither of the next two arrivals waits |
| `BmtInterleaving.StepKeepsInv` | bmt/bmt.go:463-494 | every atomic step of every goroutine keeps the invariant; in particular a node is hashed only after both halves are written |
| `BmtInterleaving.FirstArrivalWaits` | bmt/bmt.go:477-484 | of the two goroutines that reach a node the first one waits, and the second goes on |
| `BmtInterleaving.FinishedRun` | bmt/bmt.go:463-494 | a finished run has sent exactly one result, and the counter of every node with two halves has gone up by two |
| `BmtInterleaving.ResultMeansFinished` | bmt/bmt.go:463-494 | once a result is sent, all goroutines have been launched and are done |
| `BmtInterleaving.StepLowersRank` | bmt/bmt.go:463-494 | every step uses up rank, so every schedule ends |
| `BmtInterleaving.EveryScheduleSendsRootValue` | bmt/bmt.go:463-494 | under every schedule at most one result is sent, it is the value of the root, and it has been sent exactly when nobody can act |
| `BmtLifecycle.LaunchFull` | bmt/bmt.go:442-461 | a full double segment may be launched while earlier goroutines are running |
| `BmtLifecycle.LaunchLast` | bmt/bmt.go:442-461 | the last double segment may be launched once the path of its leaf has been marked |
| `BmtLifecycle.FinaliseKeepsInv` | bmt/bmt.go:528-547 | marking a node on the path of the last leaf disturbs no running goroutine |
| `BmtHasher.Depth` | bmt/bmt.go:521-527 | the depth is that of the smallest tree with room for all segments |
| `BmtHasher.NewTree` | bmt/bmt.go:253-277 | the tree has all nodes of its depth, with clear flags and counters |
| `BmtHasher.Hasher.Write` | bmt/bmt.go:334-373 | appends exactly the part of the data that there is room for, launching double segments as they fill, with goroutines running in between; data may be written in any parts |
| `BmtHasher.WithinCapacityIff` | bmt/bmt.go:334-373 | the data written stays within the capacity if and only if all of it fits, or none was written before, or the count is even, or the last double segment is the open one; and then as much is taken as fits |
| `BmtHasher.WrittenInParts` | bmt/bmt.go:334-373 | two writes after which a hasher for three bytes holds four |
| `BmtHasher.WrittenAtOnce` | bmt/bmt.go:334-373 | the same bytes in one write, of which three are taken |
| `BmtHasher.Hasher.Finalise` | bmt/bmt.go:528-547 | every node on the path of the last leaf is marked, up to the root of the tree in use |
| `BmtHasher.Hasher.Await` | bmt/bmt.go:297-302 | receiving from the result channel ends, with the value of the root, under every schedule |
| `BmtHasher.Hasher.ReleaseTree` | bmt/bmt.go:425-440 | all flags are clear again, and no counter is changed |
| `BmtHasher.Hasher.Sum` | bmt/bmt.go:293-319 | the result is the value of the root, with the block length hashed in front if there is one; the hasher may be used again as long as no counter has wrapped |
| `BmtHasher.FinalValueIsRefHash` | bmt/bmt.go:293-319 | the value of the root is the reference hash of all data written, odd segment counts and partial segments included |
| `BmtHasher.HashBothWays` | bmt/bmt_r.go:59-85 | one Write of any data and Sum give what the reference hasher gives for the same data, cut at the same capacity: every segment size and count, every length, every interleaving |
| `BmtUses.HashOften` | bmt/bmt.go:293-440 | one hasher used up to 2^30 times, for data of any lengths: each use gives the reference hash of its data, under every interleaving |
| `BmtOverflow.CounterStaysGoodIff` | bmt/bmt.go:506-511 | a counter stays even and non-negative through one more use if and only if it is not about to wrap |
| `BmtOverflow.CounterAfterUses` | bmt/bmt.go:506-511 | the counter of a new tree after any number of uses: use 2^30 still begins at a good one, and leaves a negative one to the next |
| `BmtOverflow.TwoResultsAfterWrap` | bmt/bmt.go:463-511 | for any two double segments, any base hash and any negative counter but the last two, a run of the goroutines in which two results are sent, the first of which is without the right half of the data |
| `ChainTree.PathPrefix` | core/headerchain.go:170-176 | a header on the path of another has its index as number, and its own path is the part of it below |
| `ChainTree.FindCommonAncestor` | core/database_util.go:685-709 | the header found is on both paths, and above it they have no header in common |
| `HeaderChain.TdIsSum` | core/headerchain.go:137-148 | the stored total difficulty of a header is the sum over its path |
| `HeaderChain.InsertKeepsGood` | core/headerchain.go:131-195 | writing a header keeps total difficulties right and the head the highest |
| `HeaderChain.EveryRunIsGood` | core/headerchain.go:131-195 | after any run the head has the highest total difficulty of all stored headers |
| `HeaderChain.CoinsOnlyBreakTies` | core/headerchain.go:155 | whatever the coins, the same headers are stored with the same total difficulties, and the heads tie |
| `HeaderChain.HeaderChain.GetTd` | core/headerchain.go:318-332 | the cache changes nothing of the result |
| `HeaderChain.HeaderChain.GetHeader` | core/headerchain.go:350-362 | the cache changes nothing of the result |
| `HeaderChain.HeaderChain.DeleteAbove` | core/headerchain.go:156-163 | the index is cut off at the number given |
| `HeaderChain.HeaderChain.Reroute` | core/headerchain.go:164-180 | the index becomes the path of the new header, although the walk stops where it first agrees |
| `HeaderChain.HeaderChain.WriteHeader` | core/headerchain.go:131-195 | the index is always exactly the path of the head and the head the highest; an unknown parent changes nothing |
| `HeaderChain.ValidateHeaderChain` | core/headerchain.go:204-215 | passes exactly the chains whose headers are each the child of the one before |
| `HeaderChain.HeaderChain.InsertHeaderChain` | core/headerchain.go:259-278 | the headers up to the first one whose parent is unknown are stored, and no others; in a chain that has passed the linkage check this can only be the first one, and then nothing changes |
| `HeaderChain.HeaderChain.SetHead` | core/headerchain.go:410-443 | the head moves down its path, the index follows, and exactly the headers of the path above it are forgotten; all invariants of the chain hold afterwards if and only if no side branch leaves the path above the new head and no header that remains has a higher total difficulty |
| `HeaderChain.RewoundIff` | core/headerchain.go:410-443 | the same about the stored headers: exactly when they are still a tree below genesis with the head as the highest |
| `HeaderChain.LowerHead` | core/headerchain.go:410-443 | a run after which a stored header has a higher total difficulty than the head |
| `BlockChain.WriteTxLookupEntries` | core/database_util.go:529-546 | the table has a position in the block for each of its transactions, and for others what it had |
| `BlockChain.FindBranches` | core/blockchain.go:1157-1221 | both branches down to the last common block are found, and in a linked tree this cannot fail |
| `BlockChain.ReorgMovesTable` | core/blockchain.go:1237-1253 | entering the new branch and deleting what only the old one had gives exactly the table of the new chain |
| `BlockChain.BlockChain.InsertHead` | core/blockchain.go:525-547 | the block is in the index and is the head; the other heads follow only if it was not in the index before |
| `BlockChain.BlockChain.Adopt` | core/blockchain.go:1233-1245 | the index has the new branch, and the other heads are at its lowest block that was not in the index |
| `BlockChain.BlockChain.Reorg` | core/blockchain.go:1157-1263 | index and table are moved to the chain of the new block |
| `BlockChain.BlockChain.WriteBlockAndState` | core/blockchain.go:857-939 | up to the head the index is the head's chain, and the table holds exactly its transactions at their positions; the head has the highest total difficulty; refused, known, failed and side blocks move nothing |
| `BlockChain.ViewAfter` | core/blockchain.go:861-882 | storing a block is the insertion of its header into the tree of headers |
| `BlockChain.HeaderHeadAfterSwitch` | core/blockchain.go:519-547 | after a switch the header head is the first block of the new branch; this is the head block if and only if its parent was on the old chain |
| `BlockChain.HeaderHeadLagsBehind` | core/blockchain.go:519-547 | three blocks after which the head block is one and the header head another |
| `ChainIndexer.SectionsAreOneChain` | core/chain_indexer.go:310-335 | the stored sections are one unbroken chain of parent hashes from block 0 |
| `ChainIndexer.ChainIndexer.constructor` | core/chain_indexer.go:84-102 | an indexer restarted from the databases has the same sections |
| `ChainIndexer.ChainIndexer.SetValidSections` | core/chain_indexer.go:370-382 | the persisted count is set and the heads of all sections above it are removed |
| `ChainIndexer.ChainIndexer.NewHead` | core/chain_indexer.go:191-230 | a reorg takes away exactly the sections from that of the fork on; after another head a section is known if and only if it was, or all its blocks are there with as many more as confirmations are required; none is when the number of blocks does not fit a word |
| `ChainIndexer.KnownIff` | core/chain_indexer.go:196-221 | the same about the count of known sections, by multiplication: dividing the number of confirmed blocks by the section size counts just these sections |
| `ChainIndexer.ChainIndexer.ProcessSection` | core/chain_indexer.go:310-335 | succeeds if and only if each block read is the child of the one before, with the chain changing and reorgs coming in between any two |
| `ChainIndexer.CheckFindsReorg` | core/chain_indexer.go:272-273 | comparing the head before the section tells whether sections have been dropped since |
| `ChainIndexer.ChainIndexer.Update` | core/chain_indexer.go:246-301 | a section is stored if and only if it could be read and no reorg to below it came in the meantime |
| `ChainIndexer.ChainIndexer.Run` | core/chain_indexer.go:246-301 | after any interleaving, heads are stored exactly below the count, the persisted count agrees, and the sections are one chain |
| `ChainIndexer.LowestStays` | core/chain_indexer.go:196-206 | events leave a section alone exactly if none is a reorg to below it |
| `StaleSections.NotBelow` | core/chain_indexer.go:196-206 | an announced reorg that leaves the sections alone does not begin below the next one |
| `StaleSections.StaleIffOvertaken` | core/chain_indexer.go:246-301 | for any schedule in which a change of the chain that replaces blocks is announced with some head up to which it keeps them: the blocks of a stored section are canonical at the end if none that was read is replaced by a reorg announced with a head inside the section; and only if, as long as no replaced block comes back |
| `StaleSections.UpdateAndCompare` | core/chain_indexer.go:246-301 | the same about one round of the update loop, run on any valid indexer |
| `StaleSections.StaleSection` | core/chain_indexer.go:272-281 | a run after which a stored section has a block that is no longer canonical |
| `StaleSections.ReturnedSection` | core/chain_indexer.go:272-281 | a run after which an overtaken section is canonical, since the replaced block has come back |
| `StaleSections.StaleIsBlocked` | core/chain_indexer.go:321-326 | if the last stored section is not canonical, the canonical block before the next one is not the one that the sections end with |
| `StaleSections.RunBlocked` | core/chain_indexer.go:246-301 | from there on, over any run of events and rounds, no section is stored as long as changes keep the blocks before the next section and no reorg to below it is announced; above it the chain may change in any way |
| `Feed.Find` | event/feed.go:207-215 | an entry for the channel, or -1 exactly if there is none |
| `Feed.ActiveShrinks` | event/feed.go:222-227 | swapping a case to the end of the active part and cutting it off takes out this case and no other |
| `Feed.Feed.Subscribe` | event/feed.go:73-93 | the subscription waits in the inbox under an id of its own |
| `Feed.Feed.BeginRemove` | event/feed.go:104-115 | a channel in the inbox loses one entry of its own there and no other; any other removal waits, and its channel is in sendCases |
| `Feed.Feed.Serve` | event/feed.go:117-125 | a removal always finds its channel, and never takes the removeSub case |
| `Feed.Feed.TryAll` | event/feed.go:151-161 | each active case is tried; the ones that accept leave the active part and are counted, and just those that do not accept are left active |
| `Feed.Feed.Select` | event/feed.go:165-176 | a delivery or a removal, of an active or a served case, keeps the account |
| `Feed.Feed.Send` | event/feed.go:129-185 | of the cases subscribed at the start each is delivered to exactly once or was removed on request before its turn; nsent counts the deliveries; sendCases holds exactly the survivors behind removeSub |
| `Feed.UntouchedIsDelivered` | event/feed.go:129-185 | a subscription for whose channel no removal was asked is delivered to exactly once and remains |
| `WeightedSelect.PickIff` | les/randselect.go:160-173 | a slot is chosen exactly by the values from the sum of the weights before it on, as many as its weight |
| `WeightedSelect.ChancesAreWeights` | les/randselect.go:160-173 | exactly weight many of the values in range choose a slot |
| `WeightedSelect.InsertBelow` | les/randselect.go:107-132 | the item takes the first free slot and its index is returned; insert does not panic when there is room |
| `WeightedSelect.SetWeightBelow` | les/randselect.go:136-157 | exactly the slot of the index changes, sums and counts stay right at every level |
| `WeightedSelect.ChooseBelow` | les/randselect.go:160-173 | the walk down the tree finds the slot whose interval holds the value, and does not panic |
| `WeightedSelect.RaisedKeepsSlots` | les/randselect.go:63-69 | adding a level keeps every slot at its index and adds free ones |
| `WeightedSelect.WeightedRandomSelect.SetWeight` | les/randselect.go:54-73 | the set is the map it should be: the item has the weight, or is gone if this is zero |
| `WeightedSelect.WeightedRandomSelect.Chances` | les/randselect.go:79-94 | as many values stand for an item as its weight says |
| `WeightedSelect.AcceptanceChance` | les/randselect.go:86-92 | an item whose weight has gone down is accepted for new weight out of old weight values |
| `WeightedSelect.WeightedRandomSelect.Choose` | les/randselect.go:79-94 | ends, because every rejection lowers the sum, with an item at its current positive weight, or with none when the sum is zero; weights that have changed are the reported ones |
| `RejectionChance.ChanceIsShare` | les/randselect.go:79-94 | over all rounds of choosing and rejecting, the chance of an item is its share of the weights as reported now, whatever the stored ones, as long as none has risen |
| `RejectionChance.UnchangedChance` | les/randselect.go:79-94 | as long as no weight has changed, the chance of an item is the share of its stored weight |
| `Distributor.ConsiderKeeps` | les/distributor.go:191-213 | looking at a peer notes it with the first request it can take |
| `Distributor.Distributor.Queue` | les/distributor.go:233-251 | the queue stays strictly sorted; a request queued again goes back to its place |
| `Distributor.Distributor.Cancel` | les/distributor.go:265-285 | true exactly if the request was still queued |
| `Distributor.NewSelector` | les/distributor.go:196-203 | exactly the peers that can be sent to now are in the selector, each with a weight one above the buffer it has left |
| `Distributor.Distributor.NextRequest` | les/distributor.go:178-227 | a peer gets the first queued request it can take, with the least waiting time of all; the requests that fail are those at the front that no registered peer can take |
| `Heaps.Push` | core/tx_list.go:41-43 | heap order is kept and one element added |
| `Heaps.Remove` | core/tx_list.go:183-188 | heap order is kept and exactly the element at the index is gone |
| `Heaps.Init` | core/tx_list.go:136 | a heap of the same elements |
| `TxSortedMap.FlatIs` | core/tx_list.go:234-250 | the flattened list has the transactions of the map and no others, by rising nonce |
| `TxSortedMap.SortedIsFlat` | core/tx_list.go:238-245 | sorting the transactions of the map gives just this list |
| `TxSortedMap.SortedMap.Put` | core/tx_list.go:82-91 | the map has the transaction at its nonce; index and cache agree |
| `TxSortedMap.SortedMap.Forward` | core/tx_list.go:96-113 | exactly the nonces below the threshold go, and are returned in order; the shifted cache is right |
| `TxSortedMap.SortedMap.Filter` | core/tx_list.go:117-141 | exactly what the function says goes |
| `TxSortedMap.SortedMap.Cap` | core/tx_list.go:145-169 | the highest nonces go, highest first, and the limit is met; the shifted cache is right |
| `TxSortedMap.SortedMap.Remove` | core/tx_list.go:173-193 | exactly the nonce goes, and it is told whether it was there |
| `TxSortedMap.SortedMap.Ready` | core/tx_list.go:203-221 | the whole run of nonces from the lowest one, if this is not above the start; else nothing |
| `TxSortedMap.SortedMap.Flatten` | core/tx_list.go:234-250 | the contents by rising nonce, cached or not |
| `TxList.List.Add` | core/tx_list.go:286-304 | a transaction with the same nonce is replaced if and only if 100 times the new price is above the old price times 100 and the price bump; so a replacement never lowers the price; the caps are the highest cost and gas limit so far |
| `TxList.OutbidsIff` | core/tx_list.go:290-293 | rounding the threshold down decides the same as comparing without rounding |
| `TxList.List.Filter` | core/tx_list.go:322-348 | with or without the short cut, exactly what is too dear goes, and in a strict list everything above the lowest of these; the caps come down to the limits |
| `TxList.List.Remove` | core/tx_list.go:359-370 | the nonce goes, in a strict list with everything above it; a list without gaps stays so |
| `TxList.List.Cap` | core/tx_list.go:352-354 | a list without gaps stays so |
| `TxList.List.Forward` | core/tx_list.go:309-311 | a list without gaps stays so |
| `TxList.CapKeepsLowest` | core/tx_list.go:153-161 | every nonce that is kept is below every one that is dropped |
| `PricedList.Priced.Removed` | core/tx_list.go:444-458 | every transaction of the pool keeps its entry; the heap is built anew, with one entry for each, exactly when more than a quarter of the entries are counted as stale |
| `PricedList.Priced.Cap` | core/tx_list.go:462-489 | drops exactly the remote transactions below the threshold, and the rest keeps its entries; the entries not counted as stale are fewer by just the dropped ones |
| `PricedList.Priced.Underpriced` | core/tx_list.go:493-515 | true exactly for a remote transaction not above the true minimum price of the pool |
| `PricedList.Priced.Discard` | core/tx_list.go:519-542 | drops the cheapest remote transactions, as many heap entries as asked for or all there are; a transaction that was queued again has more than one entry |
| `PoolLists.StepKeepsPool` | core/tx_pool.go:1066-1105 | a step on one account keeps listed transactions known and nonces apart for all accounts |
| `PoolLists.ReadyIsNext` | core/tx_pool.go:1139-1144 | what is ready begins with the pending nonce |
| `PoolLists.FairIsFairShare` | core/tx_pool.go:1159-1229 | levels that the equalising loops reach are a fair share, which misses the limit by less than one round |
| `PoolLists.DemotedRun` | core/tx_pool.go:1295-1328 | what demoting leaves of a run begins with the nonce of the state and has no gap |
| `PoolLists.DemotingLosesNone` | core/tx_pool.go:1307-1328 | nothing that can still be executed and paid for is lost, nor anything queued |
| `PoolLists.ResetRuns` | core/tx_pool.go:450-456 | after demoting and setting nonces, pending transactions are runs from the nonces of any new state |
| `PoolContents.ReadyIff` | core/tx_list.go:203-221 | a queued transaction is promoted if and only if the queue has one not after the pending nonce, and no gap before it |
| `PoolContents.RunIsReady` | core/tx_list.go:203-221 | what the loop over the heap takes is just this, in the order of nonces |
| `PoolContents.PromotedTwice` | core/tx_pool.go:1119-1158 | promoting an account once more changes nothing |
| `PoolContents.RemovalStrandsIff` | core/tx_pool.go:1078-1097 | in a pool whose known transactions are all listed, removing one keeps this if and only if it is not the first of several pending transactions of its account |
| `PoolRuns.SecondIsStranded` | core/tx_pool.go:1082-1090 | a run of the pool, from empty, after which the second of two pending transactions is known but in no list |
| `PoolReset.AddedNonces` | core/tx_pool.go:1018-1046 | after adding some transactions to a pool that discards none for this, the queue of an account has the nonces it had, and those of valid new ones that are not pending |
| `PoolReset.NoGapIsRun` | core/tx_pool.go:1295-1328 | what demoting leaves is a run from the nonce of the state on, if reinjecting has not put a transaction in front of the pending ones and left a gap behind it |
| `PoolReset.GapStays` | core/tx_pool.go:1295-1328 | such a gap is still there when all has been demoted and promoted |
| `PoolReset.ResetIff` | core/tx_pool.go:428-460 | for any lists and any new state, when nothing is discarded: as long as promoting leaves no more than globalSlots pending, these are runs from the nonces of the state on if and only if no account gets such a gap; and with more, if none does and each account is local, within its slots, or has nothing pending that the state has passed |
| `PoolReset.NoGapsRun` | core/tx_pool.go:428-460 | without such gaps pending transactions are runs when all has been demoted, if nothing had to be cut, or each account that was has nothing pending that the state has passed |
| `PoolReset.RevalidatedRunIff` | core/tx_pool.go:440-456 | for any lists, of a full pool too: what demoting leaves of an account is a run up to the pending nonce if and only if nothing is missing in front of its first transaction that is too dear, or nothing is left and the pending nonce is that of the state |
| `PoolRuns.GapAfterReset` | core/tx_pool.go:428-460 | a run of the pool, from empty, after which pending transactions have a gap: a reorg takes the state back by two and one of the two reinjected transactions is no longer valid |
| `PoolRuns.NonceBelowState` | core/tx_pool.go:1197-1221 | a run of the pool, from empty, after which the pending nonce of an account is below that of the state: in a pool with too many pending transactions a new head reinjects one |
| `PoolRuns.NextIsStuck` | core/tx_pool.go:1139-1144 | after it, the transaction with the nonce of the state is accepted, but not pending |
| `TxPool.Pool.EnqueueTx` | core/tx_pool.go:804-825 | the queue has the transaction in place of one with its nonce, if its price is above that one's by more than the bump, or refuses it |
| `TxPool.Pool.PromoteTx` | core/tx_pool.go:924-956 | the pending list has the transaction and the pending nonce is the one after it; the next one extends the run |
| `TxPool.Pool.RemoveTx` | core/tx_pool.go:1066-1105 | exactly this transaction is no longer known; the pending list is cut at its nonce, and the pending nonce goes down to it, and the rest is queued again if something is left; or else the queue loses the nonce |
| `TxPool.Pool.RemoveEach` | core/tx_pool.go:1254-1266 | removing queued transactions takes exactly these nonces from the queue |
| `TxPool.Pool.SetGasPrice` | core/tx_pool.go:500-509 | exactly the local transactions and those with at least this price remain; lists and pending nonces are those after removing the others one by one, and pending ones stay runs |
| `TxPool.Pool.MakeRoom` | core/tx_pool.go:743-758 | in a full pool a transaction is refused if and only if its sender is not local and no known one is cheaper; else only remote transactions go, and none above one that is kept; one goes unless all are local, and no more than leave place for one; lists and pending nonces are those after removing these one by one |
| `TxPool.Pool.Add` | core/tx_pool.go:727-799 | in any pool: a known or invalid transaction is refused, and one that is too cheap for a full pool as by MakeRoom; else room is made, and the transaction is accepted if and only if it is not too cheap for its nonce in what is left, and then just this list has changed; its sender becomes local if and only if it is accepted as a local one and its nonce is not pending |
| `TxPool.Pool.PromoteAccount` | core/tx_pool.go:1119-1158 | exactly the first run of what the account can pay for becomes pending, if it does not begin after the pending nonce; the rest keeps its lowest nonces, up to the limit of a remote account; what else was there is forgotten |
| `TxPool.Pool.CapPending` | core/tx_pool.go:1159-1229 | within the limit or no remote account above its slots; no account is cut below its slots, nor below a remote one that lost nothing; only highest nonces go, none if all was within the limit, and never more than one round too many; the pending nonce of an account goes down to the lowest nonce that was cut, and no other changes |
| `TxPool.Pool.CapQueues` | core/tx_pool.go:1230-1269 | the queued transactions are within the limit or all local; only highest nonces of remote accounts go, and no more than needed |
| `TxPool.Pool.PromoteExecutables` | core/tx_pool.go:1110-1270 | the accounts given are promoted as above, also if one is given twice; then fair shares, capped queues, which change nothing in a pool within both limits; nothing executable is left in the queues of these accounts and no known transaction has left the lists |
| `TxPool.Pool.DemoteAccount` | core/tx_pool.go:1297-1334 | the pending list has what can be executed on the new state without a gap, and the queue has what can be later |
| `TxPool.Pool.DemoteUnexecutables` | core/tx_pool.go:1295-1335 | the same for all accounts, and no known transaction has left the lists |
| `TxPool.Pool.Reset` | core/tx_pool.go:428-460 | adds the reinjected transactions as by AddTxs, to any pool, demotes, promotes and cuts the lists of all accounts as above, to any state; without reinjected transactions pending ones are the run from the nonce of the state on, nothing executable is queued and none has left the lists; with them, as long as there are at most globalSlots in all, if and only if no account gets a gap; with more, if none does and each account is local, within its slots, or has nothing pending that the state has passed |
| `TxPool.Pool.AddTx` | core/tx_pool.go:987-1014 | in any pool, full or not: the transaction is added as by Add; if it has a new nonce its account is promoted, and the lists are cut to the limits, which changes nothing in a pool within both; pending transactions stay a run and nothing newly executable is left in a queue; unless the pool is full none leaves the lists |
| `TxPool.Pool.AddTxs` | core/tx_pool.go:1018-1046 | the same for a list of transactions, added one after the other, each to the pool that the one before has left; exactly the accounts that got a new nonce are promoted; pending transactions stay runs; if the pool has place for all of them none leaves the lists |
| `TxPool.Pool.Do` | core/tx_pool.go:377-1335 | every step does what is said above, and keeps each listed transaction known with a price entry and no nonce both pending and queued; pending transactions stay just the next ones to execute unless a new head may leave a gap or a nonce below that of the state; with at most globalSlots transactions exactly when none gets a gap |
| `TxPool.Pool.Run` | core/tx_pool.go:377-1335 | all steps of a run are done in order, each on the pool that the one before has left; the first of this holds after any run from any such pool, the second after each step from a settled pool that is not such a new head, and so after a run without one |
| `StateTransition.IntrinsicGas` | core/state_transition.go:99-121 | the price of a creation under pangu, or else that of a call, with the two byte prices times the numbers of bytes that are not zero and that are |
| `StateTransition.GasPool.SubGas` | core/gaspool.go:35-42 | the amount is taken, or refused if there is not enough |
| `StateTransition.Transition.UseGas` | core/state_transition.go:193-199 | the amount is taken, or refused if there is not enough |
| `StateTransition.Transition.BuyGas` | core/state_transition.go:201-224 | all of the gas limit is bought, from sender and pool, or nothing; each condition for it, and which error is given |
| `StateTransition.Transition.PreCheck` | core/state_transition.go:226-240 | a wrong nonce is refused, as too high or too low, and changes nothing |
| `StateTransition.Transition.RefundGas` | core/state_transition.go:424-444 | what is not used goes back, with a refund of at most half of what is used, and only if something is used |
| `StateTransition.Transition.TransitionDb` | core/state_transition.go:245-333 | who gets what, whoever sender and coinbase are, and nonces are those of the execution; balances together, and gas pool with gas used, are what they were if and only if the message does not lose gas as LostIffForfeits says, or for balances the gas was free; exactly when the message is refused, with which error, and what it has changed then |
| `StateTransition.LostIffForfeits` | core/state_transition.go:263-333 | with a positive base price, a message that is executed loses gas if and only if it is of the system, has bought some, and creates a contract or makes a call that uses none |
| `StateTransition.SystemMessageLoses` | core/state_transition.go:263-269 | a system message that loses its gas |
| `StateTransition.Block.ApplyTransaction` | core/state_processor.go:149-166 | the message is executed if and only if it is accepted, and the receipt says what was used; gas pool and gas used together stay the limit of the block if and only if the message does not lose gas in this way, and so for balances |
| `StateTransition.LeaveOutSystem` | core/state_processor.go:84-90 | the ordinary messages of the block, at just their places and in their order |
| `StateTransition.NoneIsLost` | core/state_processor.go:84-90 | each ordinary message is executed as often as the block has it, and no system message is |
| `StateTransition.Block.Process` | core/state_processor.go:73-108 | the system's call and then exactly the ordinary messages of the block, in order, are executed, each in the world and with the gas that the one before has left, with a receipt for each, up to the first that is not accepted there; ok if and only if there is none; then gas pool and gas used together are the limit, and balances together are what they were |
| `StateTransition.SetReceiptsData` | core/blockchain.go:739-754 | the gas used of each receipt is worked out from the cumulative ones |
| `StateTransition.GasUsedIsRecovered` | core/blockchain.go:749-754 | for receipts of a processed block this is the gas used that was lost |
| `LightTxPool.NetMined` | light/txpool.go:140-147 | noting a transaction as mined keeps the changes net |
| `LightTxPool.NetRolledBack` | light/txpool.go:140-147 | noting a transaction as rolled back keeps the changes net |
| `LightTxPool.FindAncestor` | light/txpool.go:220-238 | the walk ends at the last header that is on both chains, with the blocks of both branches above it |
| `LightTxPool.Pool.CheckMinedTxs` | light/txpool.go:164-197 | exactly the pending transactions of the block are mined and listed with it, and no other list changes; when it cannot be fetched nothing happens |
| `LightTxPool.Pool.RollbackTxs` | light/txpool.go:201-211 | exactly the transactions listed with the block are pending again |
| `LightTxPool.Pool.ClearOld` | light/txpool.go:256-273 | exactly the lists of the canonical blocks from the last cleared one to 500 below the head go, and exactly the transactions in them are followed no longer; the index of the last cleared one moves there |
| `LightTxPool.Pool.ReorgOnNewHead` | light/txpool.go:219-276 | succeeds if and only if every block of the new branch can be fetched that has to be, in order, with what is still pending there; else the head stops just before the first that cannot; pending is exactly what was or is rolled back without what the searched blocks contain, each list exactly what was still pending when its block was searched, or what it was; on success exactly the lists of canonical blocks from the last cleared one, or the common header, to 500 below the head are discarded, and the index moves there; every followed transaction is pending or in one list on the chain of the head, and the changes are exactly the net ones |
| `LightTxPool.Pool.Add` | light/txpool.go:343-428 | a valid transaction that is not pending becomes so; every followed transaction is then still in one place if and only if this one is not listed with a block that the chain of the current header has left; so always if the pool is on that chain |
| `LightTxPool.AddedTwice` | light/txpool.go:343-428 | a run after which a transaction is pending and listed as mined: the chain has moved to another branch without it and the pool has not been told |
| `LightTxPool.Pool.RemoveTx` | light/txpool.go:525-532 | a pending transaction is given up, and all else stays |
| `LightTxPool.Pool.Run` | light/txpool.go:219-532 | all steps of a run of additions, removals and new heads, with ever more headers, are done in order as said above, each on the pool that the one before has left, and every followed transaction stays in one place, up to the first addition that is accepted although the transaction is listed with a block that the chain has left |

## Left out

- BmtHasher.Hasher.Write: once a hasher has taken more than its capacity, a further write of something panics in the code, and is not modelled.
- BMT: the pool of trees (a hasher keeps its tree), `ReadFrom`, `Draw`, aliasing with the caller's buffers, resetting the block length.
- BMT: reads and writes of Go memory between atomic steps; each step of a goroutine on a node is one atomic action.
- HeaderChain.HeaderChain.InsertHeaderChain: a header is numbered one above its parent, and a hash belongs to one header; seals, interrupts and statistics are not modelled.
- HeaderChain.HeaderChain.SetHead: the callback that deletes bodies is left out.
- HeaderChain: eviction from the caches (a cache may hold any part of the store), and the cache of numbers.
- BlockChain: `SetHead`, `Rollback`, fast sync, receipts, logs and events. Number index entries above the head may stay, as in the code; the index is described up to the head.
- BlockChain.BlockChain.WriteBlockAndState: a transaction occurs at most once on a chain, and a hash belongs to one block; whether the state can be committed is a parameter.
- ChainIndexer: child indexers and cascading, throttling, closing, and errors of the databases other than a missing block.
- Feed: type checks of channels; the values sent.
- WeightedSelect: the nodes of the tree are values; overflow of int64 sums and negative weights are not modelled.
- Distributor: the loop with its timers, sending, and the branch that stops it. The random choice is a parameter, and the selector is filled when all peers have been looked at.
- TxPool: the pool holds the lists of an account as maps by nonce; the classes SortedMap and List are the ones that keep heap, cache and caps. An empty list is no list.
- TxPool: heartbeats, events, the journal, direct calls of sharding, metrics; priorities of spammers are numbers and not float32.
- TxPool.Pool.Add: whether the transaction is valid is a parameter (signature, size, balance, nonce, gas).
- TxPool.Pool.Reset: the walk over the blocks of a reorganisation is replaced by its result, the list of transactions to reinject. In a pool that is so full that adding them discards others for their price, the condition for a run is stated on the lists after this (RevalidatedRunIff); in one with more than globalSlots transactions the condition before the call goes one way.
- TxPool.Pool.MakeRoom: states bounds for how many transactions go and not the number, because entries of the price heap repeat.
- PricedList.Priced.Removed: the count of stale entries is as in the code, and is not exact: a transaction that is queued again gets another entry (core/tx_pool.go:822-823).
- StateTransition: the EVM, logs, blooms, state roots, sharding flags; gas prices of the protocol are parameters, since `params` is not part of this model.
- LightTxPool.Pool.Add: whether the transaction is valid is a parameter, of which only this is used: none is valid that a block of the current chain contains. Balances, events and the relay are left out.
- LightTxPool: missing headers, the canonical hash trie, lookup entries, `RemoveTransactions`.
- Encodings, databases, signatures, tries, the network, the console and other parts of the node.

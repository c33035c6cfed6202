# Verified models of an Ethereum node's core

A Dafny model of the parts of this go-ethereum fork in which several structures have to agree
after every step, with proofs of what they agree on. Objects whose methods update fields are
classes with the code's branches and error returns, and loops are loops with invariants. Two steps
of the pool, promotion and demotion of one account, first compute what will happen to the account
as a value (`TxAccounts.PlanFor`, `TxAccounts.DemotionFor`) and then carry it out.

* **Transaction pool** (`TxMaps`, `TxSorted`, `TxLists`, `TxPriced`, `TxAccounts`, `TxBooks`,
  `TxLimits`, `FairShare`, `TxChecks`, `TxTrail`, `TxPools`). Executable and queued lists, the
  lookup of all transactions, the price heap and the virtual nonces agree after every operation of
  every run. No transaction is lost without one of the reasons the code has for it, and what was
  accepted stays until one of them applies. At a fixed head an account's executable nonces are
  exactly those from its state nonce up to its virtual nonce, and nothing in its queue could be
  executed next. The slot equaliser is fair.
* **RLP** (`RlpSpec`, `RlpRaw`, `RlpEncode`, `RlpOutput`, `RlpStream`). The split-buffer encoder,
  in all three of its output forms, gives the recursive code of Appendix B of the Ethereum Yellow
  Paper; decoding is its exact inverse; the two parsers agree.
* **Chain index** (`ChainTree`, `HeaderChains`, `TxIndex`, `BlockChains`). The number index and the
  transaction lookup follow the head through every reorganisation.
* **Wire layer and events** (`RlpxFrames`, `RlpxTransport`, `Protocols`, `Dials`, `Feeds`). Frames
  round-trip and keep both parties in step; two peers agree on message codes; the dialer never
  dials twice; a feed delivers exactly once over every interleaving.
* **Gas and wei** (`IntrinsicGas`, `GasAccounting`). Conservation through a transaction and a block.
* `Heap`, `Sums` and `Basics` hold the binary heap of `container/heap`, sums over finite maps and
  small notions that several modules share.

Main theorems to read first: `TxPools.TxPool.Run` with `TxTrail.RunAccounted` and `TxTrail.RunKept`,
`TxTrail.HeadOrder`, `TxPools.TxPool.Equalise`, `RlpStream.DecodeBytes`,
`RlpOutput.ReadInPieces`, `HeaderChains.HeaderChain.WriteHeader`,
`BlockChains.BlockChain.WriteBlockWithState`, `RlpxTransport.Transfer`, `RlpxFrames.WrapBreaks`,
`Feeds.Feed.DoFinishSend`, `Protocols.Talk`, `Dials.DialState.NewTasks`,
`GasAccounting.StateTransition.TransitionDb`.

How the world is modelled: a hash stands for one value only, so transactions are compared as
values and headers by their identifier; sizes and gas are 64-bit where the code's width shows
(`U64`), nonces and wei are unbounded; time, random coins, the virtual machine, the discovery
table and the cryptography are parameters; headers carry the number of their parent plus one, and
no block repeats a transaction of its ancestry, as consensus demands; a map iterated by the code in
unspecified order is iterated here in any order.

Where code and comments disagree the model follows the code:

* `promoteExecutables` says that it drops the oldest queued transactions; it drops those of the
  most recently active accounts first (core/tx_pool.go:1038-1077, `TxLimits.QueueTrimmed`).
* `insert` says that it resets the head header if that is older; it does so only if the index did
  not hold the block at its number already (core/blockchain.go:467-490, `BlockChains.BlockChain.Insert`).
  When blocks are written with `WriteBlockWithState` that makes no difference: both other heads
  always follow the head.
* `WriteMsg` checks the frame size after a 32-bit addition, so a payload close to 4 GiB wraps
  around and is announced as a short frame; `RlpxFrames.WrapBreaks` gives the exact condition and
  `RlpxFrames.WrapExample` a message (p2p/rlpx.go:616-619).
* `Discard` says that it finds a number of transactions; it counts entries of the price heap, and a
  transaction that left the pool and came back can have two (core/tx_list.go:497-520,
  `TxPriced.DoubleEntry`). `TxPools.TxPool.MakeRoom` says when room is made all the same.
* `reset` leaves executable nonces with a gap if transactions come back incompletely
  (core/tx_pool.go:408-430, `TxAccounts.GapExample`); `TxTrail.HeadOrder` gives the exact condition.

## Model

| member | source | states |
|---|---|---|
| `TxMaps.FlatContents` | core/tx_list.go:203-216 | the flattened form of a nonce map is in ascending nonce order and holds exactly the map's transactions |
| `TxMaps.FlatUnique` | core/tx_list.go:203-216 | any ascending list of the map's transactions is that flattened form, so a cache is either it or wrong |
| `TxSorted.TxSortedMap.Put` | core/tx_list.go:73-79 | the map gains or overwrites one nonce; heap holds exactly the keys, a non-nil cache is the sorted contents |
| `TxSorted.TxSortedMap.Forward` | core/tx_list.go:84-98 | exactly the nonces below the threshold leave, each returned once, and the shifted cache is still the sorted contents |
| `TxSorted.TxSortedMap.Filter` | core/tx_list.go:102-123 | exactly the picked transactions leave, each returned once, heap and cache stay right |
| `TxSorted.TxSortedMap.Cap` | core/tx_list.go:127-148 | exactly the lowest nonces up to the count stay, the rest is returned, the cut cache is still the sorted contents |
| `TxSorted.TxSortedMap.Remove` | core/tx_list.go:152-169 | one nonce leaves map, heap and cache; reports whether it was there |
| `TxSorted.TxSortedMap.Ready` | core/tx_list.go:178-193 | exactly the maximal consecutive run from the lowest nonce leaves if that nonce is at or below the start, otherwise nothing |
| `TxSorted.TxSortedMap.Flatten` | core/tx_list.go:203-216 | returns the contents in nonce order, from the cache or sorted anew |
| `TxSorted.RunDone` | core/tx_list.go:178-193 | popping consecutive nonces until the next is missing has popped the maximal run |
| `TxLists.EarlyStop` | core/tx_list.go:290-300 | stopping at the caps returns exactly what the full filter would |
| `TxLists.FilterPartitions` | core/tx_list.go:290-314 | dropped, cut off and kept transactions partition the list, exactly the unpayable ones are dropped, the caps hold again |
| `TxLists.FilterPrefix` | core/tx_list.go:290-314 | a gap-free strict list stays a gap-free prefix, ending at the first dropped nonce |
| `TxLists.RemovePartitions` | core/tx_list.go:325-336 | removed, cut off and kept transactions partition the list |
| `TxLists.RemovePrefix` | core/tx_list.go:325-336 | a gap-free strict list is cut exactly at the removed nonce |
| `TxLists.CapPrefix` | core/tx_list.go:318-320 | a gap-free list stays a gap-free prefix of the capped length |
| `TxLists.AccountList.Add` | core/tx_list.go:251-272 | accepted exactly if the place is free or the price beats the old one by the bump; caps follow, the old one is returned |
| `TxLists.AccountList.Forward` | core/tx_list.go:277-279 | exactly the nonces below the threshold leave |
| `TxLists.AccountList.FilterTxs` | core/tx_list.go:290-314 | the list becomes its filtered value; dropped and cut off transactions are returned separately and completely |
| `TxLists.AccountList.Cap` | core/tx_list.go:318-320 | exactly the lowest nonces stay |
| `TxLists.AccountList.RemoveTx` | core/tx_list.go:325-336 | one nonce leaves, in strict mode with everything behind it, which is returned |
| `TxLists.AccountList.Ready` | core/tx_list.go:345-347 | the maximal ready run leaves and is returned |
| `TxPriced.PricedList.Put` | core/tx_list.go:414-416 | the heap gains exactly one entry |
| `TxPriced.PricedList.Removed` | core/tx_list.go:421-436 | no transaction of the pool loses its entry; past a quarter of stale entries the heap holds exactly the pool |
| `TxPriced.PricedList.Cap` | core/tx_list.go:440-467 | takes out exactly the remote transactions of the pool below the threshold, everything else keeps its entry |
| `TxPriced.PricedList.Underpriced` | core/tx_list.go:471-493 | for a remote transaction true exactly if the pool is not empty and nothing in it is cheaper; no transaction of the pool gains or loses an entry |
| `TxPriced.PricedList.Discard` | core/tx_list.go:497-520 | takes out entries of remote transactions only, none dearer than a remote one left, never more than asked for, and fewer only if none is left; all other entries of the pool stay, each as often as before |
| `TxPriced.DoubleEntry` | core/tx_list.go:421-436 | a transaction that leaves and comes back is in the heap twice, and asked for two transactions `Discard` then drops one |
| `TxPriced.DropsOnce` | core/tx_list.go:497-520 | if no transaction of the pool has two entries, as many transactions are dropped as entries |
| `TxAccounts.RemovedHolds` | core/tx_pool.go:863-902 | removal loses exactly the removed transaction of an account |
| `TxAccounts.RemovedContiguous` | core/tx_pool.go:863-902 | removal keeps executable nonces gap-free up to the virtual nonce and queued ones above it |
| `TxAccounts.PromotedContiguous` | core/tx_pool.go:921-961 | promotion leaves executable nonces gap-free from the state nonce and no queued transaction next in turn |
| `TxAccounts.PlanHolds` | core/tx_pool.go:921-961 | a promotion loses exactly what it drops as too old, unpayable or over the cap |
| `TxAccounts.PlanPromotes` | core/tx_pool.go:921-961 | the code's steps with the early stop of the filter amount to the promotion |
| `TxAccounts.DemotedHolds` | core/tx_pool.go:1083-1123 | demotion loses exactly the executable transactions that are too old or unpayable |
| `TxAccounts.SettledExactly` | core/tx_pool.go:415-430 | after demotion, renumbering and promotion at a new head an account's executable nonces are gap-free exactly if the account was settled: the executable nonces that stay reach from the state nonce without a gap, or nothing stays and the virtual nonce is right |
| `TxAccounts.ContiguousSettled` | core/tx_pool.go:415-430 | an account that was gap-free at the old head is settled at any new one |
| `TxAccounts.GapExample` | core/tx_pool.go:408-430 | executable 5, 6, 7 at state nonce 5, back to state nonce 3 with only nonce 3 taken in again: the result has a gap |
| `TxAccounts.DemotionDemotes` | core/tx_pool.go:1083-1123 | the code's steps amount to the demotion |
| `TxAccounts.Capped1Contiguous` | core/tx_pool.go:997-1009 | dropping the highest executable transaction keeps the nonces gap-free |
| `TxBooks.AgreeStep` | core/tx_pool.go:863-902 | changing one account keeps the books in agreement if that account's lists and the lookup change alike |
| `TxBooks.FreePlace` | core/tx_pool.go:1104-1116 | a transaction sent back to the queue finds its place free, so it is accepted and pushes nothing out |
| `TxBooks.Sanitized` | core/tx_pool.go:158-174 | price limit and price bump are at least one afterwards, and sensible settings do not change |
| `TxChecks.Validate` | core/tx_pool.go:554-595 | reports the first fault in the order of the checks, and none exactly if the transaction is sound |
| `TxPools.TxPool.constructor` | core/tx_pool.go:216-256 | an empty pool at the configured minimum price whose books agree, with nonsensical settings replaced by the defaults |
| `TxPools.TxPool.EnqueueTx` | core/tx_pool.go:678-701 | accepted exactly if the place is free or the bump is met; list, lookup and price heap change together |
| `TxPools.TxPool.PromoteTx` | core/tx_pool.go:719-752 | the same for executable lists; heartbeat and virtual nonce move, and a refused transaction leaves the lookup |
| `TxPools.TxPool.EnqueueAll` | core/tx_pool.go:885-887 | transactions sent back to the queue all arrive and the lookup does not change |
| `TxPools.TxPool.PromoteAll` | core/tx_pool.go:940-947 | a ready run becomes executable as a whole and the virtual nonce ends behind it |
| `TxPools.TxPool.RemoveTx` | core/tx_pool.go:863-902 | exactly one transaction leaves the pool, what was executable behind it is queued, other accounts do not change |
| `TxPools.TxPool.PromoteAccount` | core/tx_pool.go:921-961 | one account becomes its promotion, the books agree |
| `TxPools.TxPool.DemoteAccount` | core/tx_pool.go:1085-1122 | one account becomes its demotion, the books agree |
| `TxPools.TxPool.CapPending` | core/tx_pool.go:997-1009 | one account loses exactly its highest executable transaction, and its virtual nonce is lowered to it if it was higher |
| `TxPools.TxPool.CutRound` | core/tx_pool.go:994-1010 | each offender loses exactly one transaction and the counter is the true total |
| `TxPools.TxPool.EvenDown` | core/tx_pool.go:993-1011 | offenders are cut in step down to the target or until the pool fits, never without need |
| `TxPools.TxPool.Penalise` | core/tx_pool.go:982-1013 | the next longest account joins the offenders once they are as short as it |
| `TxPools.TxPool.Equalise` | core/tx_pool.go:967-1037 | one level at or above the guaranteed slots fits all: every remote account over its allowance ends with the smaller of its length and that level, losing its highest nonces; the total fits or the level is the guarantee, and one level higher would not fit; a pool that fits does not change |
| `FairShare.FairIsMildest` | core/tx_pool.go:967-1037 | at no other common level that fits would any account keep more |
| `FairShare.FairUndershoot` | core/tx_pool.go:967-1037 | if anything was cut, the total falls short of the limit by less than the number of accounts that were cut |
| `FairShare.Shortened` | core/tx_pool.go:967-1037 | whoever is cut was over the guarantee, keeps at least that, and the total was over the limit |
| `TxLimits.LimitsFit` | core/tx_pool.go:967-1077 | afterwards both limits are met or only exempt accounts exceed them |
| `TxPools.TxPool.TrimAccount` | core/tx_pool.go:1055-1075 | an account's queue loses as many of its highest nonces as needed, or all |
| `TxPools.TxPool.TrimQueue` | core/tx_pool.go:1038-1077 | over the limit the queue total is brought to exactly the limit or only local accounts are left; local accounts lose nothing, and whoever was active after somebody who lost anything has nothing left |
| `TxPools.TxPool.PromoteExecutables` | core/tx_pool.go:907-1078 | the given accounts are promoted exactly, then the fair cut and the queue trim apply; accounts get in order, limits hold, queues are within the account limit |
| `TxPools.TxPool.MakeRoom` | core/tx_pool.go:618-633 | a full pool refuses a remote transaction exactly if nothing in it is cheaper; otherwise it drops its cheapest remote entries, exactly as many as it must unless only local ones are left; if no transaction has two entries there is room afterwards or only local ones are left |
| `TxPools.TxPool.ReplacePending` | core/tx_pool.go:634-659 | an executable transaction is replaced exactly if the bump is met; nothing else changes |
| `TxPools.TxPool.AddQueued` | core/tx_pool.go:660-673 | a new transaction is queued without disturbing executable ones |
| `TxPools.TxPool.Place` | core/tx_pool.go:634-673 | the transaction is where its nonce belongs, what was there left at a better price; the sender becomes local exactly if it asked for it and the transaction was queued |
| `TxPools.TxPool.Add` | core/tx_pool.go:605-673 | success only for an unknown sound transaction, refusal only for a reason that holds; the pool afterwards is exactly the pool before without the entries dropped to make room and without what was replaced, and with the new transaction; the local accounts are stated exactly; unless a transaction has two heap entries the pool is within its limit or the rest is local |
| `TxPools.TxPool.AddTx` | core/tx_pool.go:783-798 | one submission as in `Add`, then exactly its account is promoted and the limits applied if something new came in; executable nonces stay gap-free and maximal |
| `TxPools.TxPool.AddTxs` | core/tx_pool.go:810-833 | a chain of submissions, each from where the one before ended and each with its own result, then exactly the accounts that got something new are promoted and the limits applied |
| `TxPools.TxPool.DemoteUnexecutables` | core/tx_pool.go:1083-1123 | every account becomes its demotion and no empty list is left |
| `TxPools.TxPool.Reset` | core/tx_pool.go:408-430 | the reinjected batch at the new state, then the demotion of every account, then the promotion of every account with a queue and the limits; executable nonces are gap-free if all accounts are settled before demotion, and if nothing is cut exactly then; in particular if nothing is reinjected |
| `TxPools.TxPool.SetGasPrice` | core/tx_pool.go:463-472 | exactly the remote transactions under the new price leave the pool |
| `TxPools.TxPool.Evict` | core/tx_pool.go:311-326 | exactly the queues of remote accounts that have been quiet for too long are emptied |
| `TxPools.TxPool.Run` | core/tx_pool.go:261-338 | over every sequence of submissions, batches, price changes, evictions and head changes the books agree, and the run is a chain of steps each of which did what its operation is for; executable nonces stay gap-free as long as no head change reinjects into unsettled accounts |
| `TxTrail.TurnLoses` | core/tx_pool.go:605-673 | a submission loses a transaction only to one at the same place with a better price, or because it is among the cheapest remote ones of a full pool |
| `TxTrail.RoomForOne` | core/tx_pool.go:618-633 | with room made, the pool is within its limit after the submission or all others are local |
| `TxTrail.BatchLoses` | core/tx_pool.go:810-833 | what a batch loses, one of its submissions has superseded |
| `TxTrail.BatchBrings` | core/tx_pool.go:810-833 | what a batch brings is a submission that was accepted |
| `TxTrail.PromotionLoses` | core/tx_pool.go:907-1078 | promotion loses a transaction only if it was queued and too old, unpayable or behind a full account queue; or executable and cut while its remote account keeps its guaranteed number of earlier ones and there were too many; or queued and trimmed while there were too many, with later ones of the account and of accounts active after it gone as well |
| `TxTrail.DemotionLoses` | core/tx_pool.go:1083-1123 | demotion loses executable transactions only, and only those too old or unpayable |
| `TxTrail.Accounted` | core/tx_pool.go:261-338 | whatever the pool holds at some point of an operation and not at its end left for one of these reasons, for a price under the new minimum, or for the silence of its account |
| `TxTrail.NewKept` | core/tx_pool.go:605-673 | an accepted transaction is in the pool at the end of the operation unless it left for one of the reasons after it was accepted |
| `TxTrail.NothingElse` | core/tx_pool.go:605-673 | nothing comes into the pool but what was submitted and accepted |
| `TxTrail.HeadOrder` | core/tx_pool.go:408-430 | after a change of head all accounts are in order if all were settled before demotion, and unless something had to be cut only then |
| `TxTrail.OrderSettled` | core/tx_pool.go:408-430 | a pool in order at the old head is settled at any new one |
| `TxTrail.RunAccounted` | core/tx_pool.go:261-338 | what is in the pool at some point of a run and not at its end left in one of the later events for one of the reasons |
| `TxTrail.RunKept` | core/tx_pool.go:261-338 | what was accepted anywhere in a run is in the pool at the end, or left for one of the reasons later in the same event or in a later one |
| `RlpSpec.BigEndianInverse` | rlp/encode.go:585-640 | reading big-endian digits gives the number back, and there is no leading zero |
| `RlpEncode.IntSize` | rlp/encode.go:643-649 | the number of bytes of the shortest big-endian form |
| `RlpEncode.PutInt` | rlp/encode.go:585-640 | writes exactly the shortest big-endian form and nothing else of the buffer |
| `RlpEncode.HeadSize` | rlp/encode.go:141-146 | the exact length of a header |
| `RlpEncode.PutHead` | rlp/encode.go:150-158 | writes exactly the header of Appendix B, needing no more room than its length |
| `RlpEncode.UintCode` | rlp/encode.go:390-404 | the three forms of an integer are the code of its digits |
| `RlpEncode.EncBuf.EncodeString` | rlp/encode.go:201-209 | appends the string's code |
| `RlpEncode.EncBuf.WriteUint` | rlp/encode.go:390-404 | appends the code of the integer's digits |
| `RlpEncode.EncBuf.ListEnd` | rlp/encode.go:217-224 | fixes the recorded size of a list and counts its header |
| `RlpEncode.SpliceJoin` | rlp/encode.go:230-246 | splicing headers into a concatenation is concatenating the spliced parts |
| `RlpEncode.EncBuf.EncodeItem` | rlp/encode.go:181-224 | for any nested value the buffer gains exactly its recursive code once headers are spliced in, and the size grows by its length |
| `RlpEncode.EncBuf.ToBytes` | rlp/encode.go:230-246 | the copied-out array is the spliced buffer, filled exactly |
| `RlpEncode.EncBuf.ToWriter` | rlp/encode.go:248-270 | the writer gets the spliced buffer, or as much as it has room for |
| `RlpOutput.EncReader.Read` | rlp/encode.go:281-302 | fills the buffer with the next bytes of the encoding, reports the end exactly when nothing is left over |
| `RlpOutput.EncReader.Next` | rlp/encode.go:306-337 | moving to the next piece changes nothing of what is still to be read |
| `RlpOutput.EncodeToBytes` | rlp/encode.go:97-105 | the output is the recursive code of the value |
| `RlpOutput.EncodeTo` | rlp/encode.go:80-93 | the same through a writer, with its failure |
| `RlpOutput.EncodeToReader` | rlp/encode.go:112-119 | the announced size is the exact length, and the reader will deliver the code |
| `RlpOutput.ReadAll` | rlp/encode.go:281-337 | any sequence of buffer sizes delivers what is left, in order and without gaps |
| `RlpOutput.ReadInPieces` | rlp/encode.go:281-337 | for a value: reads of any sizes give a prefix of its code, and all of it exactly when they ask for enough |
| `RlpRaw.HeadSound` | rlp/raw.go:86-125 | an accepted header is the canonical one of its content |
| `RlpRaw.StrHeadComplete` | rlp/raw.go:86-125 | the code of every string is accepted and split off |
| `RlpRaw.ListHeadComplete` | rlp/raw.go:86-125 | the code of every list is accepted and split off |
| `RlpRaw.SplitStringExact` | rlp/raw.go:49-58 | splits a string and a rest exactly if the bytes are that string's code and that rest |
| `RlpRaw.SplitListExact` | rlp/raw.go:62-71 | the same for lists |
| `RlpRaw.PrefixFree` | rlp/raw.go:86-156 | bytes start with the code of at most one value |
| `RlpRaw.CountValues` | rlp/raw.go:74-84 | counts the values the bytes split into, or fails where the splitting does |
| `RlpRaw.CountEncodings` | rlp/raw.go:74-84 | n concatenated codes are n values |
| `RlpStream.HeadsAgree` | rlp/decode.go:902-988 | both header readers accept the same headers except that only the raw one refuses a needless header of a single byte at once |
| `RlpStream.StringsAgree` | rlp/decode.go:648-669 | a stream reads a string exactly if the raw parser splits one, with the same content and rest |
| `RlpStream.ListsAgree` | rlp/decode.go:757-769 | the same for lists |
| `RlpStream.Stream.WillRead` | rlp/decode.go:1016-1034 | reading is allowed exactly within the innermost list and the input |
| `RlpStream.Stream.ReadUint` | rlp/decode.go:964-988 | the number of the bytes read, refused with leading zeros |
| `RlpStream.Stream.Kind` | rlp/decode.go:869-900 | kind and size of the value ahead, or the error of its header |
| `RlpStream.Stream.Bytes` | rlp/decode.go:648-669 | the string at this place, the stream behind it, and the enclosing lists advanced by its length |
| `RlpStream.Stream.Raw` | rlp/decode.go:672-694 | exactly the bytes that are consumed, header included |
| `RlpStream.Stream.Uint` | rlp/decode.go:703-734 | the integer at this place in canonical form, or the matching error |
| `RlpStream.UintExact` | rlp/decode.go:703-734 | an integer is read exactly if it fits and the bytes start with its code |
| `RlpStream.Stream.ListBegin` | rlp/decode.go:757-769 | enters a list of the announced size |
| `RlpStream.Stream.ListEnd` | rlp/decode.go:773-788 | leaves a list exactly at its end and advances the enclosing one |
| `RlpStream.Stream.DecodeInterface` | rlp/decode.go:511-533 | reads the one value whose code starts here, and fails only where none does |
| `RlpStream.Stream.DecodeListSlice` | rlp/decode.go:323-365 | reads the elements of a list to its end |
| `RlpStream.DecodeBytes` | rlp/decode.go:136-146 | accepts exactly the codes of values: whatever is accepted re-encodes to the same bytes, and the code of every value decodes to it |
| `ChainTree.MeetBelow` | core/headerchain.go:166-178 | two ancestries that meet at a height agree below it |
| `HeaderChains.RoutedUnique` | core/headerchain.go:134-195 | a head has one index only |
| `HeaderChains.HeaderChain.constructor` | core/headerchain.go:73-109 | a chain of the genesis alone |
| `HeaderChains.HeaderChain.ClearAbove` | core/headerchain.go:158-165 | deletes exactly the entries above the new head, and ends |
| `HeaderChains.HeaderChain.Reroute` | core/headerchain.go:166-178 | overwrites entries downwards until one is right, and then all are; the walk ends at the genesis at the latest |
| `HeaderChains.HeaderChain.WriteHeader` | core/headerchain.go:134-195 | the index is exactly the current header's ancestry with nothing above, total difficulties are sums along the ancestry, the current header is heaviest; moves exactly if heavier, or as heavy and the coin says so |
| `HeaderChains.HeaderChain.InsertHeaderChain` | core/headerchain.go:259-285 | known headers are skipped, others written, the first without a known parent stops the run |
| `TxIndex.ScanFinds` | core/rawdb/accessors_indexes.go:45-60 | every entry of a scan points at its transaction in a block of the chain |
| `TxIndex.ScanComplete` | core/rawdb/accessors_indexes.go:45-60 | every transaction of the chain has an entry |
| `TxIndex.PartApart` | core/blockchain.go:1326-1342 | what a stretch of chain adds to the lookup is not in the chain below it |
| `BlockChains.BlockChain.Insert` | core/blockchain.go:473-490 | index and head take the block; head header and fast head follow exactly if the index changed |
| `BlockChains.BlockChain.WriteLookup` | core/rawdb/accessors_indexes.go:45-60 | the lookup gains exactly the block's entries |
| `BlockChains.BlockChain.FindCommon` | core/blockchain.go:1274-1312 | both walks arrive at the highest common ancestor, with the new blocks listed from the tip and the transactions of the abandoned ones collected; the error returns are not reached |
| `BlockChains.BlockChain.Adopt` | core/blockchain.go:1325-1333 | the new blocks enter index and lookup from the lowest up |
| `BlockChains.TxDifference` | core/types/transaction.go:279-294 | the transactions of a list that are not in another, in their order |
| `BlockChains.BlockChain.DropLost` | core/blockchain.go:1334-1340 | exactly the entries of abandoned transactions that were not adopted go |
| `BlockChains.MetLookup` | core/blockchain.go:1326-1340 | adding the new stretch and dropping the lost entries turns the scan of one head into the scan of the other |
| `BlockChains.BlockChain.Reorg` | core/blockchain.go:1246-1340 | never fails; the index follows the new block and the lookup is the scan of its chain |
| `BlockChains.BetterIsFresh` | core/blockchain.go:473-490 | a block that wins the fork choice is not yet in the index at its number unless it is the head, so the other heads follow |
| `BlockChains.BlockChain.WriteBlockWithState` | core/blockchain.go:877-994 | up to the head's number the index is the head's ancestry, all its entries are known blocks, the lookup is the scan of that chain, no block is heavier than the head and none as heavy is shorter, head header and fast head are the head; moves exactly as weight, number and coin decide |
| `RlpxFrames.CipherTwice` | p2p/rlpx.go:622-690 | the same stretch of key stream decrypts what it encrypted |
| `RlpxFrames.Int24Inverse` | p2p/rlpx.go:734-742 | sizes below 2^24 survive the three bytes |
| `RlpxFrames.RoundTrip` | p2p/rlpx.go:600-720 | a reader in step accepts both hashes, gets code and payload as sent, leaves the following bytes, and is in step again |
| `RlpxFrames.FrameExact` | p2p/rlpx.go:600-720 | what the writer accepts comes back as sent exactly if the announced size is the true one |
| `RlpxFrames.WrapBreaks` | p2p/rlpx.go:615-619 | for a message that states its size truly that is the case exactly if the 32-bit sum has not wrapped around |
| `RlpxFrames.WrapExample` | p2p/rlpx.go:615-619 | a message of 4 GiB less one byte is accepted as an empty frame and does not come back |
| `RlpxTransport.FrameRW.UpdateMac` | p2p/rlpx.go:724-732 | hash state and tag after whitening with the encrypted sum |
| `RlpxTransport.FrameRW.WriteMsg` | p2p/rlpx.go:600-651 | accepts exactly stated sizes whose 32-bit sum with the code is below 2^24; writes the frame with padding and both tags and advances cipher and hash |
| `RlpxTransport.FrameRW.ReadMsg` | p2p/rlpx.go:653-720 | reads what the frame says, or fails for the first reason that holds |
| `RlpxTransport.SendAll` | p2p/rlpx.go:600-651 | the frames of the messages one after the other |
| `RlpxTransport.ReceiveAll` | p2p/rlpx.go:653-720 | from frames of a side in step exactly their messages, leaving what follows |
| `RlpxTransport.Transfer` | p2p/rlpx.go:600-720 | any messages within the limit arrive as sent and the two sides are in step again |
| `Feeds.Feed.constructor` | event/feed.go:61-66 | a feed without subscriptions |
| `Feeds.Feed.Find` | event/feed.go:213-220 | the first case of a channel, or none |
| `Feeds.Feed.Delete` | event/feed.go:223-225 | exactly one case goes, later ones move down in the shared array |
| `Feeds.Feed.Deactivate` | event/feed.go:228-232 | one case moves behind the active prefix, which shrinks by one |
| `Feeds.Feed.DoSubscribe` | event/feed.go:73-93 | one more subscription, in the inbox |
| `Feeds.Feed.DoUnsubscribe` | event/feed.go:104-116 | gone at once if in the inbox, otherwise about to leave and then certainly among the cases |
| `Feeds.Feed.DoLeaveIdle` | event/feed.go:118-124 | with the send lock the case is found and deleted |
| `Feeds.Feed.DoStartSend` | event/feed.go:132-155 | the inbox moves to the cases; everyone subscribed or leaving is to get the value |
| `Feeds.Feed.DoDeliver` | event/feed.go:159-181 | one active channel gets the value and is no longer active |
| `Feeds.Feed.DoLeaveSending` | event/feed.go:171-178 | a leaving channel is taken out; it is dropped from the delivery exactly if it was still active |
| `Feeds.Feed.DoFinishSend` | event/feed.go:167-190 | everyone present at the start has got the value exactly once or left first; the result counts the deliveries |
| `Feeds.Feed.Run` | event/feed.go:104-190 | over every interleaving each subscription has exactly one entry in inbox or cases, the active cases are a prefix, and the delivery books agree |
| `Protocols.MatchProtocols` | p2p/peer.go:311-333 | each shared name has one slot for its highest shared version, and slots follow each other in order of names from code 16 on |
| `Protocols.LayoutUnique` | p2p/peer.go:311-333 | names, versions and lengths determine the offsets |
| `Protocols.EndsAgree` | p2p/peer.go:311-333 | both ends get the same layout if they give shared versions the same lengths |
| `Protocols.SlotsApart` | p2p/peer.go:311-333 | slots do not overlap |
| `Protocols.Covered` | p2p/peer.go:311-333 | slots cover all codes up to their total length |
| `Protocols.GetProto` | p2p/peer.go:363-370 | finds the protocol that owns a code, or none if none does |
| `Protocols.WriteCode` | p2p/peer.go:382-399 | codes outside the protocol's range are refused, others moved into its slot |
| `Protocols.ReadCode` | p2p/peer.go:401-409 | every code of the layout reaches its owner with its local code |
| `Protocols.Talk` | p2p/peer.go:311-409 | a code sent by a protocol at one end reaches the same protocol with the same code at the other, and is sent exactly if the highest shared version allows it |
| `Dials.Expire` | p2p/dial.go:415-419 | exactly the entries that are due go |
| `Dials.RemoveDial` | p2p/dial.go:398-406 | exactly the entry of a node goes, if there is one |
| `Dials.DialState.CheckDial` | p2p/dial.go:263-278 | no error exactly if the node is eligible, otherwise a reason that holds |
| `Dials.DialState.AddStatic` | p2p/dial.go:148-152 | one more static node |
| `Dials.DialState.RemoveStatic` | p2p/dial.go:154-160 | exactly the node's entries leave the history, so it may be dialed at once |
| `Dials.DialState.TaskDone` | p2p/dial.go:280-289 | the finished dial leaves `dialing` and enters the history; lookup results are queued |
| `Dials.DialState.StaticDials` | p2p/dial.go:194-205 | every eligible static node is dialed, and only hopeless ones are forgotten |
| `Dials.DialState.DynamicDials` | p2p/dial.go:220-236 | candidates are dialed in order while places are free, each tried one is dialed or ineligible |
| `Dials.DialState.FindPeers` | p2p/dial.go:206-237 | a bootnode when there is nobody at all, random nodes for half of the free places, then lookup results fill free places and no more; whoever was tried is dialed or was not eligible |
| `Dials.DialState.KeepTicking` | p2p/dial.go:238-251 | a lookup if candidates are wanting and none runs, a timer for the next expiry if there is nothing else |
| `Dials.DialState.NewTasks` | p2p/dial.go:162-253 | `dialing` is exactly the dials handed out and not done; new ones were eligible; dynamic dials never exceed their number; at most one lookup is out |
| `Dials.NoDoubleDial` | p2p/dial.go:162-253 | no node is handed out twice, nor one that is dialed, connected or self |
| `IntrinsicGas.ComputeIntrinsic` | core/state_transition.go:79-109 | the 64-bit computation gives the price without a width, and fails exactly if that does not fit |
| `GasAccounting.GasPool.AddGas` | core/gaspool.go:29-35 | adds; its requires is the absence of the panic |
| `GasAccounting.GasPool.SubGas` | core/gaspool.go:39-45 | takes exactly if there is enough |
| `GasAccounting.PaidSum` | core/state_transition.go:152-245 | buying, running and settling create and destroy no wei |
| `GasAccounting.StateTransition.UseGas` | core/state_transition.go:143-150 | takes exactly if there is enough |
| `GasAccounting.StateTransition.BuyGas` | core/state_transition.go:152-165 | the sender prepays all gas and the pool shrinks by it, or nothing changes and the reason is given |
| `GasAccounting.StateTransition.PreCheck` | core/state_transition.go:167-178 | nonce errors exactly for a wrong nonce; otherwise buys gas |
| `GasAccounting.StateTransition.RefundGas` | core/state_transition.go:230-245 | the refund is at most half of what was used; unused gas goes back to sender and pool without overflow |
| `GasAccounting.StateTransition.TransitionDb` | core/state_transition.go:183-228 | a success keeps the total of balances, shrinks the pool by the gas used, uses between half the intrinsic gas and the message gas, and pays sender and miner exactly; each error is returned exactly when its reason holds; failures before gas is bought change nothing |
| `GasAccounting.Process` | core/state_processor.go:55-122 | used gas and pool remainder add up to the gas limit, transactions keep the total of balances, the result is what `Finalize` makes of the state after the last one, receipts cumulate, each transaction starts where the one before ended; an error is that of the first transaction that fails there |
| `GasAccounting.SetReceiptsData` | core/blockchain.go:737-772 | each receipt gets its transaction's hash, the sender and nonce of a created contract, the 64-bit difference of cumulative gas, and logs numbered through the block with block and place; refused if counts differ |
| `GasAccounting.DerivedIsUsed` | core/blockchain.go:755-760 | for receipts of a processed block the derived gas is the gas each transaction used |
| `Heap.Up` | metrics/sample.go:583-592 | restores heap order above a new leaf |
| `Heap.Down` | metrics/sample.go:594-610 | restores heap order below an exchanged entry |
| `Heap.Push` | metrics/sample.go:557-562 | adds one entry in heap order |
| `Heap.Pop` | metrics/sample.go:564-573 | takes out a least entry, the rest stays in heap order |

## Left out

- TxPools.TxPool.Reset: the transactions to reinject are a parameter; the walk over old and new blocks that collects them is not modelled there.
- TxTrail.HeadOrder: if the equaliser had to cut, order afterwards is proved from settled accounts only, since a cut can happen to take away what lies behind a gap.
- TxPools.TxPool: keeps its lists as values; the class `TxLists.AccountList` refines them, but that pool and list share an object is not modelled.
- TxPools.TxPool.constructor: the journal of local transactions is not loaded.
- Clearing of canonical numbers above a shorter new head in `BlockChain.reorg`: the code does not do it.
- An exact count of stale entries in the price heap: a transaction that is dropped and comes back leaves two entries.
- Error paths of `TransitionDb` after gas was bought leave balances and pool debited; the caller discards the state.
- GasAccounting.StateTransition.TransitionDb: takes any machine that returns no more gas than it got and keeps the total of balances; the virtual machine itself is not modelled.
- GasAccounting.Process: block rewards and the rest of `Finalize` are a function that is passed in; what it does to balances is not stated.
- HeaderChains.HeaderChain.constructor: a head stored in the database is not loaded; the chain starts at the genesis.
- Header chains and fast sync that run ahead of the blocks in `BlockChain`, database batches and write failures, caches of headers and total difficulties.
- RlpStream.Stream.Kind: the sticky error of a stream after a failed header and streams without an input limit are not modelled.
- RlpStream.Stream.ListEnd: does not promise a valid stream, because the invariant speaks of the innermost list only; `DecodeListSlice` promises it for the lists it opens and closes.
- Reflection in the RLP package: values are a datatype of byte strings and lists.
- Float priorities of the spammer queue, 64-bit nonces and 64-bit message offsets: exact numbers are used.
- Real cryptography, the handshake and snappy compression: the key stream, the hash and the block cipher are arbitrary functions.
- Feeds.Feed.DoDeliver: the order in which a Send tries its channels is not modelled, nor the type check of values.
- RlpxTransport.FrameRW.ReadMsg: what is left of cipher and hash state after a failed read is not stated; the connection is closed then.
- Journal, logging, metrics, locks, subscriptions and the node's start-up.

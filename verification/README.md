# Verified core of go-tilt

A Dafny model of six parts of the go-tilt node, and proofs of what they promise. The model follows
the code branch by branch; state that the code updates in place is a class with the same fields,
loops are loops with invariants.

* **Canonical chain** (`BlockTree`, `HeaderChain`, `BlockChain`): a growing block tree with total
  difficulties, the number-to-hash index and the transaction table, rewritten in place by header
  writes, block writes and reorganisations under the heaviest-chain rule (section 10, "Blocktree to
  Blockchain", of the Ethereum Yellow Paper).
* **RLP** (`RlpSpec`, `RlpRaw`, `RlpEncode`, `RlpDecode`): the recursive encoding of Appendix B of
  the Ethereum Yellow Paper as the reference, the two-pass encoder with deferred list headers, the
  reader over it, the stream decoder with its stack of lists, and the slice reader.
* **Transaction pool** (`MinHeap`, `Nonces`, `TxList`, `RateLimit`, `PoolIndex`, `PoolSteps`,
  `PoolDrops`, `PoolStrays`, `PoolLaws`, `TxPool`, `PoolRun`): nonce maps with heap and cache, strict
  and gapped lists with a cost cap, the pending rate limiter, and the pool itself.
* **Gas accounting** (`Gas`, `GasLaws`): buying, using and refunding gas for a message and a block
  (section 6, "Transaction Execution", of the Ethereum Yellow Paper).
* **Event feed** (`Feed`): delivery to all subscribers while some join and some leave.
* **Peers** (`PeerMux`, `Dial`): negotiation of protocols and message codes ("Capability Messaging"
  in the devp2p RLPx specification), and the dial scheduler inside the server loop.

`Wrappers`, `Collections` and `Sums` hold what several parts share.

Check everything with `dafny verify dfyconfig.toml`.

## Conventions

* The database is a map. A header carries its hash; that different headers of a run have different
  hashes, none of them zero, is a precondition of the chain operations (`Fresh`, `NoCollisions`,
  `DistinctBlocks`), as are the checks of the consensus engine: a block's number is one above its
  parent's.
* Coin flips, channel readiness, map iteration order, arriving events, clock values, random nodes
  and lookup results are parameters or nondeterministic choices, so every statement holds for all
  of them.
* Readers hand out their bytes in chunks of any size. Whether the end of file comes along with the
  last of them, or on a read of its own, is a parameter of the stream. The last bytes are handed out
  once, so this includes readers that combine the two on some reads only. The longest slice that the
  runtime can make is a parameter too.
* The virtual machine is a function parameter that returns no more gas than it was given.
* The transactions of the pool carry the sender and the cost the code would compute; whether a
  transaction is valid for the current head is a parameter of the call.
* Integers are unbounded except where the code's width matters: gas counters are 64-bit, RLP sizes
  are below 2^64.

## Where code and documentation differ, and where a promise fails

* `Stream.Raw` writes the tag 0xB8 plus length for long strings where the encoder uses 0xB7.
  `RlpDecode.Stream.Raw` proves that it reproduces its input exactly when the value is not a string
  of 56 bytes or more; `RlpDecode.RawDiffersOn` is such a string.
* On a stream without limit `Stream.Bytes` and `Stream.Raw` make a slice of any announced size, and
  `Raw` adds the header length in 64 bits first, so they panic on sizes that the runtime cannot make,
  as the documentation of `Decode` warns. Their contracts say exactly when; `RlpDecode.HugeSizePanics`
  is an input of nine bytes.
* `readKind` of the slice reader indexes past the end of the one-byte input 0x81, and of no other
  (`RlpRaw.ReadKindPanics`). `CountValues` does so exactly on inputs that end in 0x81 after bytes
  that count (`RlpRaw.CountPanics`), for instance on 0x01 0x81 (`RlpRaw.CountPanicsOn`).
* `Stream.readFull` reports an unexpected end of file with all bytes in hand when the reader reports
  the end of file along with the last of them, as an `io.Reader` may. `RlpDecode.EagerReaderLoses`
  is such an input; the contracts of `RlpDecode.Stream` say exactly which values are lost.
* Removing a queued transaction whose nonce is also pending takes the pending one out too and may
  send others back into the queue. `PoolDrops.RemovalShrinks` says exactly when the queue gets
  shorter, `PoolRuns.QueueRefills` is a run on which it does not. The overflow loop therefore meets
  the queue limit if and only if nothing comes back into the queues it cuts
  (`TxPools.TxPool.DropOverflow`), and an idle account loses its queue if and only if nothing comes
  back into it (`PoolDrops.ExpiryExact`).
* The pool's index keeps transactions that no list has any more. `PoolStrays` says for every step
  exactly which, and when everything indexed stays filed: the limiter leaves what it cuts
  (`PoolStrays.LimitedFiled`), demotion what the queue turns down (`PoolStrays.DemotedFiled`), and a
  removal other transactions of the removed nonce, pending ones above it when none is pending below,
  and returned ones that the queue turns down (`PoolStrays.RemovalStrays`). The overflow and expiry
  loops leave none if and only if no nonce they remove is pending as well (`PoolStrays.CutAllFiled`).
  `PoolRuns.QueueRefills` is a run that leaves one, `PoolStrays.RefillStrays` a single step.
* The index keeps entries above a shorter new head: it is exact for the head if and only if there
  were none (`BlockChains.BlockChain.WriteBlock`, with a run in `BlockChains.EntriesLeft`).
* A reorganisation that drops blocks leaves the header and fast heads at the lowest new block, so
  they lag if and only if more than one block is new (`BlockChains.ReorgHeads`, with a run in
  `BlockChains.HeadsLag`). `BlockChains.BlockChain.WriteBlock` has the condition for all head moves.
* `refundGas` multiplies the state's refund counter by the gas price in place, although `GetRefund`
  forbids it: `Gas.CounterSpoiled` says exactly when it changes. The counter is reset before the next
  message of a block, so none sees it (`Gas.CounterForgotten`).
* A message may pay its fee, or gas back, to an account that it destroys, and the money goes with the
  account: `Gas.FeeLost` is such a message. `Gas.MessageConserves` and `Gas.BlockSpares` say exactly
  when a message and the messages of a block conserve the total balance.
* A message of an account that is deleted with nonce zero can be applied again, as the account starts
  at nonce zero anew; `GasLaws.NoReplay` says that this is the only case.

## Model

| member | source | states |
|---|---|---|
| `BlockTree.FindCommonAncestor` | core/database_util.go:653-677 | returns a header exactly when the two have a common stored ancestor, and then the deepest one |
| `BlockTree.DeepestCommonUnique` | core/database_util.go:653-677 | there is only one deepest common ancestor |
| `BlockTree.SharedBelow` | core/blockchain.go:1121-1139 | below a common ancestor two chains have the same ancestor at every number |
| `BlockTree.FileHeader` | core/database_util.go:335-352 | filing a header with a known parent and a new hash keeps the store a tree rooted in genesis |
| `BlockTree.AncestorExists` | core/headerchain.go:131-195 | every stored header has a stored ancestor at each lower number, so walks towards genesis meet no gap |
| `HeaderChains.WriteKeeps` | core/headerchain.go:131-195 | one write keeps the tree rooted, every stored total difficulty equal to the sum along its path, and the head at least as heavy as every header |
| `HeaderChains.WriteDecides` | core/headerchain.go:131-195 | what a write does, by the difficulties along the paths: nothing without a stored parent; else the header is filed and becomes the head if its path is heavier than that of the head, or as heavy and the coin says so |
| `HeaderChains.RunSafe` | core/headerchain.go:131-195 | the same over every run of writes from genesis, whatever the coin flips |
| `HeaderChains.CanonUnique` | core/headerchain.go:155-184 | an index that is exact for a head is determined by the head |
| `HeaderChains.WriteKeepsCanon` | core/headerchain.go:131-195 | filing a header that does not become the head leaves an exact index exact |
| `HeaderChains.MeetsBelow` | core/headerchain.go:164-176 | where the rewrite stops, the old entries below already name the ancestors of the new head |
| `HeaderChains.HeaderChain.constructor` | core/headerchain.go:71-107 | a chain with only genesis is valid |
| `HeaderChains.HeaderChain.DropFrom` | core/headerchain.go:156-163 | deletes exactly the entries above the new head |
| `HeaderChains.HeaderChain.Reroute` | core/headerchain.go:164-176 | after the rewrite loop every number below the new head names its ancestor; the loop terminates and never runs past genesis |
| `HeaderChains.HeaderChain.MakeCanonical` | core/headerchain.go:155-184 | the index becomes exactly the ancestor path of the new head with nothing above it |
| `HeaderChains.HeaderChain.File` | core/headerchain.go:142-151 | stores the header and its total difficulty, keeping the tree and the index of the current head |
| `HeaderChains.HeaderChain.WriteHeader` | core/headerchain.go:131-195 | the new tree is the abstract write of the old one, the status is the heaviest-chain decision, and the index stays exact |
| `HeaderChains.RunHeaders` | core/headerchain.go:131-195 | over every run of header writes the index is exactly the ancestor path of the current header and the head is heaviest |
| `BlockChains.FindFork` | core/blockchain.go:1099-1139 | the two-cursor walk returns the deepest common ancestor and exactly the blocks above it on both sides, or nothing when there is no common ancestor |
| `BlockChains.BothMeet` | core/database_util.go:653-677 | this search and the walk of a reorganisation stop at the same header, or both find none |
| `BlockChains.ReorgCanon` | core/blockchain.go:1151-1155 | indexing the new chain, newest first, makes the index the ancestor path of the new tip |
| `BlockChains.ReorgHeads` | core/blockchain.go:1151-1155 | after a reorganisation that drops blocks the header and fast heads are at the lowest new block, so at the tip if and only if it is the only one |
| `BlockChains.FollowExactly` | core/blockchain.go:444-466 | after inserting a chain newest first the header and fast heads are at the tip if and only if the index named every lower block of it, and either did not name the tip or they were there before |
| `BlockChains.AboveDecides` | core/blockchain.go:1151-1155 | the index is exact for the new head if and only if no old entry lay above it |
| `BlockChains.ReorgExact` | core/blockchain.go:1151-1179 | filing the new transactions and deleting the difference leaves exactly the transactions of the new chain, at their positions |
| `BlockChains.NewTxFound` | core/blockchain.go:1151-1179 | every transaction on the new chain is found at its position: shared ones are re-pointed |
| `BlockChains.KeptTxValid` | core/blockchain.go:1151-1179 | everything left in the table is on the new chain: dropped ones are gone |
| `BlockChains.TipFiled` | core/blockchain.go:991-994 | filing the transactions of a new head completes the table of its parent and is harmless after a reorganisation |
| `BlockChains.TxDifference` | core/types/transaction.go:334-349 | keeps exactly the transactions of the first list that are not in the second |
| `BlockChains.BlockChain.constructor` | core/blockchain.go:118-156 | a chain with only genesis is valid and its table exact |
| `BlockChains.BlockChain.Insert` | core/blockchain.go:444-466 | sets the head and its index entry; the header and fast heads move to the block exactly when the index named another one at its number |
| `BlockChains.BlockChain.WriteTransactions` | core/database_util.go:423-459 | files each transaction of a block under its block hash, number and position |
| `BlockChains.BlockChain.InsertAll` | core/blockchain.go:1151-1170 | inserts the new chain newest first and files its transactions; says exactly where the header and fast heads end and that entries above are kept |
| `BlockChains.BlockChain.DeleteTransactions` | core/database_util.go:528-531 | removes exactly the given transactions from the table |
| `BlockChains.BlockChain.Reorg` | core/blockchain.go:1076-1179 | with all ancestors stored it never fails, stops at the deepest common ancestor, and makes both indices exact up to the new tip; the header and fast heads end at the lowest new block, and entries above the tip are the old ones |
| `BlockChains.BlockChain.File` | core/blockchain.go:826-835 | stores total difficulty, header and body without disturbing the head, its index or its table |
| `BlockChains.BlockChain.MoveHead` | core/blockchain.go:841-848 | extends the head or reorganises first; afterwards the index is exact up to the new head, the entries above are the old ones, and the header and fast heads are those the inserts leave |
| `BlockChains.BlockChain.WriteBlock` | core/blockchain.go:813-856 | the tree is the abstract write, the status the heaviest-chain decision, the index exact up to the head, and a side block changes neither index; the header and fast heads are at the new head if and only if the old index says so (after a reorganisation that drops blocks: if and only if one block is new), and the index is exact if and only if no old entry lay above the new head |
| `BlockChains.HeadsLag` | core/blockchain.go:444-466 | a run on which the head is block 2 and the header and fast heads are block 1 |
| `BlockChains.EntriesLeft` | core/blockchain.go:1151-1155 | a run on which the head is block 1 and the index still names a block 2 |
| `BlockChains.BlockChain.ImportBlock` | core/blockchain.go:977-994 | after every imported block without repeated transactions the transaction table is exactly that of the head chain, across any reorganisation |
| `BlockChains.RunBlocks` | core/blockchain.go:860-1021 | over every run of imports from genesis: index exact up to the head and head heaviest, and the table exact if no chain repeats a transaction |
| `RlpRaw.RoundTrip` | rlp/raw.go:39-156 | parsing an encoded item followed by anything returns the item and its length |
| `RlpRaw.Canonical` | rlp/raw.go:86-156 | whatever parses is byte for byte the encoding of what was parsed |
| `RlpRaw.EncodeInjective` | rlp/encode.go:202-247 | different items have different encodings |
| `RlpRaw.ReadKindPanics` | rlp/raw.go:86-125 | reading a header fails out of range on exactly one input, the single byte 0x81 |
| `RlpRaw.ReadKindBounds` | rlp/raw.go:86-125 | an accepted header and its content lie inside the input |
| `RlpRaw.HeadCanonical` | rlp/raw.go:86-156 | an accepted header is the one the encoder would write |
| `RlpRaw.LooseKindStrict` | rlp/raw.go:96-107 | the slice reader accepts a header exactly when the stream does and no single byte below 0x80 was wrapped needlessly |
| `RlpRaw.SplitStringOf` | rlp/raw.go:49-58 | SplitString accepts exactly the string headers that the stream accepts for a string, with the same content |
| `RlpRaw.SplitListEncoded` | rlp/raw.go:62-71 | on an encoded list followed by any rest SplitList returns exactly the payload and the rest, and ListSize is the length of the encoding |
| `RlpRaw.SplitListExactly` | rlp/raw.go:62-71 | SplitList accepts an input if and only if it is the header of a list, its payload and some rest, and then returns that payload and rest |
| `RlpRaw.SplitStringExactly` | rlp/raw.go:49-58 | SplitString accepts an input if and only if it is a single low byte or the header of a string and its content, followed by some rest, and then returns that content and rest |
| `RlpRaw.SplitOtherKind` | rlp/raw.go:49-71 | an encoded string is refused by SplitList and an encoded list by SplitString, each with its own error |
| `RlpRaw.ReadKindErrors` | rlp/raw.go:86-156 | for each error of reading a header the exact inputs on which it is returned |
| `RlpRaw.SplitStringEncoded` | rlp/raw.go:49-58 | on an encoded string followed by any rest SplitString returns the string and the rest |
| `RlpRaw.CountValues` | rlp/raw.go:74-84 | the loop terminates and computes the recursive count |
| `RlpRaw.CountPanics` | rlp/raw.go:74-84 | the count fails out of range exactly on inputs that end in 0x81 after bytes that count |
| `RlpRaw.CountPanicsOn` | rlp/raw.go:74-84 | for instance on 0x01 0x81 |
| `RlpRaw.CountEncoded` | rlp/raw.go:74-84 | on the payload of a list the count is the number of elements |
| `RlpEncode.IntSize` | rlp/encode.go:646-652 | the number of bytes the integer needs, at least one |
| `RlpEncode.PutInt` | rlp/encode.go:588-643 | writes the big-endian bytes of the integer, as many as intsize says, and nothing else |
| `RlpEncode.PutHead` | rlp/encode.go:150-159 | writes exactly the header of the size, of the length headsize predicts |
| `RlpEncode.EncBuf.Reset` | rlp/encode.go:166-174 | an empty buffer |
| `RlpEncode.EncBuf.Write` | rlp/encode.go:182-189 | what the buffer stands for grows by exactly the encoding of the item, and size() stays its length |
| `RlpEncode.EncBuf.EncodeStringHeader` | rlp/encode.go:191-200 | appends the string header of a size |
| `RlpEncode.EncBuf.EncodeString` | rlp/encode.go:202-210 | the contents grow by the encoding of the string |
| `RlpEncode.EncBuf.WriteUint` | rlp/encode.go:392-406 | the contents grow by the encoding of the integer as a string without leading zeros |
| `RlpEncode.EncBuf.List` | rlp/encode.go:212-216 | opens a header at the current position with the sizes so far |
| `RlpEncode.EncBuf.ListEnd` | rlp/encode.go:218-225 | turns the stored offsets into the payload size and accounts for the header |
| `RlpEncode.EncBuf.EncodeItem` | rlp/encode.go:493-527 | appends the data of the item and its list headers with the offsets and sizes the flattening needs; size() grows by the length of the encoding |
| `RlpEncode.FlatItem` | rlp/encode.go:202-247 | for every item tree the data and deferred headers, flattened, are exactly the recursive encoding |
| `RlpEncode.EncBuf.ToBytes` | rlp/encode.go:231-247 | flattening fills exactly size() bytes with the contents |
| `RlpEncode.EncBuf.ToWriter` | rlp/encode.go:249-271 | writes the same bytes |
| `RlpEncode.EncodeToBytes` | rlp/encode.go:97-105 | returns the recursive encoding of the item |
| `RlpEncode.EncReader.Next` | rlp/encode.go:307-339 | the next piece, and only at the end none; a header piece overwrites the scratch buffer only after the previous one is used up |
| `RlpEncode.EncReader.Read` | rlp/encode.go:282-303 | fills the buffer with the next bytes of the encoding; end of file exactly when nothing is left |
| `RlpEncode.EncodeToReader` | rlp/encode.go:112-119 | announces the size and holds the whole encoding |
| `RlpEncode.ReadInPieces` | rlp/encode.go:282-339 | for every sequence of buffer sizes the concatenated output is a prefix of the encoding, and all of it once enough was asked for |
| `RlpDecode.RoomWithin` | rlp/decode.go:876-907 | an inner list never has more left than the lists around it, so the subtraction of position from size never underflows |
| `RlpDecode.Stream.constructor` | rlp/decode.go:831-863 | a fresh stream is valid |
| `RlpDecode.Stream.WillRead` | rlp/decode.go:1023-1041 | allows a read exactly when it fits into the innermost list, or into the limit at top level, and accounts for it |
| `RlpDecode.Stream.ReadFull` | rlp/decode.go:997-1010 | reads exactly the next bytes, in whatever chunks the reader returns them; fails exactly when they do not fit, are missing, or the read that hands out the last of the input reports the end of file along with it |
| `RlpDecode.EagerReaderLoses` | rlp/decode.go:997-1010 | a string of two bytes that is read from a reader reporting the end of file on its own, and lost from one reporting it with the last byte |
| `RlpDecode.Stream.ReadByte` | rlp/decode.go:1012-1021 | the same for one byte |
| `RlpDecode.Stream.ReadUint` | rlp/decode.go:971-995 | reads a big-endian integer and refuses a leading zero |
| `RlpDecode.Stream.ReadHeader` | rlp/decode.go:909-969 | for any limit: reads the header exactly when one is there whole, before the bound and the end of the input, and the end of file does not come with its size bytes |
| `RlpDecode.Stream.PeekKind` | rlp/decode.go:876-907 | remembers the header ahead, or the error; at the end of a list it says so and moves nothing; accepts exactly the readable headers whose value fits into the list, or the limit |
| `RlpDecode.Stream.FetchKind` | rlp/decode.go:882-903 | reads a header and checks that the value fits: no error exactly when the header is readable and the size fits |
| `RlpDecode.Stream.Bytes` | rlp/decode.go:655-676 | returns the content of a string exactly when the slice reader accepts what lies ahead, the end of file does not come with the content and the runtime can make the slice; panics exactly when the announced size is longer than it can make |
| `RlpDecode.Stream.List` | rlp/decode.go:764-776 | enters a list exactly when a readable list header is ahead whose size fits into its parent, or the limit |
| `RlpDecode.Stream.ListEnd` | rlp/decode.go:780-795 | leaves a list exactly when it is used up, and advances the parent by its size without overrunning it |
| `RlpDecode.Stream.Raw` | rlp/decode.go:679-701 | for any limit: succeeds exactly when the value is there, its content can be read and the slice can be made, and reproduces the input exactly when the value is not a string of 56 bytes or more; panics exactly when header and announced size, added in 64 bits, are too long |
| `RlpDecode.RawBytes` | rlp/decode.go:679-701 | what Raw returns for each kind of value |
| `RlpDecode.RawDiffersOn` | rlp/decode.go:679-701 | for instance, a string of 56 zeros comes out different |
| `RlpDecode.HugeSizePanics` | rlp/decode.go:664-665 | nine bytes on which Bytes and Raw of an unlimited stream panic |
| `RlpDecode.Stream.Uint` | rlp/decode.go:710-741 | accepts exactly the canonical integers of the given width whose content can be read |
| `RlpDecode.UintRoundTrip` | rlp/decode.go:710-741 | an encoded integer is read back |
| `RlpDecode.Stream.DecodeInterface` | rlp/decode.go:495-517 | on any stream, header peeked or not: decodes the item that the reference decoder gives, at any depth, and fails exactly when it gives none, the end of file comes with the last content, or a string is longer than the runtime can make |
| `RlpDecode.Stream.DecodeElems` | rlp/decode.go:322-349 | decodes all elements of a list up to its end, exactly when the list is all there, is made of items with makeable strings, and the end of file does not come with the last content |
| `RlpDecode.DecodeBytes` | rlp/decode.go:119-129 | succeeds with an item exactly when the input is the encoding of that item |
| `RlpDecode.OneEncoding` | rlp/decode.go:119-129 | accepted inputs and encodings are the same thing, so each value has one accepted encoding |
| `RlpDecode.Replay` | rlp/decode.go:655-1041 | for every sequence of calls on any input, limit and reader: positions within sizes, children within parents, no read past the limit |
| `MinHeap.HeapMin` | core/tx_list.go:28-46 | the front of a heap is a minimum |
| `MinHeap.Init` | core/tx_list.go:111-116 | orders a heap without changing its contents |
| `MinHeap.Push` | core/tx_list.go:36-38 | adds one element to a heap |
| `MinHeap.Pop` | core/tx_list.go:40-46 | takes out a minimum |
| `MinHeap.Remove` | core/tx_list.go:157-162 | takes out the element at an index |
| `Nonces.SortedMeans` | core/tx_list.go:201-214 | the sorted contents hold each entry once in nonce order |
| `Nonces.RunMeans` | core/tx_list.go:176-191 | the ready run is consecutive and as long as it can be |
| `Nonces.LowestSorted` | core/tx_list.go:125-146 | capping keeps the front of the sorted contents |
| `TxLists.TxSortedMap.Put` | core/tx_list.go:71-77 | one entry is set; heap and cache follow |
| `TxLists.TxSortedMap.Forward` | core/tx_list.go:82-96 | removes and returns in order what is below the threshold; the sliced cache is still the sorted contents |
| `TxLists.TxSortedMap.Filter` | core/tx_list.go:100-121 | removes and returns exactly what the filter picks |
| `TxLists.TxSortedMap.Cap` | core/tx_list.go:125-146 | keeps the lowest nonces and returns the others, highest first; the sliced cache is still the sorted contents |
| `TxLists.TxSortedMap.Remove` | core/tx_list.go:150-167 | deletes one nonce from map and heap |
| `TxLists.TxSortedMap.Ready` | core/tx_list.go:176-191 | takes out the consecutive run at the front unless it starts too high |
| `TxLists.TxSortedMap.Flatten` | core/tx_list.go:201-214 | the contents in nonce order |
| `TxLists.RunMap` | core/tx_list.go:71-214 | under any sequence of calls the map is the plain nonce map, the heap holds exactly its nonces and a cache is its sorted contents |
| `TxLists.ShortCut` | core/tx_list.go:270-274 | with a cap that bounds every cost the short cut of Filter equals the full filter |
| `TxLists.StrictContiguous` | core/tx_list.go:258-314 | on a contiguous strict list Forward, Filter, Cap and Remove leave it contiguous |
| `TxLists.FilteredStrict` | core/tx_list.go:270-292 | a strict list keeps exactly the payable transactions below its lowest unpayable one |
| `TxLists.FilterPartition` | core/tx_list.go:270-292 | what a filter keeps, drops and invalidates are disjoint and make up the list |
| `TxLists.TxList.Add` | core/tx_list.go:241-253 | replaces a transaction of the same nonce only for a higher price, and keeps the cost cap sound |
| `TxLists.TxList.Forward` | core/tx_list.go:258-260 | as the sorted map |
| `TxLists.TxList.Filter` | core/tx_list.go:270-292 | removes exactly what is too costly and, from a strict list, what is above the lowest of those |
| `TxLists.TxList.Cap` | core/tx_list.go:296-298 | as the sorted map |
| `TxLists.TxList.Remove` | core/tx_list.go:303-314 | removes a nonce and, from a strict list, everything above it |
| `TxLists.TxList.Ready` | core/tx_list.go:323-325 | as the sorted map |
| `TxLists.LowestNonce` | core/tx_list.go:280-287 | the lowest nonce of what was removed |
| `RateLimit.CountPending` | core/tx_pool.go:533-536 | the number of pending transactions |
| `RateLimit.PopLongest` | core/tx_pool.go:557 | an account with a longest list |
| `RateLimit.Round` | core/tx_pool.go:567-571 | one round lowers the level of all offenders by one |
| `RateLimit.CutBack` | core/tx_pool.go:566-572 | rounds until the total fits or the threshold is reached |
| `RateLimit.Equalize` | core/tx_pool.go:537-586 | maximal water-filling: some level, at least the minimum, to which every non-exempt account is cut and no further; it fits or is the minimum; and if anything was cut every higher level would not fit |
| `RateLimit.FilledUnique` | core/tx_pool.go:537-586 | that description determines the result: there is only one way to fill |
| `RateLimit.TotalMonotone` | core/tx_pool.go:537-586 | a higher level keeps at least as many transactions |
| `PoolIndex.EnqueueKeeps` | core/tx_pool.go:333-350 | queueing a transaction that is filed nowhere keeps every filed transaction in one place, under its sender and nonce, and indexed |
| `PoolIndex.PromoteKeeps` | core/tx_pool.go:355-380 | the same for promotion; one that is turned down leaves the index |
| `PoolIndex.EnqueueTracked` | core/tx_pool.go:333-350 | filing loses from the index exactly what was replaced; a transaction the queue turns down stays indexed |
| `PoolIndex.PromoteTracked` | core/tx_pool.go:355-380 | filing loses from the index exactly what was replaced or turned down |
| `PoolIndex.CutPending` | core/tx_pool.go:626-645 | what a pending list loses is still indexed and filed nowhere else |
| `PoolIndex.CutQueue` | core/tx_pool.go:497-524 | the same for the queue |
| `PoolDrops.RemovalQuiet` | core/tx_pool.go:452-489 | removing a transaction leaves every pending list, cost caps included, as it was exactly when its nonce is not pending, and then only that nonce leaves the queue and only its hash the index |
| `PoolDrops.RemovalShrinks` | core/tx_pool.go:452-489 | removing a queued transaction makes the queue one shorter if and only if everything that comes back from the pending list was queued already |
| `PoolDrops.RemovalRefills` | core/tx_pool.go:452-489 | a consistent pool on which the queue does not get shorter |
| `PoolRuns.QueueRefills` | core/tx_pool.go:355-489 | calls that lead there: four transactions, a dearer first one, a dearer third one; removing the last leaves the queue as long as it was and a transaction indexed that no list has |
| `PoolDrops.LowerUp` | core/tx_pool.go:477-479 | removing from below lowers the pending nonce to the lowest removed one that was pending, if it was above |
| `PoolDrops.LowerDown` | core/tx_pool.go:477-479 | the same from above |
| `PoolDrops.LowStep` | core/tx_pool.go:604-608 | removing a queue lowest nonce first, step by step: what is pending, queued and indexed after each |
| `PoolDrops.HighStep` | core/tx_pool.go:614-618 | the same highest nonce first |
| `PoolDrops.ShedQuiet` | core/tx_pool.go:587-620 | if no nonce is both pending and queued, the overflow loop leaves exactly the allowed number queued, each list a low end of what it was, and nothing pending changes |
| `PoolDrops.ExpiryExact` | core/tx_pool.go:669-677 | an idle account has no queue after the expiry loop if and only if nothing came back into it |
| `PoolSteps.RemovalRequeues` | core/tx_pool.go:465-481 | otherwise everything pending above it is queued again, or lost when nothing is pending below it |
| `PoolStrays.RemovalStrays` | core/tx_pool.go:452-489 | exactly what a removal leaves in the index without a list: what was there before, other transactions of the removed nonce, pending ones above with none below, and returned ones that the queue turns down |
| `PoolStrays.RemovedFiled` | core/tx_pool.go:452-489 | if everything indexed is filed, a removal keeps that if and only if there is no such transaction |
| `PoolStrays.RefillStrays` | core/tx_pool.go:463-485 | a pool on which a removal leaves one |
| `PoolStrays.EnqueuedFiled` | core/tx_pool.go:333-350 | queueing a new transaction leaves none |
| `PoolStrays.PromotedFiled` | core/tx_pool.go:494-531 | promotion leaves none |
| `PoolStrays.DemotedFiled` | core/tx_pool.go:626-656 | demotion leaves exactly what the queue turns down |
| `PoolStrays.LimitedFiled` | core/tx_pool.go:532-586 | the limiter leaves exactly what it cuts |
| `PoolStrays.CutStrays` | core/tx_pool.go:587-620 | the overflow and expiry loops leave exactly the pending transactions they take off that do not come back |
| `PoolStrays.CutAllFiled` | core/tx_pool.go:587-620 | so none if and only if no nonce they remove is pending as well |
| `PoolStrays.SettledFiled` | core/tx_pool.go:494-621 | moving executables leaves none if and only if the limiter cuts nothing and no removed nonce is pending |
| `PoolSteps.FollowStep` | core/tx_pool.go:378 | promoting one more transaction sets the pending nonce after it exactly when it is taken |
| `PoolSteps.LevelKeeps` | core/tx_pool.go:537-586 | cutting lists to a level keeps the pool consistent and leaves no list empty |
| `PoolSteps.NextNonceMeans` | core/tx_pool.go:168-172 | the nonce set after a reset is one above the last pending one |
| `PoolSteps.DemotedExecutable` | core/tx_pool.go:228-248 | what is pending after demotion is in nonce order, not stale and payable |
| `TxPools.TxPool.EnqueueTx` | core/tx_pool.go:333-350 | the pool becomes the queueing of the transaction |
| `TxPools.TxPool.PromoteTx` | core/tx_pool.go:355-380 | the pool becomes the promotion of the transaction, and the pending nonce follows if it was taken |
| `TxPools.TxPool.EnqueueAll` | core/tx_pool.go:472-474 | queueing several, in any order: of two with one nonce the better paid one stays, and the index loses exactly the beaten ones |
| `TxPools.TxPool.PromoteAll` | core/tx_pool.go:512-517 | the same for promotion |
| `TxPools.TxPool.RemoveTx` | core/tx_pool.go:452-489 | for every transaction whether it is pending, queued and indexed afterwards: the nonce leaves both lists, the pending ones above are queued or lost; the pending nonce; and exactly which transactions are left in the index |
| `PoolLaws.RemovedExactly` | core/tx_pool.go:452-489 | where a removal puts each transaction, by the transactions listed before alone, and what it does to the index |
| `TxPools.TxPool.PromoteAccount` | core/tx_pool.go:497-530 | drops what is stale or unpayable, moves the run that reaches the pending nonce, keeps the 64 lowest of the rest, and the pending nonce follows the last one taken; what that means for each transaction is said by PromotedExactly |
| `TxPools.TxPool.PromoteQueued` | core/tx_pool.go:494-531 | over all queued accounts, for every transaction: when it is pending afterwards and when it stays queued; everything left queued or newly pending is neither stale nor unpayable, and what is neither stays filed unless it is outpaid or 64 wait below it; the index loses exactly what is filed no more; the count is the number queued |
| `PoolLaws.PromotedExactly` | core/tx_pool.go:494-531 | where promotion puts each transaction, by the transactions listed before alone: pending if it was and nothing ready pays more, or if it is ready and nothing pending pays as much; queued if it is neither stale nor unpayable, not ready, and fewer than 64 wait below it |
| `PoolLaws.NoncePromoted` | core/tx_pool.go:355-380 | the pending nonce afterwards: one above the highest nonce that became pending, or as it was |
| `TxPools.TxPool.Spammers` | core/tx_pool.go:539-552 | accounts over the guaranteed slots whose transaction looked at is not local |
| `TxPools.TxPool.LimitPending` | core/tx_pool.go:532-586 | the limiter on the pool: only pending lists change |
| `TxPools.TxPool.RemoveWhole` | core/tx_pool.go:603-611 | the exact lists, index and pending nonce after a whole queue is removed: what came back and was not beaten stays queued |
| `TxPools.TxPool.RemoveHighest` | core/tx_pool.go:612-619 | the exact lists, index and pending nonce after the highest nonces are removed |
| `TxPools.TxPool.DropNext` | core/tx_pool.go:597-619 | one round of the overflow loop; there is always an account left to drop from, and its pending nonce follows |
| `TxPools.TxPool.DropOverflow` | core/tx_pool.go:587-620 | the loop never runs out of accounts; some accounts lose their whole queue and at most one its highest nonces, together as many as there were too many, their pending nonces follow, and no other account changes; the limit is met if and only if nothing came back into these queues |
| `TxPools.TxPool.PromoteExecutables` | core/tx_pool.go:494-621 | promotion, limiter and overflow one after the other, with the exact pending nonces after it, and when it leaves nothing behind in the index; for every transaction where promotion puts it, and whatever is filed at the end was pending or is neither stale nor unpayable |
| `TxPools.TxPool.DemoteAccount` | core/tx_pool.go:628-655 | pending keeps the payable ones below the lowest unpayable one; the invalidated ones are queued by price |
| `TxPools.TxPool.DemoteUnexecutables` | core/tx_pool.go:626-656 | for every transaction when it stays pending, comes back into the queue or is dropped; the index loses what is filed no more, and exactly the ones the queue turned down stay indexed |
| `PoolLaws.DemotedExactly` | core/tx_pool.go:626-656 | where demotion puts each transaction, by the transactions listed before alone: it stays pending if it and everything pending below it that is not stale can be paid for, and is queued again if only one below cannot |
| `TxPools.TxPool.ResetNonces` | core/tx_pool.go:168-172 | one after the last pending nonce; no list is empty, so the last element exists |
| `TxPools.TxPool.ResetState` | core/tx_pool.go:154-176 | demotion, new pending nonces, promotion, each with its exact effect on lists, index and nonces; nothing happens when the state cannot be read |
| `TxPools.TxPool.TryAdd` | core/tx_pool.go:310-328 | queues a transaction exactly when its hash is new and it is valid; for every transaction whether it is queued and indexed afterwards |
| `PoolLaws.EnqueuedExactly` | core/tx_pool.go:333-351 | where queueing puts each transaction and what it does to the index |
| `TxPools.TxPool.Add` | core/tx_pool.go:383-398 | queues it and then promotes, with the exact lists and pending nonces, so that calls compose |
| `TxPools.TxPool.AddBatch` | core/tx_pool.go:401-421 | queues the new and valid ones and promotes if there was any, with the exact lists and pending nonces |
| `PoolLaws.BatchExactly` | core/tx_pool.go:401-421 | a batch goes in one by one: each that is valid and new at its turn is queued, and these are counted |
| `TxPools.TxPool.RemoveBatch` | core/tx_pool.go:441-448 | removes each indexed hash in turn, every step an exact removal of lists, index and pending nonce; afterwards none of them is indexed |
| `TxPools.TxPool.Pending` | core/tx_pool.go:228-248 | promotion, then demotion, each with its exact effect on lists, index and nonces; returns per account the executable transactions in nonce order |
| `TxPools.TxPool.Expire` | core/tx_pool.go:669-677 | idle accounts lose their queue except for what comes back from the pending list and was not beaten, their pending nonces follow, the index loses exactly their queued hashes, all other accounts are untouched; nothing is left behind in the index if and only if no idle account has a nonce both pending and queued |
| `TxPools.RunPool` | core/tx_pool.go:105-684 | over every sequence of calls no transaction is filed twice, each filed one is indexed under its place, and no empty list stays |
| `Gas.IntrinsicGas` | core/state_transition.go:88-110 | the base price plus the price of every data byte |
| `Gas.DataGasCounts` | core/state_transition.go:95-108 | counting nonzero bytes gives the sum of the byte prices |
| `GasLaws.IntrinsicMeans` | core/state_transition.go:88-110 | 21000 for a call or 53000 for a creation, 68 for each byte of data that is not zero and 4 for each that is |
| `Gas.GasPool.AddGas` | core/gaspool.go:27-31 | adds to the pool |
| `Gas.GasPool.SubGas` | core/gaspool.go:35-42 | takes from the pool exactly when there is enough |
| `Gas.StateTransition.UseGas` | core/state_transition.go:164-171 | uses gas exactly when there is enough |
| `Gas.StateTransition.BuyGas` | core/state_transition.go:173-196 | pays for the gas and takes it from the pool, or changes nothing and says why |
| `Gas.StateTransition.PreCheck` | core/state_transition.go:198-209 | the nonce check before it |
| `Gas.StateTransition.RefundGas` | core/state_transition.go:263-280 | pays back what is left plus at most half of what was used, without wrapping the 64-bit counter; when the refund counter was the smaller value it is multiplied by the price in place |
| `Gas.CounterSpoiled` | core/state_transition.go:270-275 | the refund counter is changed if and only if it is the smaller value, positive, and the price is not one |
| `Gas.CounterForgotten` | core/state/statedb.go:578-591 | the next message of the block starts with a counter of zero |
| `Gas.StateTransition.TransitionDb` | core/state_transition.go:214-261 | world, pool and outcome are those of the transition function, failures included; what that function does is said account by account in the next rows |
| `GasLaws.FailsWhen` | core/state_transition.go:173-252 | every way a message can fail, in order, each with its exact condition and the world and pool it leaves |
| `GasLaws.SucceedsWith` | core/state_transition.go:214-280 | what a successful message leaves: the call the machine is given, the nonces and deletions it made, each balance with gas back and fee, the gas required, used and returned to the pool |
| `GasLaws.NonceMoves` | core/state_transition.go:238-245 | under a machine that leaves nonces alone a call raises the nonce of its sender by one and no other, a creation raises none |
| `GasLaws.NoReplay` | core/state_transition.go:203-207 | under a machine that never lowers a nonce a checked call that succeeded is refused when it is applied again; once deleted accounts are cleared this holds if and only if the sender was not deleted or the nonce is not zero |
| `GasLaws.BlockNonces` | core/state_processor.go:57-79 | over a block the nonce of an account without code goes up by one with each message it sends and in no other way |
| `GasLaws.BlockInOrder` | core/state_processor.go:57-79 | the checked messages of such an account carry consecutive nonces in the order of the block |
| `GasLaws.NoneTwice` | core/state_processor.go:57-79 | no block applies the same checked message of such an account twice |
| `Gas.Conserved` | core/state_transition.go:214-280 | a successful message changes the total balance exactly as the virtual machine does, so not at all if it only moves money |
| `Gas.GasBounds` | core/state_transition.go:214-284 | half of the required gas, rounded up, is used at least and no more than required; the pool sinks by exactly the gas used |
| `Gas.SucceedsWhen` | core/state_transition.go:173-252 | exactly when a message succeeds |
| `Gas.ApplyTransaction` | core/state_processor.go:85-118 | the running total grows by the gas on the receipt |
| `Gas.RunMessages` | core/state_processor.go:66-74 | the messages in order, stopping at the first that fails; each receipt carries what its message took out of the pool and what all up to it did |
| `Gas.AccumulateRewards` | consensus/tilthash/consensus.go:421-435 | pays each uncle its share and the miner the block reward and a 32nd of it per uncle |
| `Gas.RewardsTotal` | consensus/tilthash/consensus.go:421-435 | the total balance grows by exactly the minted money |
| `GasLaws.RewardsAt` | consensus/tilthash/consensus.go:421-435 | what each account is paid: the miner 10^18 and a 32nd of it per uncle, and for each uncle an eighth of 10^18 times eight less its distance |
| `Gas.StateDB.IntermediateRoot` | core/state/statedb.go:578-591 | dead accounts go and the refund counter starts anew |
| `GasLaws.ClearedAt` | core/state/statedb.go:578-591 | nonce and balance of each account between messages: nothing for a deleted one, the same for any other |
| `Gas.ClearedTotal` | core/state/statedb.go:578-591 | what is lost then is what dead accounts still held |
| `Gas.Process` | core/state_processor.go:57-79 | a fully processed block uses at most its gas limit, the pool ends at limit minus total, and each receipt carries the gas of its message and of all up to it; the total balance grows by exactly the rewards and sinks by exactly what is deleted with dead accounts |
| `Gas.BlockConserved` | core/state_processor.go:57-79 | if the virtual machine conserves the total balance, the messages of a block lose exactly what is deleted with dead accounts |
| `Gas.FeesHeld` | core/state_transition.go:256-275 | what dead accounts hold after a message: what the machine left them, plus the gas paid back to them and the fee paid to them |
| `Gas.MessageConserves` | core/state_transition.go:256-275 | a message conserves money if and only if the machine leaves dead accounts empty, and neither a positive fee nor gas back goes to one |
| `Gas.BlockSpares` | core/state_processor.go:66-74 | the messages of a block conserve money if and only if each of them does |
| `Gas.FeeLost` | core/state_transition.go:256-257 | a message whose fee is lost: it kills the account of its miner |
| `Feeds.DeactivateParts` | event/feed.go:223-227 | swapping a case behind the active part moves one subscription from the undelivered to the delivered side |
| `Feeds.DeleteParts` | event/feed.go:218-220 | deleting a case takes one subscription out of the side it is on |
| `Feeds.DeliveryStep` | event/feed.go:155-176 | a delivery keeps the partition and counts one more receipt |
| `Feeds.RemovalStep` | event/feed.go:167-172 | a removal keeps the partition, whichever side the case is on |
| `Feeds.Feed.constructor` | event/feed.go:61-66 | an empty feed |
| `Feeds.Feed.Subscribe` | event/feed.go:73-93 | the channel waits in the inbox |
| `Feeds.Feed.Find` | event/feed.go:208-215 | the first case of a channel, or none when it is not listed |
| `Feeds.Feed.Delete` | event/feed.go:218-220 | shifts the later cases down in place |
| `Feeds.Feed.Deactivate` | event/feed.go:223-227 | swaps a case with the last active one in place |
| `Feeds.Feed.Unsubscribe` | event/feed.go:104-125 | exactly one subscription of the channel is gone, from the inbox or from the array |
| `Feeds.Feed.TakeInbox` | event/feed.go:133-147 | everyone subscribed is in the array and holds the value |
| `Feeds.Feed.TrySendAll` | event/feed.go:152-161 | the fast path, whoever is ready |
| `Feeds.Feed.Select` | event/feed.go:165-176 | one event: a delivery or a removal, whichever comes |
| `Feeds.Feed.RemoveAsked` | event/feed.go:167-172 | carries out a cancellation on whichever side the case is |
| `Feeds.Feed.Deliver` | event/feed.go:149-177 | terminates with nobody left to serve |
| `Feeds.Feed.Send` | event/feed.go:129-185 | for every interleaving each subscription gets the value exactly once unless it left first; exactly those leave whose cancellation arrived; the count is the number of deliveries; survivors stay subscribed; no value is kept |
| `PeerMux.SortCaps` | p2p/peer.go:269 | a sorted permutation |
| `PeerMux.LaidAgain` | p2p/peer.go:277-283 | a name that matches again is the last one laid out, so giving its codes back is exact |
| `PeerMux.MatchProtocols` | p2p/peer.go:268-290 | each shared name once, in its highest shared version, the codes one after the other from 16; of two matched names the lexicographically smaller one has the lower codes |
| `PeerMux.LessMeans` | p2p/protocol.go:79-81 | the order of names, by index: one name is a proper prefix of the other, or is smaller at the first position where they differ |
| `PeerMux.LengthOfMeans` | p2p/peer.go:268-290 | a capability is looked up as the first protocol of the list with its name and version |
| `PeerMux.SidesAgree` | p2p/peer.go:268-290 | two peers with equal lengths for equal name and version compute the same layout |
| `PeerMux.RangesApart` | p2p/peer.go:268-290 | the ranges are disjoint and consecutive |
| `PeerMux.OwnerUnique` | p2p/peer.go:316-323 | at most one protocol owns a code |
| `PeerMux.OwnerExists` | p2p/peer.go:316-323 | every code from 16 to the end is owned |
| `PeerMux.GetProto` | p2p/peer.go:316-323 | finds the owner of a code, or says that there is none |
| `PeerMux.WriteMsg` | p2p/peer.go:335-352 | shifts a code of the protocol, refuses any other |
| `PeerMux.ReadMsg` | p2p/peer.go:354-362 | shifts it back |
| `PeerMux.Handle` | p2p/peer.go:225-253 | which codes are answered, close the connection, are ignored, are delivered, or are out of range |
| `PeerMux.Exchange` | p2p/peer.go:225-362 | a code written through one side reaches the same protocol in the same version on the other side as the same code |
| `Dialing.DialState.constructor` | p2p/dial.go:112-128 | a fresh dialer with the given nodes: of static nodes with one identity the last one |
| `Dialing.DialState.AddStatic` | p2p/dial.go:130-134 | adds a static node |
| `Dialing.DialState.RemoveStatic` | p2p/dial.go:136-139 | removes a static node |
| `Dialing.DialState.CheckDial` | p2p/dial.go:242-257 | allows a dial exactly when the node is not being dialed, not connected, not this one, allowed, and not dialed recently |
| `Dialing.DialState.Expire` | p2p/dial.go:380-384 | drops from the history exactly what may be dialed again and keeps everything else |
| `Dialing.DialState.NeedDynDials` | p2p/dial.go:157-169 | the limit minus dynamic peers minus dynamic dials |
| `Dialing.DialState.AddDial` | p2p/dial.go:147-155 | books one dial, with one task |
| `Dialing.DialState.DialStatic` | p2p/dial.go:174-184 | dials every static node that may be dialed, and forgets exactly those that are neither dialed nor connected and never can be |
| `Dialing.DialState.DialBootnode` | p2p/dial.go:188-196 | without peers, with dials missing and after the fallback interval the first bootnode is tried and moved to the back; otherwise nothing changes |
| `Dialing.DialState.DialRandom` | p2p/dial.go:199-207 | tries random nodes for half of the missing dials, never more than are missing |
| `Dialing.DialState.DialLookups` | p2p/dial.go:210-216 | tries lookup results in order while dials are missing and keeps exactly the rest |
| `Dialing.DialState.AddLookup` | p2p/dial.go:218-221 | one lookup at a time |
| `Dialing.DialState.AddTimer` | p2p/dial.go:227-230 | only with nothing else to do, until the oldest entry expires |
| `Dialing.DialState.NewTasks` | p2p/dial.go:141-232 | who is dialed, and from which list; dynamic dials within their limit, no redial within the expiration time, every dialable static node dialed, a lookup started exactly when candidates are missing and none is out, the bootnodes turned exactly in the fallback case, and a timer for the first entry to expire when there is nothing else to do |
| `Dialing.DialState.TaskDone` | p2p/dial.go:259-268 | takes the task off the books and adds a dial, and nothing else, to the history |
| `Dialing.Room` | p2p/dial.go:157-216 | a round either had room for its dynamic dials or planned none |
| `Dialing.Unbook` | p2p/server.go:449-457 | removing a finished task keeps the books exact |
| `Dialing.Server.StartTasks` | p2p/server.go:458-468 | starts tasks in order until 16 run |
| `Dialing.Server.ScheduleTasks` | p2p/server.go:469-477 | queued tasks first; tasks wait only while 16 run; the dialer is asked exactly when fewer are left, and then every dialable static node is planned; nothing is planned for a node within the expiration time after its last dial, and every planned dial is logged |
| `Dialing.Server.TaskDone` | p2p/server.go:506-512 | takes the task off the books; the end of a dial is remembered and logged |
| `Dialing.Server.PostHandshake` | p2p/server.go:513-521 | first checkpoint: goes on if and only if a dialed connection shows the dialed identity, the node is neither a peer nor this one, and there is room or it is trusted or static; the cause of every refusal and the flags it goes on with |
| `Dialing.Server.AddPeer` | p2p/server.go:522-537 | second checkpoint: the connection becomes a peer if and only if the protocol handshake shows the same identity and a shared protocol, the node is neither a peer nor this one, and there is room or it is trusted or static; the cause of every refusal |
| `Dialing.Server.HandleEvent` | p2p/server.go:483-543 | which event changes what: peers, handshakes, tasks, books, lookup results, times of last dials and the log; every event keeps the loop invariant |
| `Dialing.Server.DelPeer` | p2p/server.go:538-543 | removes the peer |
| `Dialing.RunLoop` | p2p/server.go:433-544 | over every run: at most 16 running tasks, no node dialed twice at once, one lookup at most, dynamic peers and dials within their limit, peers that are neither trusted nor static within the maximum, this node never its own peer, and every dial of a node is planned more than the expiration time after every earlier dial of it ended |

## Left out

- Reflection-driven RLP (struct tags, pointers, arrays, big integers, custom encoders): the item tree covers the wire format.
- RlpEncode.PutInt: one loop over the bytes where the code has one case per length.
- State trie, virtual machine, seals and header checks of the consensus engine, receipts' logs and blooms: only their effect on gas and balances is modelled or a parameter. Deleting empty accounts changes no balance or nonce and is left out.
- Gas.Process: `engine.Finalize` is the proof-of-work engine's; that uncles are recent is a precondition, as their check is not modelled.
- Database encoding, batches, caches, old key formats, persisted head markers of the block chain, receipts and mipmaps.
- Fast sync, rollback, `SetHead` and loading the last state: they move heads outside the run invariants.
- Chain events, removed logs and the receipts written during a reorganisation.
- Mutexes and goroutines: operations that hold a lock are atomic steps.
- TxPools.TxPool: holds its lists as values, each list operation being the function that `TxLists.TxList` is proved against; sharing of list objects is not modelled. `RemoveTx` deletes the index entry after the lists, which nothing reads in between.
- TxPools.TxPool.constructor: takes a head state that could be read; a pool whose very first state read fails is not modelled.
- Transaction validation and signatures, price and nonce ordering for the miner, the expiry of local marks, heartbeat times (the overflow loop takes accounts in any order), metrics and events of the pool.
- RateLimit.PopLongest: a longest list is found by search where the code uses a priority queue with 32-bit float priorities, which are exact for lists shorter than 2^24.
- Sorting and the heap's append and truncate steps of the Go library: `MinHeap` has the library's sift operations, sorting is by its contract.
- Type checks and panics of the feed for values and channels of the wrong type, and closing of subscriptions' error channels.
- PeerMux.MatchProtocols: offsets are unbounded, so protocols whose lengths add up beyond 2^64 are not modelled.
- Handshake encryption, message payloads, write scheduling and shutdown of a peer.
- Endpoint resolution and its back-off, accept slots, shutdown of the server, trusted and static peers beyond their flags.
- Dialing.DialState.NewTasks: the random nodes are a parameter; a dialer with missing dials but no discovery table is not modelled, the server never creates one.

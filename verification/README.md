# Verification of an on-chain exchange

Dafny models of six parts of an on-chain exchange, with proofs.

| part | modules |
|---|---|
| the 256-ary sparse Merkle tree with batched updates | `SmtNodes`, `SmtModel`, `SmtBatch`, `SmtInPlace`, `Smt` |
| the order book over a nibble trie of price levels | `MatchSpec`, `BookObjects`, `PriceTrie`, `BookSpec`, `BookSides`, `OrderBook`, `BookLaws`, `BookTiers`, `BookRuns` |
| the binary trie with shortcut leaves and Merkle proofs | `BitKeys`, `BitTreeModel`, `BitDatabase`, `BitWrites`, `BitBatches`, `BitProofs`, `BitTree` |
| the global root over all trees, and the LRU cache | `GlobalRoot`, `LruCache` |
| the Protocol Buffers codec of `Order` | `OrderCodec`, `OrderMessage` |
| the proposer pipeline | `Routing`, `NonceOrder`, `PrepareQueue`, `Pipeline`, `PipelineFlow`, `PrepareWorkers`, `NonceReplay` |

`Words` and `Arithmetic` hold machine words, bytes and arithmetic.

`dafny verify dfyconfig.toml` checks the whole project.

## How to read the model

- A hash is an arbitrary function.  Freedom from collisions is assumed only on a stated set of inputs (for a root, the nodes
  of the trees in question), never of all byte strings; the binding lemmas assume nothing and exhibit the collision instead.
  No input of that set hashes to the empty digest (in the binary trie, to the digest of zeros).  In the binary trie the hash
  is a function of the list of its arguments.
- The canonical tree of a map is the reference: `Root`, `RootOf` and `GlobalRoot.Root` are defined by recursion on the map
  or list, and the imperative updaters are proved to end in it.  In the sparse Merkle tree
  "stored" means that every node of that tree can be loaded.
- The cache of the sparse Merkle tree holds any part of the store, and any addition may evict anything.
- A batch of the sparse Merkle tree is an array, and a sub-batch a slice of it: `append` and the sort behind it work in place.
  `Step` in `SmtInPlace` says on values what such an update does; `Lost` are the writes that are written over before they
  are read.
- The binary trie works on `updatedNodes`, a map of arrays that are changed in place and deleted, before the committed store.
  `Held` says which nodes can be loaded; `Intact()` is a trie of which nothing is missing, `Lost` what an update takes away.
- The order book is a heap of objects.  `Table(side)` is one side on values; `Executed` says what matching does to it.  What
  that means is proved in `BookLaws` and `BookTiers`, and of the operations of a book in `BookRuns`, in terms of trades,
  queues and places alone.  `Valid()` is the invariant: volumes and totals are sums of what remains, no resting order is
  filled, the index has exactly the resting orders, the caches bound every level with volume, and the book is not crossed.
- The pipeline is a state machine.  `Step` lists the atomic steps of the goroutines, `Runs` any interleaving of them.  What
  waits for decoders and verifiers, or is held by one, is a bag from which any transaction may come next; prepare and
  execution channels are queues.  `History` counts what a run does to one transaction.

## Where the code differs from its comments

- `Commit` of the sparse Merkle tree is to apply the pending writes (smt-v3/smt.go:278-313).  The `append` at smt-v3/smt.go:391
  writes into the array of the caller's batch, so that the next write of the caller may be lost (`WriteLost`);
  `CommitKeeps` and `CommitLosesNothing` say exactly when.
- `Update` of the binary trie promises the state after the last update (smt-v2/trie.go:70), and nodes that are not yet
  committed are to be found (smt-v2/trie.go:468).  `storeNode` compares a flagged digest of 33 bytes with the bare old root,
  stores, and deletes what it has stored when the root is unchanged; below the top an unchanged leaf is deleted and not
  stored again (`UpdateKey`, `WrittenTwice`).
- `CancelOrder` promises to refresh the cached best level when a level empties (verkle-orderbook/main_verkle_fixed.go:819),
  but reads the side after the order was zeroed: an emptied cached ask stays cached (`CancelOrder`, `BestAskExact`,
  `StaleAsk`).  Matching is not affected, because it searches anew.
- `ModifyOrder` matches an order that already rests (verkle-orderbook/main_verkle_fixed.go:990); a crossing change breaks the
  volumes of its own side (`MatchResting`, `CrossingModify`), and `ModifyOrder` says exactly when.
- `VerifyNonInclusion` promises another leaf on the path (smt-v2/trie_merkle_proof.go:159) and does not compare the two keys
  (`NonInclusionSound`, `OwnLeafAccepted`); on an empty trie no proof of non-inclusion is accepted (`EmptyTrieRejects`).
- The pipeline promises nonces strictly in order (v2-tx-pipeline/main.go:1484); after the nonce 2^64 - 1 the expected nonce is 0
  (`DispatchedAreMaxima`, `WrapExample`, `OutOfOrder`).

## Model

| member | source | states |
|---|---|---|
| SmtNodes.EncodeInternal | smt-v3/smt.go:578-613 | byte by byte: byte 0 is 0, bit i % 8 of byte 1 + i / 8 is set exactly when child i is not empty, the digests of these follow in index order, and nothing else |
| SmtNodes.LeafLaw | smt-v3/smt.go:561-565 | a byte string is the leaf of an entry if and only if byte 0 is 1, bytes 1 to 32 are the key, and the rest is the value |
| SmtNodes.NodeSound | smt-v3/smt.go:578-613 | the bytes of an internal node, for every child table, without its own encoding functions |
| SmtNodes.DecodeChildren | smt-v3/smt.go:402-423 | the linear bitmap scan of the updater recovers the whole child table that was encoded |
| SmtNodes.SelectChild | smt-v3/smt.go:512-540 | the reader's bit test and population count return the child that was encoded at the index, or report it absent exactly when it is |
| SmtNodes.ReaderSelects | smt-v3/smt.go:516-540 | for every table and every index the population-count offset stays in the buffer and points at the digest written for that index |
| SmtNodes.RankOfInternal | smt-v3/smt.go:527-537 | the count over full words and the masked word is the number of present children before the index |
| SmtNodes.LeafDataInjective | smt-v3/smt.go:561-565 | leaf buffers of different entries differ |
| SmtNodes.InternalDataInjective | smt-v3/smt.go:578-613 | buffers of different child tables differ |
| SmtModel.Binding | smt-v3/smt.go:561-623 | two canonical trees with one root hold one map, or exhibit a hash collision among their own nodes |
| SmtModel.CollapseNone | smt-v3/smt.go:468-481 | with no non-empty child the map is empty |
| SmtModel.CollapseOne | smt-v3/smt.go:483-489 | a single non-empty child holds the whole map |
| SmtModel.CollapseTwo | smt-v3/smt.go:468-491 | two non-empty children hold two keys or more, so that the node is not a leaf |
| SmtModel.OverrideSub | smt-v3/smt.go:430-456 | overriding a map distributes over its 256 sub-maps, which makes the bucket-wise update right |
| SmtModel.OverrideLaw | smt-v3/smt.go:264-283 | a pending write hides the committed entry of its key, a deletion too, and of no other key |
| SmtModel.RootLaw | smt-v3/smt.go:342-623 | the root of the empty map is 32 zeros; every other root is the hash of the bytes of its topmost node: the one entry as a leaf, or the node whose child c is the root of the entries that go on with byte c |
| SmtBatch.InOrderSorts | smt-v3/smt.go:300-302 | sorting a batch of distinct keys by bytes gives a strictly sorted batch that stands for the same writes, whatever order it was in |
| SmtBatch.SortSlice | smt-v3/smt.go:394-396 | sorting a slice in place whose last element was appended puts that element at its place, and leaves the array outside the slice alone |
| SmtBatch.BytesSorted | smt-v3/smt.go:298-302 | under a common prefix the next bytes of a sorted batch do not decrease: each child's writes are one run |
| SmtInPlace.StepExact | smt-v3/smt.go:342-458 | for every tree, batch and depth, what the in-place update on shared slices amounts to: which writes reach the tree, which are written over before they are read, and what is left behind the slice |
| SmtInPlace.LostExactly | smt-v3/smt.go:389-398 | the update is the map overridden by all writes but the lost ones, which are writes of the batch |
| SmtInPlace.KeepsExactly | smt-v3/smt.go:389-398 | the update does all that the batch says if and only if the lost writes would have changed nothing |
| SmtInPlace.StepUndisturbed | smt-v3/smt.go:372-458 | nothing is lost, and nothing is written over behind the slice, if and only if no group but the last one of its array, at every level, meets a leaf that the batch does not write |
| SmtInPlace.GroupKept | smt-v3/smt.go:430-456 | a child stays as its own group leaves it, although the greatest entry of the group may be handled once more in place of the entry it has overwritten |
| SmtInPlace.CommitKeeps | smt-v3/smt.go:285-313 | `Commit` ends in the committed map overridden by the pending writes that are not lost, and in the map that readers saw if and only if the lost ones would have changed nothing |
| SmtInPlace.CommitLosesNothing | smt-v3/smt.go:285-313 | no pending write is lost if and only if every leaf that is met and not written is met by the last group of its array |
| SmtInPlace.SingleKept | smt-v3/smt.go:315-327 | a batch of one write is never lost, which makes `Update` unconditional |
| Smt.SMT.constructor | smt-v3/smt.go:246-256 | a new tree is consistent and holds the empty map |
| Smt.SMT.LoadNode | smt-v3/smt.go:545-559 | whatever the cache has kept, a load returns what the store has, or fails exactly when the store has nothing |
| Smt.SMT.StoreLeaf | smt-v3/smt.go:561-575 | a leaf is stored, byte by byte, under the hash of its bytes, and nothing older is lost |
| Smt.SMT.StoreInternal | smt-v3/smt.go:578-623 | an internal node is stored, byte by byte, under the hash of its bytes, and nothing older is lost |
| Smt.SMT.RootStored | smt-v3/smt.go:561-623 | in every consistent tree the root of a non-empty map is in the store, is the hash of what is stored there, and that is, byte by byte, the topmost node of the map |
| Smt.SMT.Lookup | smt-v3/smt.go:494-543 | on a stored canonical tree of a map at any depth, reading a key returns the map's value, and fails with a not-found reason exactly when the map lacks it; a node is never missing |
| Smt.SMT.Get | smt-v3/smt.go:264-276 | `Get` reads the committed map overridden by the pending writes; a pending deletion is told apart |
| Smt.SMT.Set | smt-v3/smt.go:278-283 | `Set` overrides the readers' map at one key (nil deletes) and nothing else |
| Smt.Append | smt-v3/smt.go:391-391 | `append` to a slice writes into the array behind it when the array goes on there, and to a new array otherwise |
| Smt.AddStored | smt-v3/smt.go:389-396 | the appended leaf is sorted into the slice, and what it wrote over behind the slice is the greatest entry of the two |
| Smt.SMT.UpdateBatch | smt-v3/smt.go:342-492 | for every map, sorted slice of an array and depth, the recursive update returns the root of the canonical tree that `Step` says, stores that tree, loses no older node, and changes the array outside the slice exactly as `Step` says |
| Smt.SMT.AbsorbLeaf | smt-v3/smt.go:372-398 | the entry of a leaf in the way joins the slice in key order, in place, unless the slice writes its key; the entry behind the slice is overwritten |
| Smt.SMT.UpdateChildren | smt-v3/smt.go:425-458 | the loop over the groups of a slice, each updated in place before the next one is read, ends in the child table that `Groups` says |
| Smt.SMT.Collapse | smt-v3/smt.go:468-491 | counting the children and collapsing yields the canonical root: empty for no key, the lone leaf for one key, a node for more |
| Smt.SMT.Commit | smt-v3/smt.go:285-313 | `Commit` ends in the one root of the map `Committed`, empties the pending writes, and changes no answer of `Get` if and only if the writes it loses would have changed nothing; it changes none when no group but the last meets a foreign leaf; the bytes under the new root are those of the map's topmost node |
| Smt.WriteLost | smt-v3/smt.go:389-398 | a concrete input on which a pending write is read before `Commit` and gone after it |
| Smt.SMT.Update | smt-v3/smt.go:315-327 | `Update` writes or deletes one key past the pending writes, and ends in the one root of its map, with the bytes of that map's topmost node under it |
| Smt.CountActive | smt-v3/smt.go:469-477 | the count and the last index of the non-empty children, with a second one when there are two |
| Smt.GroupEnd | smt-v3/smt.go:430-436 | the scan over the slice stops exactly behind the maximal run of one byte |
| Smt.RootsDecideMaps | smt-v3/smt.go:342-492 | history independence and binding: two trees, whatever their histories, have one root exactly when they hold one map |
| MatchSpec.FillAmount | verkle-orderbook/main_verkle_fixed.go:669-730 | a run over a queue trades the smaller of the need and what the queue has, and what remains in the queue is the rest |
| MatchSpec.FillIsPrefix | verkle-orderbook/main_verkle_fixed.go:669-730 | the makers are a prefix of the queue, each consumed fully but perhaps the last, at their own prices |
| MatchSpec.FillAppend | verkle-orderbook/main_verkle_fixed.go:657-735 | a run over one queue after another is a run over the first, then one over the second with what is still needed |
| MatchSpec.SideStep | verkle-orderbook/main_verkle_fixed.go:630-745 | matching the best level and then the remaining side is matching the side |
| BookObjects.Order.Fill | verkle-orderbook/main_verkle_fixed.go:699-711 | the fill grows by the traded size; the order is marked partial exactly when something remains |
| BookObjects.PriceLevel.Append | verkle-orderbook/main_verkle_fixed.go:610-614 | the order joins the back of its slot; slot volume and level total stay the sums of what remains |
| BookObjects.PriceLevel.RemoveAt | verkle-orderbook/main_verkle_fixed.go:802-809 | one order leaves its place, the others keep theirs, and the two volumes stay the sums of what remains |
| BookObjects.PriceLevel.ResizeAt | verkle-orderbook/main_verkle_fixed.go:869-875 | a size change that leaves the order open keeps its place and the two volumes exact |
| BookObjects.PriceLevel.ExecuteHead | verkle-orderbook/main_verkle_fixed.go:676-727 | one execution against the first order of a slot: volumes drop by the traded size, a used-up maker leaves, an open one stays first |
| BookObjects.PriceLevel.VolumeFacts | verkle-orderbook/main_verkle_fixed.go:183-195 | a level's total is what remains of its orders, and is zero exactly when none rest there |
| PriceTrie.PrefixStep | verkle-orderbook/main_verkle_fixed.go:412-422 | each step of the descent appends the selected hexadecimal digit to the price's prefix |
| PriceTrie.DigitsOrder | verkle-orderbook/main_verkle_fixed.go:475-536 | below one node prices are ordered as the digits that lead to them |
| PriceTrie.Trie.GetPriceLevel | verkle-orderbook/main_verkle_fixed.go:397-460 | the nibble trie refines a map from 64-bit prices: an existing level is found, distinct prices have distinct levels, a missing one is created empty only on demand, at its own price |
| PriceTrie.Trie.FindMaxPriceLevel | verkle-orderbook/main_verkle_fixed.go:475-504 | the right-first search returns the level with the numerically greatest price that has volume, or null when none has |
| PriceTrie.Trie.FindMinPriceLevel | verkle-orderbook/main_verkle_fixed.go:507-536 | the left-first search returns the level with the smallest price that has volume, or null when none has |
| PriceTrie.Trie.FindBest | verkle-orderbook/main_verkle_fixed.go:462-472 | the search from the root gives a best level that is not empty, or null when the whole side is empty |
| BookSpec.UncrossedAfter | verkle-orderbook/main_verkle_fixed.go:629-750 | matching only empties levels, so that it crosses nothing |
| BookSpec.TradedAppend | verkle-orderbook/main_verkle_fixed.go:684-717 | two runs of fills after each other leave one numbered trade log and one taker |
| BookSides.UncrossedPlaced | verkle-orderbook/main_verkle_fixed.go:606-620 | an order that no opposite level with volume suits can rest without crossing the book |
| BookSides.CacheChoice | verkle-orderbook/main_verkle_fixed.go:635-653 | the cached level, searched anew when it is absent or empty, is the true best level with volume, or there is no eligible one |
| BookSides.NewBest | verkle-orderbook/main_verkle_fixed.go:561-573 | a level that has gained volume takes over the cache when it is better; the cache stays a bound of every level with volume |
| BookSides.OutOfStep | verkle-orderbook/main_verkle_fixed.go:976-991 | a slot whose volume was right before one of its orders was filled in place is not sound afterwards |
| OrderBook.OrderBook.constructor | verkle-orderbook/main_verkle_fixed.go:325-364 | the new book is valid and empty |
| OrderBook.OrderBook.FillSlot | verkle-orderbook/main_verkle_fixed.go:669-730 | FIFO: the loop over a slot consumes its queue from the front, logs one trade per execution, and removes used-up makers from slot and index |
| OrderBook.OrderBook.FillLevel | verkle-orderbook/main_verkle_fixed.go:657-735 | slots 0 to 15 are consumed as one queue |
| OrderBook.OrderBook.BestOpposite | verkle-orderbook/main_verkle_fixed.go:631-653 | the head of the matching loop finds the true best opposite level within the limit, or there is none |
| OrderBook.OrderBook.TryMatch | verkle-orderbook/main_verkle_fixed.go:629-750 | the matching loop terminates and is `Executed`: the opposite side, flattened by best price, slot and arrival up to the limit, is consumed from the front as the queue specification says; the rest of the side is as it was |
| OrderBook.OrderBook.Match | verkle-orderbook/main_verkle_fixed.go:629-750 | the same for a taker that does not rest: its own side, the index of the others and the whole invariant are kept, the book stays uncrossed |
| OrderBook.OrderBook.InvalidateBestPricesCache | verkle-orderbook/main_verkle_fixed.go:561-573 | a new best price takes over the cache of its side; both caches stay bounds |
| OrderBook.OrderBook.NewOrder | verkle-orderbook/main_verkle_fixed.go:589-598 | the next id, which the index does not know, and an unfilled order with the slot of its trader and size |
| OrderBook.OrderBook.DetermineSlot | verkle-orderbook/main_verkle_fixed.go:576-586 | slot 1 exactly for traders below 100, slot 2 exactly for the others with a size below 1000, and otherwise 3 to 14, by the trader's remainder modulo 12 |
| OrderBook.OrderBook.SlotClasses | verkle-orderbook/main_verkle_fixed.go:576-586 | two traders with large orders share a slot if and only if they are congruent modulo 12 |
| OrderBook.OrderBook.Rest | verkle-orderbook/main_verkle_fixed.go:606-620 | an open order joins the back of its slot at its price and is indexed; without an eligible opposite level the book stays uncrossed |
| OrderBook.OrderBook.AddLimitOrder | verkle-orderbook/main_verkle_fixed.go:589-626 | keeps the whole invariant; the order trades as `Executed` says, what remains of it rests at the back of its slot, and it is indexed exactly when it is not filled |
| OrderBook.OrderBook.ExecuteMarketOrder | verkle-orderbook/main_verkle_fixed.go:753-779 | keeps the whole invariant; the order trades at any price as `Executed` says, and nothing of it rests |
| OrderBook.OrderBook.CancelOrder | verkle-orderbook/main_verkle_fixed.go:782-832 | keeps the whole invariant; exactly the order leaves its queue and the index, and succeeds exactly for an indexed id; a cached ask that had volume keeps it exactly unless the order was the last one at that level |
| OrderBook.OrderBook.MatchResting | verkle-orderbook/main_verkle_fixed.go:990-991 | matching an order that already rests does nothing without an eligible level, and otherwise always breaks its own side |
| OrderBook.OrderBook.ModifyOrder | verkle-orderbook/main_verkle_fixed.go:835-996 | the invariant survives if and only if the order, at a new price and still open, meets no opposite level with volume; then the order is gone, resized in place, or at the back of its new queue, and everything else is as it was |
| OrderBook.OrderBook.BestBidExact | verkle-orderbook/main_verkle_fixed.go:545-550 | in every valid book the best bid reported is the greatest bid price with volume, or 0 when there is none |
| OrderBook.OrderBook.BestAskExact | verkle-orderbook/main_verkle_fixed.go:553-558 | the best ask reported is right if and only if the cached ask still has volume or no ask has any |
| OrderBook.StaleAsk | verkle-orderbook/main_verkle_fixed.go:812-827 | a concrete run: asks at 10 and 20, the one at 10 cancelled; the book still has 20 and reports 0 |
| OrderBook.CrossingModify | verkle-orderbook/main_verkle_fixed.go:976-991 | a concrete run: an ask at 10, a bid at 5, and the bid changed to 10; the book was valid and is not any more |
| BookLaws.Conservation | verkle-orderbook/main_verkle_fixed.go:629-750 | the total of the new trades is what the taker gained, what the opposite side lost, and the smaller of the taker's size and the eligible volume |
| BookLaws.SideRead | verkle-orderbook/main_verkle_fixed.go:629-669 | the queue that a taker meets has exactly the orders of the levels within its limit, asks by rising and bids by falling price, then by slot, then as they stand in their slot |
| BookLaws.PriceTimePriority | verkle-orderbook/main_verkle_fixed.go:629-750 | trade by trade, in all fields: makers in the order best price, slot, arrival; at the maker's price, within the limit, with consecutive ids, the ids and traders of both, the taker's side; each maker whole but perhaps the last, partial exactly when something of it is left, and the taker partial exactly when the trades so far do not fill it; who is behind the last maker stays as it was |
| BookTiers.TiersInTurn | verkle-orderbook/main_verkle_fixed.go:576-586 | at one price a taker meets all traders below 100 first, then the small orders of the others, then the rest, if everybody is in the slot of their tier |
| BookTiers.TiersTraded | verkle-orderbook/main_verkle_fixed.go:629-750 | trading moves nobody out of the slot of their tier |
| BookTiers.WithoutLeft | verkle-orderbook/main_verkle_fixed.go:782-832 | taking an order off the table removes just this order from its queue, and all others keep their place |
| BookTiers.ReplacedChanges | verkle-orderbook/main_verkle_fixed.go:869-875 | a change in place keeps the order's place in its queue, and touches no other queue |
| BookTiers.PlacedBack | verkle-orderbook/main_verkle_fixed.go:606-614 | an order that comes to rest stands behind all who are at its price and in its slot, and touches no other queue |
| BookRuns.BookPriced | verkle-orderbook/main_verkle_fixed.go:589-626 | in every valid book each resting order stands at the level of its price, in the slot of its number, with something left: what the priority law asks of a side |
| BookRuns.Open | verkle-orderbook/main_verkle_fixed.go:325-364 | in a new book everybody is in the slot of their tier, which every operation then keeps |
| BookRuns.TiersFirst | verkle-orderbook/main_verkle_fixed.go:576-620 | in every valid book whose orders rest in their slots, VIP orders come before small retail orders, and these before all others, at each price |
| BookRuns.AddByPriority | verkle-orderbook/main_verkle_fixed.go:589-626 | a limit order on any valid book gets the slot of its trader and size, trades by price and time, conserves what is traded, and what is left of it stands behind all who were at its price and in its slot; everybody stays in the slot of their tier |
| BookRuns.TakeByPriority | verkle-orderbook/main_verkle_fixed.go:753-779 | the same for a market order at any price, of which nothing rests |
| BookRuns.CancelInOrder | verkle-orderbook/main_verkle_fixed.go:782-832 | exactly the order leaves its queue, all others keep their place, the other side is as it was, and everybody stays in the slot of their tier |
| BookRuns.ModifyInOrder | verkle-orderbook/main_verkle_fixed.go:835-996 | the book stays valid if and only if the price is the old one, or nothing remains, or no opposite order is within the new price; then the order is gone, keeps its place, or stands behind all others in the slot for its new price and size, nobody else moves, and nothing is traded |
| BookRuns.BestPricesAre | verkle-orderbook/main_verkle_fixed.go:545-558 | the best bid is the highest price at which anybody rests; the best ask the lowest, exactly when the cached ask is fresh, and otherwise 0 |
| BitKeys.BitSetBit | smt-v2/trie_merkle_proof.go:48-68 | setting a bit of a byte string sets that bit and no other |
| BitKeys.BitIsBitOf | smt-v2/trie.go:293-300 | bit i of a byte string in numbers: bits of a byte count from the most significant one |
| BitKeys.BitsDetermine | smt-v2/trie.go:293-300 | keys with the same 256 bits are one key |
| BitKeys.LessBit | smt-v2/trie.go:293-300 | under common leading bits the smaller key has the clear bit: a sorted list splits at its first key that goes right |
| BitTreeModel.Binding | smt-v2/trie.go:549-606 | one digest names one map and one height, up to the height of a tagged leaf, or the two trees exhibit a hash collision |
| BitTreeModel.Unique | smt-v2/trie.go:549-606 | on a collision-free universe a digest determines the map below it |
| BitTreeModel.RootLaw | smt-v2/trie.go:549-606 | what is hashed, in full: nothing for no entry; for one entry key, value and the height in one byte, in which 256 is 0; otherwise the digests of the two sides of the next bit, and the byte 0 for an empty side |
| BitTreeModel.ApplyHalf | smt-v2/trie.go:194-206 | a list of writes distributes over the two halves of a map |
| BitWrites.SplitKeys | smt-v2/trie.go:293-300 | for every list of keys in order that agree above a bit, the split at the first key that goes right gives the writes of the two sides |
| BitWrites.MaybeAddShortcut | smt-v2/trie.go:370-414 | for every list of writes in key order, the pushed-down leaf joins it so that map and writes together stay the same, if and only if its own key is not deleted strictly inside the list; the result is in key order |
| BitBatches.MoveLeafUp | smt-v2/trie.go:331-366 | the array writes that move a lone leaf from a child to its node leave exactly that leaf below the node |
| BitDatabase.PutHeld | smt-v2/trie.go:569-583 | storing a batch and then deleting the old root keeps everything a subtree needs loadable, but for the digests that are known to go |
| BitDatabase.PutKept | smt-v2/trie.go:569-583 | storing and deleting at a node touches no batch of another subtree |
| BitDatabase.LostExactly | smt-v2/trie.go:569-583 | of the digests that an update deletes, exactly those in `Lost` are needed by the new trie |
| BitDatabase.Twins | smt-v2/trie.go:549-566 | a leaf pushed down to height 0, where its tag is that of height 256, has its old digest again: exactly when the two keys differ only in the last bit |
| BitTree.Trie.constructor | smt-v2/trie.go:49-65 | a new trie is valid, holds the empty map with nothing missing, and has a nil root |
| BitTree.Trie.LoadBatch | smt-v2/trie.go:445-498 | the array in `updatedNodes` itself, else a new copy of the committed batch, else unavailable: exactly when the digest is in neither |
| BitTree.Trie.StoreNode | smt-v2/trie.go:569-583 | the flagged digest is stored unless it equals the old root, and then the old root is deleted, which may be what was just stored |
| BitTree.Trie.DeleteOldNode | smt-v2/trie.go:275-290 | exactly the batch under this digest is deleted |
| BitTree.Trie.LoadChildren | smt-v2/trie.go:418-442 | a node is found with its own batch, slot, children and shortcut flag, and is unavailable exactly when its batch is neither updated nor committed |
| BitTree.Trie.LeafHash | smt-v2/trie.go:549-566 | a leaf is hashed with the tag of its height, placed in its batch, and stored at the root of a batch, where the old root goes; other subtrees keep their batches |
| BitTree.Trie.InteriorHash | smt-v2/trie.go:588-606 | two halves that are in place make an interior node that is in place, with `DefaultLeaf` for a missing child; the old root's batch goes, and other subtrees keep theirs |
| BitTree.Trie.MoveUpShortcut | smt-v2/trie.go:331-366 | the only leaf of a subtree ends at the node, hashed with its new height, in all three cases of the batch layout; the batches it leaves are deleted, and no other |
| BitTree.Trie.MaybeMoveUpShortcut | smt-v2/trie.go:303-329 | an empty subtree disappears with its batch, a subtree with one leaf becomes that leaf, and everything else is left alone |
| BitTree.Trie.Update | smt-v2/trie.go:127-206 | for every map, height and updated key, insert or delete, also of an absent key: the result is the node of the map after the writes, every leaf at the highest subtree that holds only its key; all it needs can be loaded but for what `Gone` says, and no batch of another subtree is touched |
| BitTree.Trie.UpdateChildren | smt-v2/trie.go:209-272 | updating one or both sides and putting the node together again gives the node of the updated map |
| BitTree.Trie.UpdateKey | smt-v2/trie.go:72-90 | `Update` of one key leaves the trie with just this key written or deleted, and the one root of that map; it stays readable in full if and only if the batches of `Lost` are committed, and `Lost` is empty for a write that changes the map, but for the twin of a lone key |
| BitTree.Trie.RootBytes | smt-v2/trie.go:549-606 | in every valid trie, what the root is the hash of: nothing, one entry with the byte 0, or the digests of the keys that start with a clear and with a set bit |
| BitTree.Trie.Commit | smt-v2/trie_tools.go:161-173 | the updated nodes move to the store; nothing becomes readable or unreadable by it |
| BitTree.WrittenTwice | smt-v2/trie.go:569-583 | a concrete run: the same entry written twice; `Get` finds it after the first write, and is unavailable after the second, also after a commit |
| BitTree.Trie.Get | smt-v2/trie_tools.go:78-83 | `Get` gives the entry of the map that the updates left, and fails as unavailable exactly when a batch on the way of the key is missing |
| BitTree.Trie.IntactReads | smt-v2/trie_tools.go:78-113 | a trie with nothing missing answers every key |
| BitTree.Trie.GetFrom | smt-v2/trie_tools.go:86-113 | reading below any node gives the entry of its map or nothing, and is unavailable exactly when a batch on the way is missing |
| BitTree.RootsDecideMaps | smt-v2/trie.go:127-206 | two tries, whatever their histories and losses, have one root exactly when they hold one map |
| BitTree.Trie.MerkleProof | smt-v2/trie_merkle_proof.go:18-28 | the proof built from the database is the proof of the trie's map, and is unavailable exactly when a batch on the way of the key is missing |
| BitTree.Trie.ProofFrom | smt-v2/trie_merkle_proof.go:76-117 | below every node the builder gives the audit path, the leaf found and whether it is the key's own, or is unavailable exactly when a batch on the way is missing |
| BitProofs.VerifyNonInclusion | smt-v2/trie_merkle_proof.go:138-160 | the loop over the bits decides whether the empty subtree or the other leaf is on the key's path and folds to the root |
| BitProofs.ProofFolds | smt-v2/trie_merkle_proof.go:120-135 | folding the proof of any key from the leaf it names gives the digest of the tree |
| BitProofs.ProofLaw | smt-v2/trie_merkle_proof.go:76-117 | an audit path goes down exactly as far as two entries or more agree with the key, and, read from its end, has at every bit the digest of the entries that leave the key's way there, or the byte 0 for none |
| BitProofs.Completeness | smt-v2/trie_merkle_proof.go:76-160 | on every non-empty trie and for every key the proof is accepted: as inclusion with the stored value when the key is present, as non-inclusion otherwise |
| BitProofs.EmptyTrieRejects | smt-v2/trie_merkle_proof.go:138-143 | on the empty trie the proof of non-inclusion is not accepted: the root is nil and not `DefaultLeaf` |
| BitProofs.InclusionSound | smt-v2/trie_merkle_proof.go:120-135 | an accepted inclusion proof names an entry of the map, or exhibits a hash collision |
| BitProofs.NonInclusionSound | smt-v2/trie_merkle_proof.go:138-160 | an accepted proof of non-inclusion is true if and only if its leaf is not the key's own, or it exhibits a hash collision |
| BitProofs.OwnLeafAccepted | smt-v2/trie_merkle_proof.go:138-160 | for every key of every map its own leaf is accepted as a proof that the key is absent |
| BitProofs.Compress | smt-v2/trie_merkle_proof.go:48-68 | the bitmap marks exactly the entries that are not `DefaultLeaf`, and the list keeps just these, in order |
| BitProofs.SurvivorAt | smt-v2/trie_merkle_proof.go:48-68 | an entry that is not the byte 0 stands in the list behind those that come before it |
| BitProofs.SurvivorCount | smt-v2/trie_merkle_proof.go:48-68 | the list has as many entries as the path has that are not the byte 0 |
| BitProofs.CompressionExact | smt-v2/trie_merkle_proof.go:169-184 | for every audit path, key and leaf, the fold over bitmap and surviving nodes computes what the fold over the full path does |
| BitProofs.FoldExpanded | smt-v2/trie_merkle_proof.go:169-184 | for every bitmap and list in range, the compressed fold is the full fold of the path that they stand for |
| BitProofs.InclusionExpanded | smt-v2/trie_merkle_proof.go:163-166 | every compressed inclusion proof is accepted exactly when the path that it stands for is |
| BitProofs.CompressedInclusion | smt-v2/trie_merkle_proof.go:163-166 | a compressed inclusion proof is accepted exactly when the full one is |
| BitProofs.CompressedInclusionSound | smt-v2/trie_merkle_proof.go:163-166 | whatever bitmap and list are accepted, they name an entry of the map or exhibit a hash collision |
| BitProofs.VerifyNonInclusionC | smt-v2/trie_merkle_proof.go:188-210 | the compressed verifier of non-inclusion decides the same two conditions on bitmap and surviving nodes |
| BitProofs.NonInclusionExpanded | smt-v2/trie_merkle_proof.go:188-210 | every compressed proof of non-inclusion is accepted exactly when the path that it stands for is |
| BitProofs.CompressedNonInclusion | smt-v2/trie_merkle_proof.go:188-210 | a compressed proof of non-inclusion is accepted exactly when the full one is |
| BitProofs.CompressedNonInclusionSound | smt-v2/trie_merkle_proof.go:188-210 | whatever bitmap and list are accepted, the claim is true if and only if the leaf is not the key's own, or they exhibit a hash collision |
| GlobalRoot.ComputeMerkleRoot | mt-manager/merkletree/manager.go:233-272 | the level loop computes the root of the zero-padded binary tree over the list |
| GlobalRoot.RootIsTop | mt-manager/merkletree/manager.go:233-272 | the root is the top of the binary tree over the list, seen from above: left before right, and 32 zeros for a node over none of its digests |
| GlobalRoot.SmallRoots | mt-manager/merkletree/manager.go:233-272 | the roots of one, two and three digests, written out |
| GlobalRoot.ClimbLevel | mt-manager/merkletree/manager.go:352-394 | one level: the parents, and the sibling of the index with its side |
| GlobalRoot.ComputeProofPath | mt-manager/merkletree/manager.go:340-397 | the path has the sibling and the side of every level of the tree |
| GlobalRoot.PathIsSiblings | mt-manager/merkletree/manager.go:340-397 | the path has, level by level, the sibling in that tree of the node over the index, and the side of the node itself |
| GlobalRoot.PathFolds | mt-manager/merkletree/manager.go:340-397 | for every non-empty list and index, folding the path from the indexed digest gives the root, also on odd levels |
| GlobalRoot.PathLength | mt-manager/merkletree/manager.go:340-397 | the path has ceil(log2 n) digests |
| GlobalRoot.Binding | mt-manager/merkletree/manager.go:233-272 | two lists of one length with one root are one list, or two hashed pairs collide |
| GlobalRoot.PaddingTwin | mt-manager/merkletree/manager.go:246-262 | equal lengths are needed: an odd list and that list with a zero digest appended have one root |
| GlobalRoot.Verify | mt-manager/merkletree/merkle_proof.go:18-39 | the loop folds the path from the tree root and compares with the global root |
| GlobalRoot.VerifySound | mt-manager/merkletree/merkle_proof.go:18-39 | a path of the right length that folds to the root starts from the digest at the position its flags describe, or two hashed pairs collide, or a hashed pair gives the zero digest |
| LruCache.Lru.constructor | mt-manager/merkletree/cache_lru.go:25-31 | a new cache is valid and empty |
| LruCache.Lru.RemoveNode | mt-manager/merkletree/cache_lru.go:117-129 | a node at any place leaves the doubly linked list, which stays linked both ways |
| LruCache.Lru.AddToHead | mt-manager/merkletree/cache_lru.go:91-104 | a node comes first, and the list stays linked both ways |
| LruCache.Lru.MoveToHead | mt-manager/merkletree/cache_lru.go:107-114 | an entry comes first, the others keep their order |
| LruCache.Lru.RemoveTail | mt-manager/merkletree/cache_lru.go:146-153 | exactly the least recent entry goes, from the list and from the map |
| LruCache.Lru.Put | mt-manager/merkletree/cache_lru.go:33-55 | the entry comes first with its new value, the others keep their order, and what exceeds the capacity is evicted from the least recent end |
| LruCache.Lru.Get | mt-manager/merkletree/cache_lru.go:58-75 | the value of the entry, which comes first; a miss changes nothing |
| LruCache.Lru.TryGet | mt-manager/merkletree/cache_lru.go:78-88 | the value of the entry, without a change |
| LruCache.Lru.Delete | mt-manager/merkletree/cache_lru.go:132-143 | exactly this entry goes |
| LruCache.Lru.Clear | mt-manager/merkletree/cache_lru.go:156-163 | nothing remains |
| LruCache.Lru.Resize | mt-manager/merkletree/cache_lru.go:166-178 | shrinking keeps exactly the most recent entries that fit |
| LruCache.Lru.Size | mt-manager/merkletree/cache_lru.go:181-185 | the number of entries, which never exceeds the capacity |
| LruCache.WithoutDistinct | mt-manager/merkletree/cache_lru.go:33-55 | ids stay distinct, most recent first |
| LruCache.PutThenLookup | mt-manager/merkletree/cache_lru.go:33-75 | with room for one entry a put is found; other entries are found as before unless one too many is held |
| OrderCodec.VarintReads | protobuf-deserialize/order_vtproto.pb.go:169-183 | the parser's varint loop reads back an encoded number from any shift and accumulator, if 64 bits hold it |
| OrderCodec.FieldParses | protobuf-deserialize/order_vtproto.pb.go:165-437 | a written field anywhere in the input makes one round of the parser set that field and go on just behind it |
| OrderCodec.FieldsParse | protobuf-deserialize/order_vtproto.pb.go:161-463 | an encoded list of fields, in any order and with repetitions, is consumed in full, and the last value of each field stays |
| OrderCodec.MessageParses | protobuf-deserialize/order_vtproto.pb.go:161-463 | reading an encoded message merges it into the one at hand and goes on behind it |
| OrderCodec.RoundTrip | protobuf-deserialize/order_vtproto.pb.go:39-113 | unmarshalling a marshalled message into a fresh one gives the same fields |
| OrderCodec.ConcatenationMerges | protobuf-deserialize/order_vtproto.pb.go:161-463 | two encoded messages one after the other parse as the merge in which the later fields win |
| OrderCodec.MessageBytes | protobuf-deserialize/order_vtproto.pb.go:39-113 | the bytes of a message, every field under its tag in hexadecimal, in the order of the field numbers, and no byte for a zero or empty field |
| OrderCodec.VarintBytes | protobuf-deserialize/order_vtproto.pb.go:53-56 | byte k of a varint has bits 7k to 7k + 6 of the number, and the top bit exactly when it is not the last |
| OrderCodec.VarintLength | protobuf-deserialize/order_vtproto.pb.go:53-56 | a varint has as many bytes as the number needs, and one at least |
| OrderCodec.ReadLaw | protobuf-deserialize/order_vtproto.pb.go:169-183 | what the varint loop makes of every input: the number that the seven-bit groups stand for modulo 2^64, or the end of the input, or an overflow after ten bytes with the top bit |
| OrderCodec.TagErrors | protobuf-deserialize/order_vtproto.pb.go:184-198 | which one-byte tags end in which error |
| OrderMessage.SizeIsLength | protobuf-deserialize/order_vtproto.pb.go:115-159 | the size by bit length is the number of bytes of the varint, for every number |
| OrderMessage.EncodeVarint | protobuf-deserialize/order_vtproto.pb.go:53-56 | the varint ends just before the given position, and every other byte of the buffer is as it was |
| OrderMessage.OrAdds | protobuf-deserialize/order_vtproto.pb.go:169-183 | shifting a seven-bit group into a 32-bit or 64-bit word and or-ing it in is adding it modulo the width |
| OrderMessage.ReadLoop | protobuf-deserialize/order_vtproto.pb.go:169-183 | a varint loop with a 32-bit or 64-bit accumulator gives the number modulo the width, or the same error |
| OrderMessage.ReadString | protobuf-deserialize/order_vtproto.pb.go:285-319 | the length of a byte string is accepted exactly when the string is within the input; negative lengths and sums are errors |
| OrderMessage.PutNumber | protobuf-deserialize/order_vtproto.pb.go:53-57 | a block of the writer puts the tag and varint of a non-zero number just before the given position |
| OrderMessage.PutBytes | protobuf-deserialize/order_vtproto.pb.go:68-74 | a block of the writer puts tag, length and bytes of a non-empty string just before the given position |
| OrderMessage.Message.SizeVT | protobuf-deserialize/order_vtproto.pb.go:115-159 | the size is the exact length of the encoding |
| OrderMessage.Message.MarshalToSizedBufferVT | protobuf-deserialize/order_vtproto.pb.go:39-113 | the backward writer fills exactly the last bytes of the buffer with the encoding, fields in the order of their numbers, and changes nothing else |
| OrderMessage.Message.MarshalToVT | protobuf-deserialize/order_vtproto.pb.go:34-37 | the encoding stands at the front of the buffer, and the rest is as it was |
| OrderMessage.Message.MarshalVT | protobuf-deserialize/order_vtproto.pb.go:21-32 | the fresh buffer is the encoding, without a byte to spare |
| OrderMessage.Message.ReadField | protobuf-deserialize/order_vtproto.pb.go:165-437 | one round of the parser changes the message and the position as the wire format says, or ends in the same error |
| OrderMessage.Message.UnmarshalVT | protobuf-deserialize/order_vtproto.pb.go:161-463 | the parser merges the input into the message as the wire format says, or ends in the same error |
| Routing.TxRouter.RouteInRange | v2-tx-pipeline/main.go:877-902 | the route is the number of a prepare worker if and only if no negative worker was configured by hand (up to multiples) |
| Routing.TxRouter.RouteClasses | v2-tx-pipeline/main.go:884-901 | without manual routes worker 0 serves system users alone, and two other users share a worker exactly when they are congruent |
| Routing.TxRouter.ManualRoute | v2-tx-pipeline/main.go:877-883 | a route set by hand is wrapped around into the range of the workers, and keeps its sign |
| Routing.TxRouter.Serves | v2-tx-pipeline/main.go:884-901 | whom each prepare worker serves: worker 0 the system users, and everybody when there is no other; worker w the users who are w - 1 modulo the number of the others |
| Routing.ExecutionRouter.Serves | v2-tx-pipeline/main.go:926-949 | whom each executor serves: executor 0 the system users, whatever they trade; executors 1 to `DedicatedCount` the market of their number; the others the small markets in turn; the small markets go to executor 0 when nobody else is there for them |
| Routing.ExecutionRouter.Route | v2-tx-pipeline/main.go:926-949 | the route is always the number of an executor |
| Routing.ExecutionRouter.RouteClasses | v2-tx-pipeline/main.go:926-949 | a dedicated worker serves exactly one market; two markets of ordinary users share an executor only in the shared pool, exactly when they are congruent there |
| NonceOrder.DispatchedAreMaxima | v2-tx-pipeline/main.go:1271-1413 | the dispatched nonces are the strict running maxima above the initial nonce if and only if nothing arrives after the nonce 2^64 - 1 |
| NonceOrder.DispatchedIncrease | v2-tx-pipeline/main.go:1271-1371 | they strictly increase from the initial nonce under exactly the same condition |
| NonceOrder.WrapExample | v2-tx-pipeline/main.go:1274-1275 | a concrete input for which they do not: after 2^64 - 1 a lower nonce is dispatched |
| NonceOrder.EarlyDropHarmless | v2-tx-pipeline/main.go:1076-1085 | leaving out an arrival that is not above the stored nonce changes nothing that is dispatched, wherever among the later arrivals it would have come, as long as no nonce wraps around |
| NonceOrder.EarlyDropAgrees | v2-tx-pipeline/main.go:1076-1085 | what a decoder drops the worker would drop later, if and only if the stored nonce is not the greatest |
| PrepareQueue.UserBuffer.Add | v2-tx-pipeline/main.go:1208-1228 | the shifting loop inserts the entry behind the last one that does not have a greater nonce |
| PrepareQueue.InsertSorts | v2-tx-pipeline/main.go:1208-1228 | insertion keeps a buffer sorted |
| PrepareQueue.InsertAdds | v2-tx-pipeline/main.go:1208-1228 | insertion adds just the new entry |
| PrepareQueue.DrainsWhile | v2-tx-pipeline/main.go:1328-1380 | the longest prefix in which no nonce is below the one before it, the first being compared with the expected nonce |
| PrepareQueue.ArriveLaw | v2-tx-pipeline/main.go:1271-1413 | for any buffer: a nonce that is stored or passed, or a buffer of 1024 entries, changes nothing; otherwise the transaction is sent or waits, in order with the others, and the last nonce sent is stored |
| PrepareQueue.DrainsAll | v2-tx-pipeline/main.go:1328-1380 | a sorted buffer without stale entries is dispatched whole |
| PrepareQueue.ArriveEmpty | v2-tx-pipeline/main.go:1271-1413 | an arrival at an empty buffer leaves it empty: it is dispatched at once or dropped |
| PrepareWorkers.PrepareWorker.Drain | v2-tx-pipeline/main.go:1328-1380 | the loop sends the longest prefix whose nonces do not fall below the last one, each entry to its executor's channel, and stores the last nonce |
| PrepareWorkers.PrepareWorker.Handle | v2-tx-pipeline/main.go:1235-1424 | one job changes the user's buffer, nonce and the executors' channels as the arrival specification says, and no other user's |
| PrepareWorkers.StepsAgree | v2-tx-pipeline/main.go:1235-1424 | the steps of a worker that nothing interrupts do what the loop body does |
| Pipeline.Keeps | v2-tx-pipeline/main.go:1039-1436 | every step of every goroutine keeps the invariant |
| Pipeline.SentIsAbove | v2-tx-pipeline/main.go:1328-1371 | what a worker is about to send is above everything that it has sent for this user, unless nonces wrapped around |
| Pipeline.NoncesInOrder | v2-tx-pipeline/main.go:1235-1424 | in every interleaving a user's dispatched nonces are, but for one on its way, the strict running maxima of the arrivals at its one worker, if and only if nothing arrived after 2^64 - 1 |
| Pipeline.BuffersHoldOne | v2-tx-pipeline/main.go:1301-1325 | in every interleaving a user's buffer holds one entry at most, and none between jobs, so that its limit of 1024 is never met |
| Pipeline.ExecutorsSeeIncreasing | v2-tx-pipeline/main.go:1487-1543 | in every interleaving every executor gets only what is routed to it, each user's nonces strictly increasing, unless they wrapped around |
| Pipeline.ExecutorsSeeRouted | v2-tx-pipeline/main.go:1328-1371 | in every interleaving what an executor is given of a user is exactly the part of the user's dispatched transactions that is routed to it, in order, so that it sees the nonces increase if and only if they do in that part |
| Pipeline.ExecutorsServe | v2-tx-pipeline/main.go:926-949 | in every interleaving executor 0 is given all transactions that are dispatched for a system user, in the order of dispatch, and no other executor any; of an ordinary user every executor is given those in its markets |
| NonceReplay.OutOfOrder | v2-tx-pipeline/main.go:1271-1413 | a run of the whole pipeline in which an executor gets the nonce 2^64 - 1 and then the nonce 7 of one user |
| Pipeline.EarlyDropLosesNothing | v2-tx-pipeline/main.go:1076-1085 | in every interleaving, had a transaction that a decoder drops come in at any later place, and no nonce wrapped around then, its user's dispatched nonces would be the same |
| Pipeline.WorkerAgrees | v2-tx-pipeline/main.go:1275-1300 | a worker between two jobs of the user would drop it too, if and only if the stored nonce is not the greatest |
| PipelineFlow.Flow | v2-tx-pipeline/main.go:1039-1543 | in every interleaving and for every transaction, stage by stage: as often as it came in it waits for a decoder, was admitted or was turned away; as often as it was admitted it waits for a verifier, was found signed or forged; as often as signed it waits at its worker, was taken or was stale; as often as taken it is held or was sent; as often as sent it waits at an executor or was executed; and it was dropped as often as it was turned away, forged or stale |
| PipelineFlow.OnlySigned | v2-tx-pipeline/main.go:1148-1186 | in every interleaving a transaction is behind the verifiers, or executed, at most as often as a verifier found its signature valid |
| PipelineFlow.VerifyLaw | v2-tx-pipeline/main.go:1103-1187 | in every interleaving a valid signature takes the transaction to the end of its user's worker's channel, and nowhere else, and any other signature drops it |
| PipelineFlow.Recorded | v2-tx-pipeline/main.go:1231-1436 | the recorded arrivals and dispatches of a user are what its worker took and what was sent during the run, in order |
| PipelineFlow.NothingLost | v2-tx-pipeline/main.go:1039-1543 | conservation: in every interleaving each transaction that came in is in exactly one place, as often as it came in |

## Left out

- Smt.SMT.UpdateChildren: batches above `ParallelThreshold` run one group after the other; in the source their goroutines share one array, and which of them reads or writes an entry first is not part of this model. Where nothing is written behind a slice (`StepUndisturbed`) they touch disjoint slices.
- Smt.Append: a new array has any length from the needed one on, because the language promises no more; `sort.Slice` is an insertion sort.
- Smt.SMT.Get: keys are 32 bytes; `toArray` cuts or pads other lengths. `LoadRoot` and stores that fail to write are not part of this model.
- BookObjects.PriceLevel.Append: asks that the level's volume and the order's remainder stay below 2^64 together, where `safeAdd` would saturate and the volumes would not be sums any more.
- BookObjects.PriceLevel.ResizeAt: the same bound for the new size.
- OrderBook.OrderBook.Rest: the same bound for the order that rests.
- OrderBook.OrderBook.AddLimitOrder: the same bound for the order's size, and order ids that do not run out.
- OrderBook.OrderBook.NewOrder: order ids do not run out; after 2^64 - 1 of them the counter would wrap and ids would not be unique.
- OrderBook.OrderBook.ExecuteMarketOrder: order ids do not run out.
- BookRuns.AddByPriority: the bounds of `AddLimitOrder`.
- BookRuns.TakeByPriority: order ids do not run out.
- BookRuns.ModifyInOrder: the bounds of `ModifyOrder`.
- OrderBook.OrderBook.ModifyOrder: asks that the volume at the new price and the whole new size stay below 2^64 together; says of a crossing change only that the invariant is broken, not what the broken book looks like.
- Order book: locks, pools (an order from the pool is a fresh object), statistics, time stamps of trades, the periodic hash of the tree and printing.
- BitTree.Trie.UpdateKey: one key per update, on a trie of which nothing is missing; an update after a loss fails on its way, and what it leaves then is not part of this model.
- BitTree.Trie.UpdateChildren: the two sides of `updateParallel` run one after the other; they write disjoint slots of the batch.
- BitTree.Trie.LoadBatch: the live cache is off, as `CacheHeightLimit` above the height of the trie leaves it; `AtomicUpdate`, `Stash`, `Revert`, past tries and the serialisation of committed batches (`parseBatch`) are not part of this model.
- GlobalRoot.ComputeMerkleRoot: the cached global root of the manager and everything that needs `Tree`.
- LruCache.Lru.Get: one atomic operation; the source gives up the read lock before it takes the write lock. Capacities are not negative.
- OrderMessage.Message.UnmarshalVT: an unknown field ends in an outcome of its own, because `Skip` of the runtime is not part of this model; what a message holds after an error is left open, and so is the sharing of byte slices.
- OrderMessage.Message.ReadField: the same outcome for an unknown field.
- OrderMessage.Message.SizeVT: a message has no unknown fields to be counted.
- OrderMessage.Message.MarshalToSizedBufferVT: a message has no unknown fields to be copied; the same holds for `MarshalToVT` and `MarshalVT`.
- OrderMessage.Message.MarshalToVT: as for `MarshalToSizedBufferVT`.
- OrderMessage.Message.MarshalVT: as for `MarshalToSizedBufferVT`.
- OrderMessage.EncodeVarint: the runtime's writer and size function are modelled from the Encoding specification and from the runtime's published form, because their source is not in the repository.
- Pipeline.ExecutorsSeeIncreasing: one direction; a wrap-around is not visible to every executor. `ExecutorsSeeRouted` has both.
- Pipeline.EarlyDropLosesNothing: one direction; after a wrap-around the dropped nonce may or may not have mattered.
- PipelineFlow.NothingLost: counts transactions, not the `WaitGroup`; decoding of bytes, signatures, metrics and the signature cache are inputs of the steps.
- Pipeline channels are unbounded: a full channel only delays a step.
- verkle-orderbook/main.go and main_verkle_only.go, the tree test beds, accounts-tree-bench, generators, gRPC, JSON and Pebble stores.
- Cryptography and compression.

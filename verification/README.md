# A verified model of the concurrent map, the replicated set and the packed containers

This project models four parts of the repository in Dafny and proves what they are for.

- **The concurrent hash map** (`src/chashmap`). Threads read, write and resize one table together, as
  a state machine whose steps are the accesses to shared memory (`ResizeModel`). Its invariant
  (`ResizeInvariant`, `ResizeSteps`, `ResizeCopying`) gives the resize protocol over all runs
  (`ResizeProtocol`) and the refinement of a plain map (`ResizeMap`); three runs show where the
  protocol fails (`ResizeStray`, `ResizeClosing`, `ResizeLoss`). Below it stand the walk of a lookup
  along the nodes of a bin that others change (`BinWalk`), the splitting of bins (`BinSplit`,
  `TreeSplit`) and the red-black trees of tree bins on the heap (the `Tree…` modules), tied to the maps
  of the state machine by `BinMaps`; beside it, the lock on the root of a tree bin (`TreeBinLock`) and
  the iterator over a table that is being resized (`Traverser`).
- **The observed-remove set** (`src/crdts`). Vector clocks (`VClock`), the set with its deferred
  removals (`Orswot`), the laws of merging any number of replicas (`OrswotMerge`), and convergence
  under any mixture of deliveries and merges (`OrswotDelivery`).
- **The packed list and its codecs** (`src/svalue/zip_list.rs`). The byte formats (`ZipListCodec`), the
  layout of a block (`ZipListLayout`, `ZipListBlock`), insertion and deletion with the cascade of
  growing length fields (`ZipListSpots`, `ZipListEdits`, `ZipListDeletion`, `ZipLists`), and the walks
  from either end (`ZipListIterators`).
- **The other containers** (`src/svalue`). The skip list with its spans (`SkipLevels`, `SkipNodes`,
  `SkipLists`), the dictionary that moves its entries a bucket at a time (`DictTables`, `Dicts`,
  `DictIterators`), the packed set of integers (`IntSets`) and the doubly linked list (`LinkedLists`).

Code that works in place is modelled in place: classes with the source's fields, nodes with the source's
pointers, byte blocks that are spliced and overwritten. Each loop carries its invariants, and each
method is proved against a sequence, a map, a set or a tree of values. Numbers are unbounded unless the
source masks, shifts or truncates them; where it does, that is written out. `MultiMaps`, `Bits`, `Bytes`,
`Options` and `Values` hold what several parts share.

`dafny verify dfyconfig.toml` checks the whole project.

## Findings

Some properties that the code is meant to have are false of it. Each is shown by an input, a run or the
exact condition under which it fails, and what does hold is proved.

- **A helper may join the resize of another table than the one it means** (src/chashmap/map.rs:659-677).
  It compares the tables before it reads `size_ctl`, and of the stamp in that word it only asks whether
  it closes a resize of its own table. When one resize ends and the next begins in between, it counts
  itself into the next one.
  - The protocol (the word is the stamp, plus one, plus the number of threads that copy the table; one
    thread finishes; no next table is left over; all bins are moved at the end) holds in all states of a
    run **if and only if** no such join takes place in it: `ResizeProtocol.ProtocolIffNoStray`.
  - A stray that leaves last does not see that it is the last. Nobody finishes that resize, and the
    table is never replaced again: `ResizeStray.AbandonedIsReachable`, with tables of two and four bins,
    and `ResizeStray.AbandonedForever`. What the map holds is not affected: `ResizeMap.RunsAreMaps`
    covers that run.
  - A stray that joins while the word counts no helper, that is, while the last thread sweeps, does
    harm. It takes one from the load factor that the last thread has stored:
    `ResizeClosing.WrongWordIsReachable`, with tables of 16 and 32 bins.
  - Such a join also opens the resize again to helpers of its own table. One of them becomes a second
    thread that finishes it (`ResizeLoss.TwoFinishersAreReachable`), puts a table back in place that has
    been replaced since, and the next resize loses what was written in the meantime:
    `ResizeLoss.EntriesCanBeLost`. The map holds in all runs without a join that harms
    (`ResizeMap.RunsAreMaps`); this run shows that the condition cannot be dropped.
- **An insertion into a packed list can leave a block that reads back wrong**
  (src/svalue/zip_list.rs:679-798). When the size of the entry behind the new one falls to one byte, its
  follower keeps a field of five bytes with the size in the last one, and is read as if the field had
  one byte. It happens exactly when the entry in front is 254 bytes or longer, the new one is shorter,
  the one behind has 254 to 257 bytes now, and yet another follows: `ZipLists.ZipList.InnerInsert` with
  `ZipListEdits.InsertShrinks`. Input: strings of 300 and 247 bytes and the number 1, with the number 5
  inserted as the second entry (`ZipListFailures.InsertionCanFail`).
- **A deletion from a packed list can leave a wrong block** (src/svalue/zip_list.rs:800-840). It happens
  exactly when the field in front of the first entry left behind changes its width, and either that entry
  is the last one, so that the tail is wrong, or the width falls and the size of that entry falls to one
  byte with another one behind it: `ZipLists.ZipList.InnerDelete` with `ZipListDeletion.DeleteFails`. Input:
  a string of 300 bytes and the number 1, without the first (`ZipListFailures.DeletionCanFail`).
- **Deleting the last node of a skip list takes one from an unsigned zero** (src/svalue/skip_list.rs:325-326),
  and no other deletion does: `SkipLists.SkipList.Delete`. A build that checks arithmetic stops there;
  in one that wraps, the sum comes out right, which is how the spans are proved.
- **The filters of the linked list count below zero for n = 0** (src/svalue/linked_list.rs:277-324), exactly
  when the first element they look at is wanted: `LinkedLists.LinkedList.DeleteFirstNFilter`,
  `DeleteLastNFilter`. The model stops there, with the list as it was.
- **`set_off` lets an index pass that `index_off` cannot serve** (src/svalue/linked_list.rs:271-275). The
  element is set exactly when the index is below the length; a larger one is refused, and at the length
  itself the walk for the node fails: `LinkedLists.LinkedList.SetOff`, `LinkedLists.LinkedList.IndexOff`.
- **`slot` of the dictionary counts a table that is no longer in use** once a rehash has swapped the two
  (src/svalue/dict.rs:152-154, 449-452). It is the number of buckets in use exactly when a rehash is under
  way or none has ended yet: `Dicts.Dict.Slot`. Adding different keys until a rehash begins, and looking
  one up until it ends, gets to a state where it is too large: `Dicts.SlotGoesWrong`.

## Model

| member | source | states |
|---|---|---|
| ResizeProtocol.StepKeepsInvariant | src/chashmap/map.rs:356-733 | every step of every thread, of any operation or resize, keeps the invariant of the memory and of all threads, but for a join that harms |
| ResizeProtocol.ProtocolIffNoStray | src/chashmap/map.rs:356-733 | in every run, the protocol (word and threads agree, ends meet) holds in all states exactly when no thread joins a resize of another table than the one it means |
| ResizeProtocol.StrayJoinBreaksProtocol | src/chashmap/map.rs:659-677 | right after a stray join the word counts a thread that copies another table, so the protocol fails at once |
| ResizeProtocol.WordCountsResizers | src/chashmap/map.rs:419-441 | also with harmless strays, the word is the stamp of a table plus one plus the number of copying threads, and at most one thread finishes, none while others copy |
| ResizeProtocol.OneInstalls | src/chashmap/map.rs:419-431 | when a thread puts the new table in place, no thread copies and it is the only one that finishes |
| ResizeProtocol.BeginningAndEnd | src/chashmap/map.rs:362-427 | no next table is left where a resize begins, and all bins of the old table are moved where the new one is put in place |
| ResizeProtocol.NoPanic | src/chashmap/map.rs:362-643 | a thread that does not wait for the lock of a bin can always go on: no assertion of the transfer or of a forwarding pointer fails |
| ResizeProtocol.InvariantUpTo | src/chashmap/map.rs:356-733 | the invariant holds in each state of a run up to the first join that harms |
| ResizeStray.StrayJoinIsReachable | src/chashmap/map.rs:645-679 | a run leads to a state in which a helper of the table of two bins is about to join the resize of the table of four |
| ResizeStray.AbandonedIsReachable | src/chashmap/map.rs:645-679 | a run without a join that harms leads to a resize that counts no helper and that nobody will finish |
| ResizeStray.AbandonedForever | src/chashmap/map.rs:424-441 | from there on no step of any thread ever changes the current table or the word |
| ResizeClosing.ClosingJoinIsReachable | src/chashmap/map.rs:659-677 | a run leads to a stray join while the last thread of a resize sweeps and the word counts no helper |
| ResizeClosing.WrongWordIsReachable | src/chashmap/map.rs:424-441 | a run ends with nobody resizing and a word that is one less than the load factor of the current table |
| ResizeLoss.TwoFinishersAreReachable | src/chashmap/map.rs:424-441 | a run leads to a state in which two threads finish a resize |
| ResizeLoss.EntriesCanBeLost | src/chashmap/map.rs:356-733 | a run in which one entry is put and nothing removed ends with a memory in which its key is not found, so that the memory is not the map its operations made |
| ResizeMap.StepRefinesMap | src/chashmap/map.rs:967-1122 | each step leaves the abstract map as it is, or does the whole of one operation to it and returns what the map says |
| ResizeMap.StepCounts | src/chashmap/map.rs:681-689 | after each step the counter is the size of the map, up to the threads that are about to count |
| ResizeMap.RunsAreMaps | src/chashmap/map.rs:754-1447 | in every run without a join that harms, the memory holds after each move the map that the operations so far make one after the other, each returned what that map said, and the counter is its size up to those about to count |
| ResizeMap.FindFromAnywhere | src/chashmap/raw/mod.rs:66-130 | a search that follows moved bins finds the same from every table an operation may have got to |
| ResizeMap.SharesAreTheWhole | src/chashmap/map.rs:456-517 | what the two new bins hold together, looked up at the index of each key, is what the old bin held |
| BinWalk.WalkIsAtomic | src/chashmap/raw/mod.rs:66-93 | whatever writers do to the nodes during a lookup's walk, the splitting of the bin included, it gives what the bin held for the key at some moment of the walk |
| BinWalk.WalkGoesOn | src/chashmap/raw/mod.rs:66-93 | at every moment of the walk its next access is to a node that has been in the bin |
| BinWalk.AppendIsPut | src/chashmap/map.rs:967-1122 | appending a node for a key that is not there keeps the list and is a put to the map it holds |
| BinWalk.PrependIsPut | src/chashmap/node.rs:661-792 | so is putting a node in front, as tree bins do |
| BinWalk.SetIsPut | src/chashmap/map.rs:967-1122 | swapping the value of a node is a put of its key |
| BinWalk.UnlinkIsRemoval | src/chashmap/map.rs:1307-1447 | unlinking a node is a removal of its key |
| BinMaps.SplitIsParts | src/chashmap/map.rs:456-629 | the bins that a list or a tree bin is split into hold the two parts of its map that the state machine stores |
| BinMaps.FindIsAt | src/chashmap/node.rs:376-424 | what a tree bin gives for a key is what its map has |
| BinMaps.FrontIsPut | src/chashmap/node.rs:661-792 | a new entry in front of the list of a tree bin is a put to its map |
| BinMaps.WithoutIsRemoval | src/chashmap/node.rs:430-651 | the list of a tree bin without a node is its map without that key |
| Bits.MaskIsRemainder | src/chashmap/raw/mod.rs:213-216 | masking a hash with the size less one is the remainder by the size, for every power of two |
| Bits.SplitIndex | src/chashmap/map.rs:456-517 | in a table of twice the size a hash is at its old index, or higher by the old size, as the bit that is tested says |
| BinSplit.FindLastRun | src/chashmap/map.rs:456-475 | the run that is reused is the longest end of the list whose nodes all go the same way |
| BinSplit.ListIsSplit | src/chashmap/map.rs:456-517 | the two lists hold the entries of the old one, each once, and each at its index in the larger table, which is i or i + n |
| BinSplit.SplitList | src/chashmap/map.rs:456-517 | splitting a list in place leaves two well-formed lists that share no node and are such a split; only copies and nodes of the last run are in them |
| TreeSplit.SplitNodes | src/chashmap/map.rs:534-578 | the tree's list is copied into two doubly linked lists, in order, by the bit that is tested, and counted |
| TreeSplit.SplitTree | src/chashmap/map.rs:534-629 | both new bins hold their half of the entries, as a tree bin exactly when there are more than six, reusing the old one when the other half is empty; they share no node, and the halves are a split |
| TreeSplit.Treeify | src/chashmap/map.rs:1479-1547 | a list with distinct keys becomes a valid tree bin with the same entries in the same order |
| TreeSplit.Untreeify | src/chashmap/map.rs:1549-1578 | the nodes of a tree become a new plain list with the same entries in the same order |
| TreeSearch.FindTreeNode | src/chashmap/node.rs:132-208 | the lookup, with its shortcut past nodes with one child, gives a node of the tree with this hash and key, and none exactly when there is none |
| TreeSearch.FindPlace | src/chashmap/node.rs:661-710 | the way down ends at the node with the key, or at the one empty place where it keeps the order |
| TreeBins.BuildTree | src/chashmap/node.rs:234-313 | the nodes of a list with distinct keys become one red-black search tree, linked both ways, and the list stays |
| TreeBins.TreeBin.constructor | src/chashmap/node.rs:234-313 | a new tree bin is valid over just the given list |
| TreeBins.TreeBin.Find | src/chashmap/node.rs:376-424 | finds a node with the key in the bin exactly when there is one |
| TreeBins.TreeBin.FindOrPutTreeVal | src/chashmap/node.rs:661-792 | gives the node with the key and changes nothing, or, when there is none, puts one new node in front of the list and keeps a valid red-black search tree of all |
| TreeBins.TreeBin.RemoveTreeNode | src/chashmap/node.rs:430-651 | the list loses just that node; unless the bin is given up as too small, the tree of the others is a linked red-black search tree |
| TreeRemoval.RemoveFromTree | src/chashmap/node.rs:484-636 | out of a tree whose root has two children, the node goes and a red-black search tree of the others stays, in order |
| TreeRemoval.ExchangeWithSuccessor | src/chashmap/node.rs:486-576 | a node with two children changes places with its successor, which leaves it with one child at most, the others in order and the tree balanced |
| TreeRemoval.TooSmallIsSmall | src/chashmap/node.rs:463-482 | a tree given up as too small has ten nodes at the most |
| TreeExchange.ExchangeNodes | src/chashmap/node.rs:497-570 | the pointer writes that swap a node with its successor, adjacent or not, give the linked tree with the two exchanged, colours included |
| TreeRotation.RotateLeft | src/chashmap/node.rs:885-923 | a left rotation anywhere in a linked tree gives the linked tree that is turned there, and is nothing without a right child |
| TreeRotation.RotateRight | src/chashmap/node.rs:925-964 | the same to the right |
| TreeInsertion.BalanceInsertion | src/chashmap/node.rs:966-1060 | from a tree that is red-black but for a new red node, the loop ends with a linked red-black tree of the same nodes in the same order |
| TreeDeletion.BalanceDeletion | src/chashmap/node.rs:1062-1221 | from a tree that lacks one black node on the paths to a place, the loop ends with a linked red-black tree of the nodes that stay, in order |
| TreeBinLock.RunsKeepInvariant | src/chashmap/node.rs:318-424 | lock word, waiter slot and bin mutex agree with what all threads do, in every state of every run |
| TreeBinLock.LockIsSafe | src/chashmap/node.rs:318-424 | in every run a writer is never together with a reader or another writer, the slot is empty when a writer registers, and a parked writer will be woken |
| Traverser.LeavesAreReached | src/chashmap/iter/traverser.rs:48-93 | every bin that the visit of a moved bin comes to is one that forwarding leads to |
| Traverser.VisitIsExact | src/chashmap/iter/traverser.rs:98-172 | over a chain of tables of any depth, with bins moved in any pattern, the visit comes to each reached bin once and to no other |
| Traverser.NodeIter.constructor | src/chashmap/iter/traverser.rs:27-46 | a new iterator has all nodes of that visit before it |
| Traverser.NodeIter.RecoverState | src/chashmap/iter/traverser.rs:69-93 | after a bin of a later table the iterator goes to its other half, or back to where that table was entered, and ends |
| Traverser.NodeIter.Next | src/chashmap/iter/traverser.rs:98-172 | each call gives the first of the nodes still to come and leaves the others, until there is none |
| VClock.PartialCmp | src/crdts/vclock.rs:38-54 | the comparison decides the pointwise order of clocks |
| VClock.OperationsByDot | src/crdts/vclock.rs:73-258 | what the four operations on clocks give for each actor |
| VClock.JoinedIsLeastUpperBound | src/crdts/vclock.rs:127-131 | merging clocks gives their least upper bound |
| VClock.MeetIsGreatestLowerBound | src/crdts/vclock.rs:244-258 | `glb` gives their greatest lower bound |
| VClock.Apply | src/crdts/vclock.rs:113-118 | the result is the least clock that covers the clock and the dot; no other counter changes, and proper clocks stay proper |
| VClock.Merge | src/crdts/vclock.rs:127-131 | the loop over the other clock computes the join |
| VClock.ResetRemove | src/crdts/vclock.rs:73-79 | the loop computes the clock without what the other has seen |
| VClock.Intersection | src/crdts/vclock.rs:213-225 | the loop computes the dots that both have |
| VClock.Glb | src/crdts/vclock.rs:244-258 | the loop computes the meet |
| Orswot.Orswot.Apply | src/crdts/orswot.rs:69-105 | applying an operation in place gives the state of the specification, for which convergence is proved |
| Orswot.Orswot.ApplyRm | src/crdts/orswot.rs:279-299 | removing members in place, deferred where the clock is behind, gives that state |
| Orswot.Orswot.ApplyDeferred | src/crdts/orswot.rs:338-343 | the deferred removals are carried out again |
| Orswot.Orswot.Merge | src/crdts/orswot.rs:137-202 | merging in place gives the merged state of the specification, for which the laws are proved |
| OrswotMerge.MergedWellFormed | src/crdts/orswot.rs:137-202 | merging well-formed replicas gives a well-formed one |
| OrswotMerge.AddKeepsWellFormed | src/crdts/orswot.rs:69-89 | an addition keeps a replica well-formed |
| OrswotMerge.RmKeepsWellFormed | src/crdts/orswot.rs:279-299 | a removal, from the past or the future, keeps a replica well-formed |
| OrswotMerge.AnyMergeIsTheMerge | src/crdts/orswot.rs:137-202 | any tree of merges gives the n-way merge of its replicas: a dot survives exactly when some replica holds it, every other one has not seen it, and no deferred removal covers it |
| OrswotMerge.MergeOrderDoesNotMatter | src/crdts/orswot.rs:137-202 | two trees of merges over the same set of replicas give the same state, whatever their order, grouping and repetition |
| OrswotMerge.MergeLaws | src/crdts/orswot.rs:137-202 | merge is commutative, associative and idempotent on well-formed states, and absorbs a second merge |
| OrswotDelivery.KnowledgeIsUnique | src/crdts/orswot.rs:69-105 | the operations a replica has been given determine its state |
| OrswotDelivery.Step | src/crdts/orswot.rs:69-105 | delivering an operation adds it to what a replica knows, an addition once more or a removal before its addition included |
| OrswotDelivery.RunKnowsItsOps | src/crdts/traits.rs:33-52 | after any delivery with each actor's additions in order, a replica knows just the operations delivered |
| OrswotDelivery.DeliveriesConverge | src/crdts/traits.rs:33-52 | two deliveries of the same operations, in any such order and with duplicates, end in the same state |
| OrswotDelivery.MergeKnowsUnion | src/crdts/orswot.rs:137-202 | merging two replicas knows the union of what they know |
| OrswotDelivery.MergeIsDelivery | src/crdts/orswot.rs:137-202 | merging what two deliveries gave is what delivering the union gives, deferred removals included |
| OrswotDelivery.ReplicasConverge | src/crdts/orswot.rs:69-202 | two replicas with any histories of deliveries and merges that know the same operations of one log are in the same state |
| Bytes.BytesMakeNumber | src/svalue/zip_list.rs:109-133 | the bytes of a number, shifted in one after the other, make it again |
| Bytes.SignByte | src/svalue/zip_list.rs:180-206 | the first byte of a signed number of n bytes says how it is extended |
| ZipListCodec.PrevLengthRoundTrip | src/svalue/zip_list.rs:216-252 | every length below the limit, whatever follows, is read back and takes its one or five bytes |
| ZipListCodec.DecodePrevLength | src/svalue/zip_list.rs:242-252 | the decoding loop computes that length |
| ZipListCodec.ParseRoundTrip | src/svalue/zip_list.rs:45-206 | the head of every integer and every string below 2^32 bytes, whatever follows, parses back to its encoding and has the size the source computes |
| ZipListCodec.ParseStr | src/svalue/zip_list.rs:165-178 | parsing the head of a string gives the encoding the bytes begin with |
| ZipListCodec.ParseInt | src/svalue/zip_list.rs:180-206 | parsing the head of an integer gives the encoding the bytes begin with |
| ZipListLayout.EntryRoundTrip | src/svalue/zip_list.rs:341-375 | a whole entry, whatever follows, reads back: the length in front, the encoding, the content, and where the next one begins |
| ZipListSpots.ForcedIsMisread | src/svalue/zip_list.rs:784-788 | a small size forced into a long field is read as another size, and the entry as an empty string, or as a wrong size |
| ZipListEdits.InsertIsRight | src/svalue/zip_list.rs:679-798 | what an insertion leaves is the block of the new entries if and only if no size falls to one byte with another entry behind it |
| ZipListDeletion.DeleteIsRight | src/svalue/zip_list.rs:800-840 | what a deletion leaves is the block of the entries left if and only if it is not one of the failing cases |
| ZipListFailures.InsertionCanFail | src/svalue/zip_list.rs:747-798 | an input for which an insertion leaves a wrong block |
| ZipListFailures.DeletionCanFail | src/svalue/zip_list.rs:800-840 | an input for which a deletion leaves a wrong block |
| ZipLists.ZipList.constructor | src/svalue/zip_list.rs:533-538 | a new list is the block of no entries |
| ZipLists.ZipList.GetTailOffset | src/svalue/zip_list.rs:666-677 | the tail is read back from the header |
| ZipLists.ZipList.SetTailOffset | src/svalue/zip_list.rs:642-653 | the tail in the header changes and nothing else |
| ZipLists.ZipList.SetLen | src/svalue/zip_list.rs:655-660 | the length in the header changes, cut off at its largest value, and nothing else |
| ZipLists.ZipList.CascadeUpdate | src/svalue/zip_list.rs:747-798 | after a size has changed, the cascade makes every length field behind it and the tail right, however far it goes, unless the size falls to one byte |
| ZipLists.ZipList.InnerInsert | src/svalue/zip_list.rs:679-745 | inserting anywhere leaves the block of the entries with the new one, tail and all length fields right, if and only if the one failing case does not apply |
| ZipLists.ZipList.InnerDelete | src/svalue/zip_list.rs:800-840 | deleting a range leaves the block of the entries left if and only if the failing cases do not apply; deleting nothing changes nothing |
| ZipLists.ZipList.Push | src/svalue/zip_list.rs:559-562 | pushing leaves the block of the entries with the new one at the end |
| ZipListIterators.ReadEntry | src/svalue/zip_list.rs:341-375 | reading at the place of an entry gives it, the size of the one in front, and where the next one begins |
| ZipListIterators.Iter.Next | src/svalue/zip_list.rs:484-498 | the forward walk gives the entries in order and then stops |
| ZipListIterators.IterRev.Next | src/svalue/zip_list.rs:505-521 | the backward walk gives the entries in reverse order and then stops |
| ZipListIterators.Find | src/svalue/zip_list.rs:598-614 | finds the last entry that is wanted, and none exactly when there is none |
| ZipListIterators.FindMut | src/svalue/zip_list.rs:616-625 | finds where the first entry that is wanted begins, and none exactly when there is none |
| SkipLevels.LinkIn | src/svalue/skip_list.rs:189-204 | in a level that a new node has, the links rewritten from `update` and `rank` are the links of the list with the node |
| SkipLevels.PassOver | src/svalue/skip_list.rs:206-208 | in a level above the new node, counting one more makes the links right |
| SkipLevels.LinkOut | src/svalue/skip_list.rs:320-331 | in a level of a node taken out, the links past it are those of the list without it |
| SkipLevels.PassedOver | src/svalue/skip_list.rs:332-334 | in a level above it, no link leads to the node, and counting one less makes the links right |
| SkipNodes.PositionSplits | src/svalue/skip_list.rs:292-304 | in an ordered list just the nodes up to a position are before a key, or below or through a bound |
| SkipNodes.FoundMember | src/svalue/skip_list.rs:286-315 | a score and object are in an ordered list exactly when the node behind those before them has them |
| SkipNodes.LastCountsNone | src/svalue/skip_list.rs:325-326 | a span is zero exactly at the last node |
| SkipLists.SkipList.constructor | src/svalue/skip_list.rs:104-116 | a new list is valid and empty |
| SkipLists.SkipList.Search | src/svalue/skip_list.rs:146-167 | the way down finds in each level the last node before the key, and its rank |
| SkipLists.SkipList.Insert | src/svalue/skip_list.rs:134-225 | for any level chosen, the object comes to stand behind all that are before it, in a node of that height; every level stays a sorted part of the list with right spans, and backward links, tail and length are right |
| SkipLists.SkipList.Delete | src/svalue/skip_list.rs:286-354 | takes out the first node with this score and object exactly when there is one, and keeps all of that; counts below zero exactly for the last node |
| SkipLists.SkipList.LowerLevel | src/svalue/skip_list.rs:349-352 | levels that no node has any more are given up |
| SkipLists.SkipList.IsInRange | src/svalue/skip_list.rs:357-376 | a range that is said not to meet the list has no node in it |
| SkipLists.SkipList.FirstInRange | src/svalue/skip_list.rs:227-259 | the first node in the range, and none exactly when there is none |
| SkipLists.SkipList.LastInRange | src/svalue/skip_list.rs:261-284 | the last node in the range, and none exactly when there is none |
| SkipLists.SkipList.HighestScore | src/svalue/skip_list.rs:378-389 | the score of the last node, if there is one |
| SkipLists.SkipList.LowestScore | src/svalue/skip_list.rs:391-406 | the score of the first node, if there is one |
| DictTables.MoveKeeps | src/svalue/dict.rs:458-478 | moving the head of a bucket to the second table leaves both tables right and the map as it was |
| DictTables.AllAreStored | src/svalue/dict.rs:607-655 | the entries of all buckets hold each key of the map once, and no other |
| Dicts.NextPower | src/svalue/dict.rs:6-19 | the smallest power of two, from the initial size on, that is no less than a size |
| Dicts.Dict.constructor | src/svalue/dict.rs:132-146 | a new dictionary is valid and empty |
| Dicts.Dict.Len | src/svalue/dict.rs:148-150 | the two counts together are the size of the map |
| Dicts.Dict.Slot | src/svalue/dict.rs:152-154 | the two sizes together are the number of buckets in use exactly when a rehash is under way or none has ended yet |
| Dicts.OutgrowFirstTable | src/svalue/dict.rs:442-522 | adding different keys until a rehash begins, and looking one up until it ends, comes to a valid dictionary that has ended a rehash, for every hash function |
| Dicts.SlotGoesWrong | src/svalue/dict.rs:152-154 | in the state this comes to, more slots are counted than buckets are in use |
| Dicts.Dict.MoveBucket | src/svalue/dict.rs:462-478 | a whole bucket moves, the map stays, and the first table has as many entries less |
| Dicts.Dict.Rehash | src/svalue/dict.rs:442-481 | a step of rehashing never changes the map, and moves entries or ends the rehash; the search for a full bucket stays in bounds |
| Dicts.Dict.Expand | src/svalue/dict.rs:524-554 | makes a table of at least the size exactly when none is being filled and the current one is smaller, and leaves the map |
| Dicts.Dict.ExpandIfNeeded | src/svalue/dict.rs:508-522 | there is a table with buckets afterwards, and the map stays |
| Dicts.Dict.Find | src/svalue/dict.rs:156-181 | gives the value of the map, in the middle of a rehash as well |
| Dicts.Dict.FindByMut | src/svalue/dict.rs:183-206 | the same after a step of rehashing, which ends the rehash or leaves fewer entries to move |
| Dicts.Dict.Add | src/svalue/dict.rs:312-319 | adds the key, and fails exactly when it is there; a rehash under way ends or has fewer entries to move, and one begins when the table is full |
| Dicts.Dict.Replace | src/svalue/dict.rs:321-348 | gives the key its value, and says whether it is new; a rehash under way ends or has fewer entries to move |
| Dicts.Dict.TryUpdate | src/svalue/dict.rs:574-592 | changes the value of a key exactly when it is there |
| Dicts.Dict.Delete | src/svalue/dict.rs:222-268 | takes the key out of whichever table it is in, and gives its value, if it is there; a rehash under way ends or has fewer entries to move |
| DictIterators.Iter.constructor | src/svalue/dict.rs:270-310 | a new iterator has all entries of both tables before it, those of the second one only during a rehash |
| DictIterators.Iter.Next | src/svalue/dict.rs:607-655 | each call gives the first of the entries still to come and leaves the others, until there is none |
| IntSets.ValueEncoding | src/svalue/int_set.rs:215-223 | the width of a number is the least that holds it |
| IntSets.ReadBack | src/svalue/int_set.rs:112-142 | a number that fits a width reads back from its bytes, its sign extended |
| IntSets.GetByEnc | src/svalue/int_set.rs:126-142 | the loop over the bytes of a number gives the number |
| IntSets.WithIsSet | src/svalue/int_set.rs:39-59 | a number put where it belongs keeps the sequence increasing and adds just that number |
| IntSets.WithoutIsSet | src/svalue/int_set.rs:182-200 | a number taken out keeps the sequence increasing and removes just that number |
| IntSets.IntSet.Search | src/svalue/int_set.rs:148-180 | the binary search finds where a number is, or where it belongs, within bounds throughout |
| IntSets.IntSet.Find | src/svalue/int_set.rs:144-146 | finds a number exactly when it is in the set |
| IntSets.IntSet.SetByEnc | src/svalue/int_set.rs:112-120 | writes the bytes of one number and no other |
| IntSets.IntSet.MoveTail | src/svalue/int_set.rs:88-106 | moves all numbers from one place to another, in either direction |
| IntSets.IntSet.Add | src/svalue/int_set.rs:39-59 | adds a number to the set, and fails exactly when it is there; the bytes stay the increasing numbers in one width |
| IntSets.IntSet.UpgradeAndAdd | src/svalue/int_set.rs:61-84 | a number too wide for the others is added at its end, and all others are widened in place, each read before it is overwritten |
| IntSets.IntSet.Remove | src/svalue/int_set.rs:182-200 | takes a number out of the set, and fails exactly when it is not there |
| IntSets.IntSet.Len | src/svalue/int_set.rs:202-205 | the size follows from the number of bytes |
| IntSets.Iter.Next | src/svalue/int_set.rs:237-244 | gives the numbers in increasing order and then stops |
| LinkedLists.Join | src/svalue/linked_list.rs:157-172 | two chains whose ends lead to each other are one chain |
| LinkedLists.Cut | src/svalue/linked_list.rs:223-269 | a chain may be cut anywhere into two that lead to each other |
| LinkedLists.FirstIsCut | src/svalue/linked_list.rs:277-299 | taking out the first n wanted elements takes all wanted ones in front of some place and nothing behind it, as many as there are but no more than n |
| LinkedLists.LastIsCut | src/svalue/linked_list.rs:301-324 | taking out the last n takes all wanted ones behind some place and nothing in front of it |
| LinkedLists.FirstOnesGo | src/svalue/linked_list.rs:277-299 | of the wanted elements the first n go, or all, and the others stay in order, as do all unwanted ones |
| LinkedLists.LastOnesGo | src/svalue/linked_list.rs:301-324 | of the wanted elements the last n go, or all, and the others stay in order, as do all unwanted ones |
| LinkedLists.LinkedList.PushFront | src/svalue/linked_list.rs:40-54 | the element comes to stand first, and links and length stay right |
| LinkedLists.LinkedList.PushBack | src/svalue/linked_list.rs:71-85 | the element comes to stand last |
| LinkedLists.LinkedList.PopFront | src/svalue/linked_list.rs:56-69 | the first element goes and is given, if there is one |
| LinkedLists.LinkedList.PopBack | src/svalue/linked_list.rs:87-100 | the last element goes and is given, if there is one |
| LinkedLists.LinkedList.UnlinkNode | src/svalue/linked_list.rs:102-121 | any node can be taken out, its own links left as they were, and what was behind it is given |
| LinkedLists.LinkedList.IndexOff | src/svalue/linked_list.rs:123-144 | from either end, the walk comes to the node at the index, and to none exactly at the length |
| LinkedLists.LinkedList.SetOff | src/svalue/linked_list.rs:271-275 | for every index: changes the element there and no other exactly when it is below the length, is refused exactly beyond the length, and fails exactly at the length; the list stays valid |
| LinkedLists.LinkedList.Append | src/svalue/linked_list.rs:157-172 | all nodes of the other list come to stand behind these, and it is empty; after a split this restores the list |
| LinkedLists.LinkedList.SplitOff | src/svalue/linked_list.rs:223-269 | the nodes up to an index stay, and the others are a valid list of their own |
| LinkedLists.LinkedList.DeleteFirstNFilter | src/svalue/linked_list.rs:277-299 | leaves what `FirstIsCut` and `FirstOnesGo` describe, in a valid list; stops exactly when n is zero and the first element is wanted |
| LinkedLists.LinkedList.DeleteLastNFilter | src/svalue/linked_list.rs:301-324 | leaves what `LastIsCut` and `LastOnesGo` describe, in a valid list; stops exactly when n is zero and the last element is wanted |

## Left out

- Memory reclamation, guards and weak memory orders: memory is never reused, and accesses are sequentially consistent.
- ResizeMap.RunsAreMaps: goes one way only, since a run with a join that harms may well end as a map; `ResizeLoss.EntriesCanBeLost` shows one that does not.
- ResizeMap.StepRefinesMap: an operation reads its bin in one step; that a lookup without the lock gives what the bin held at one moment of its walk is `BinWalk.WalkIsAtomic`, proved beside the state machine and not inside it.
- BinWalk.WalkIsAtomic: covers the walk along the nodes of a list bin or a tree bin, not a lookup that searches the tree while a writer has changed the list and not yet the tree.
- TreeBins.TreeBin.Find: no writer is there during the search; what the lock on the root keeps apart is `TreeBinLock.LockIsSafe`.
- ResizeLoss.EntriesCanBeLost: a table is named by its size, so the second table of a size takes the place of the first one when it is made and not when it is installed; no operation runs in between.
- The counter and the number of resizers are not cut off at 64 and 32 bits, except where the code compares them with their limit.
- Liveness of the hash map: spinning, yielding and scheduling are not modelled, and the stride is any number from 16 on.
- The choice of when to ask for more room: a thread may do so at any time, with any size.
- `clear`, `retain`, `compute_if_present`, the set and reference wrappers, rayon and serde parts of `src/chashmap`.
- TreeSplit.Treeify: covers the list that is turned into a tree, not the lookup of the bin in its table around it.
- Hashes and comparison of keys are parameters; keys of tree bins are integers with their order.
- `reset_remove` and `validate` of the set, and the other replicated types of `src/crdts`.
- Counters of vector clocks are unbounded, where the source has 64 bits.
- ZipLists.ZipList.InnerInsert: asks that all sizes stay below what a length field and the tail can record, and the number of entries below the largest length; beyond them the source stores truncated numbers.
- ZipLists.ZipList.InnerDelete: asks for the same of the entries that are left.
- Which strings are taken for numbers, and `from_bytes`, `delete_range` and the filters of the packed list, which only repeat the operations proved here.
- SkipLists.SkipList.Insert: the level is any from 1 to 32, not drawn at random; scores are real numbers, so there is no NaN.
- SkipLists.SkipList.Delete: spans are integers; where an unsigned one would pass below zero on the way is stated by `belowZero`.
- Dicts.Dict.Expand: sizes are unbounded, so the branch at the largest machine integer is absent.
- Replacing the hash function of a dictionary that has entries, and drawing an entry at random.
- Iterating, cloning, comparing and dropping of linked lists, and the shared-object layer `src/svalue/object.rs`.
- `src/gossip`, `src/lcache` and `src/db`.

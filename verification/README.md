# Verification of the persistent-data engine

This Dafny project models the part of thin-provisioning-tools that builds, walks, packs, copies and diffs the
metadata of dm-thin, dm-cache and dm-era, and proves what that code is for. `dafny verify dfyconfig.toml` checks
all of it.

The modules follow the source files.

* **Building.** `SpaceMaps`, `Ledger`, `Reaches`, `Spares`, `NodeBuilders`, `BtreeBuilders`, `ThinEvents`, `Restorers`:
  the b-tree builder with shared leaves and reference counts, and the thin restorer on top of it. One ledger runs through all of it:
  for every data and metadata block, its count minus the references that live nodes hold is what somebody outside still
  holds. `Spares` says how much room is left, from which it follows when building succeeds; `Reaches` says what the
  counted references lead to.
* **Reading.** `BtreeLookups`, `BtreeIterators`, `KeyRanges`, `GraphWalks`, `BtreeWalkers`: lookup, iteration and the
  memoised walk over a block graph of any shape. `NodeMaps` and `LayerReaders`: the threads of `thin_check` that read
  internal nodes layer by layer, as a state machine. What `BtreeBuilders` builds satisfies what the readers need
  (`BtreeLookups.BuiltIsOrdered`, `BtreeIterators.BuiltIsGood`, `BuiltTrees`, `BuiltForests`, `BuiltRuns`).
* **Packing.** `Bytes`, `DeltaLists`, `PackVms`, `NodeEncoders`: deltas, the bytecode and its machine, whole blocks.
  `PackFiles`, `PackRounds`, `ChunkVecs` and `Spindles` rely on them: packed metadata files, packing and unpacking by
  several workers, what of a device these are given, and the compressed block cache.
* **Moving and comparing.** `Shrinks`: where blocks go when a pool shrinks. `ThinDeltas`: the difference of two mappings.
* **Input and output.** `Gaps`, `BlockIo`, `ReadManys`, `WriteManys`, `IoBlocks`: batched reads and writes against a
  device that fails and reads or writes short. `WriteBatchers`: the write queue as a plain map.
* **Caches and eras.** `Copiers`, `CopySafeties`, `CopyLoops`, `Writebacks`, `CopyStages`, `DirtyFlags`: the two-thread
  copier, when it is safe, its loops over joined ops, batches and retries, when these are safe, and the clearing of dirty
  flags. `ArrayBuilders`, `CacheRestorers`: array blocks and the dirty bitset of a restored cache. `Eras`: runs of marked
  blocks.

Code that changes things in place is modelled by classes and loops and proved against functions and relations on values;
what is promised of those is proved as lemmas. Locks, channels and threads appear as interleaved steps.

## What turned out false

Each of these is shown at an input, or stated in the contract named, together with exactly when the code does what it
should.

* A second definition with a name already used, or a second device with an id already used, replaces the first without
  giving its references back, and a section still open at the end is dropped. Nothing is lost if and only if no name or
  id is given twice and the section left open, if any, has no mappings and an even number of references to definitions
  without mappings, since every second of those takes back the empty leaf of the one before (`Restorers.Restore`). For
  the events of `ThinEvents.DefinedTwice` the restorer is shown to succeed and to lose references
  (`Restorers.LosesMappings`).
* The walker's memo says nothing against a block whose keys cannot be split (`GraphWalks.KeysStray`), a root that cannot
  be read (`GraphWalks.UnreadRoot`), or a node found clean while a child that had been counted was still to be read
  (`GraphWalks.FailsLater`): a walker used again accepts each of them. After a walk that succeeds everything reachable is
  finished if and only if no block seen before it and reachable was left unfinished; a first walk always has that
  (`BtreeWalkers.BtreeWalker.Walk`, `BtreeWalkers.AllDoneWhen`).
* A root whose depth cannot be found is given up by the layer reader, and as it has been counted nobody else reads it.
  The node map is the same after every run if and only if no such root is a child of a node that is read
  (`LayerReaders.AlikeIfApart`), and so are the counts if and only if no such root with children is
  (`LayerReaders.SameCountsWhen`). `LayerReaders.NotAlike` is a forest of four blocks in which it depends on the threads.
* Copying is safe if and only if no two ops write one block and no op reads a block that an op of an earlier chunk
  writes: for any other job there is a run that counts an op as copied whose block holds something else
  (`CopySafeties.SafeExactly`). For write back that means that no two cache blocks tried map one origin block, which the
  source does not check; it holds for one call of the copier (`Writebacks.SafeWhenInjective`), for all batches
  (`CopyStages.BatchesSafe`) and with all retries (`CopyStages.WriteBackSafe`). A cleaned block that shares its origin
  with no other block tried is at home all the same (`Writebacks.CopyDirtyBlocks`).
* The run scan of an era's bits takes the end of a run at 2^32 for zero: the last run is lost if and only if every bit
  from the last below the limit up to 2^32 is marked (`Eras.ScanRuns`); at `Eras.AllLost` nothing at all is found.
* A packed leaf whose keys fill the block and whose values are not u64s is followed by an instruction nobody runs. On
  its own it unpacks; inside a chunk of a packed file, any record after it cannot be decoded
  (`NodeEncoders.PackBtreeNode`, `PackFiles.ChunkDecodes`, `PackRounds.DecodedWhen`). A node fails to pack exactly when
  its keys, or its keys and u64 values, do not fit the block, whatever the size its header gives.
* The packing workers are not given the whole device unless its blocks are a multiple of the chunk size. Otherwise, of the
  shuffled chunks, one is left over, and its blocks are not packed: a whole chunk or the smaller last one, as the shuffle
  has it. Of a device of fewer than 128 blocks nothing is packed (`ChunkVecs.MkChunkVecs`). All other blocks of a known
  kind are restored (`ChunkVecs.AllButLostRestored`).
* The spindle cache's keys are u32s: a read past 2^32 blocks is answered with the block it is truncated to
  (`Spindles.SpindleIoEngine.Read`), which is not what the device holds there in `Spindles.PastTheKeys`.
* An empty range ends the list of ranges to remap, so those after it are dropped without an error
  (`Shrinks.BuildRemaps`, `Shrinks.NothingDropped`; `Shrinks.DropsBlocks` is such a list). The repository's callers pass the ranges of a `RangeSet`, which are
  never empty.
* The write batcher ignores the result of each single write: a write to a bad block is lost silently once it leaves the
  queue, which a later write makes it do exactly when the queue is full and does not hold the later block; a flush that
  fails as a whole loses the queue (`WriteBatchers.WriteBatcher.Write`, `WriteBatchers.WriteBatcher.Flush`).
  `WriteBatchers.LosesWrite` is a queue of one that loses its write.
* `map_small_blocks_to_io` loses what was asked of an io block when it comes back to it after another
  (`IoBlocks.AskedFor`, `IoBlocks.ComesBack`).
* Restoring a version 2 cache without cache blocks fails in `finalize` (`CacheRestorers.Restorer.Finalize`).

## Model

| member | source | states |
|---|---|---|
| `SpaceMaps.SpaceMap.Alloc` | src/pdata/space_map/base.rs:151-174 | takes the first unused block from where the last search ended, wrapping round once; fails exactly when none is unused |
| `SpaceMaps.SpaceMap.Dec` | src/pdata/space_map/base.rs:17-31 | drops one reference and tells whether it was the last; an unused block is an error |
| `NodeBuilders.NodeBuilder.EmitAll` | src/pdata/btree_builder.rs:411-438 | empties a queue of n values into one node if there are at most max, and otherwise into two of n / 2 and n - n / 2, keeping contents and ledger and the count of every block in use; succeeds if two blocks are unused; the panic for longer queues is unreachable |
| `NodeBuilders.NodeBuilder.UnshiftNode` | src/pdata/btree_builder.rs:447-466 | puts the last node's entries back at the front of the queue; contents and every outside reference stay, whether or not the node's last reference went; succeeds if what was pushed ascends and the values can be counted; not reachable in a builder of shared leaves |
| `NodeBuilders.NodeBuilder.PushValue` | src/pdata/btree_builder.rs:241-262 | appends one entry to what has been pushed, counts its data block once, and leaves everything others hold alone; before that a lone node under half full is taken back, or else a queue of 2 max values gives up its first max as one node; an accepted key is above the last one checked, and a key above it, in range, is accepted while the unused blocks and the own nodes suffice for what has been pushed, which no push changes |
| `NodeBuilders.NodeBuilder.AppendValues` | src/pdata/btree_builder.rs:263-279 | unpacks a foreign node behind the queue, counting its values once more; succeeds exactly when its keys ascend and its values can be counted |
| `NodeBuilders.NodeBuilder.PushNodes` | src/pdata/btree_builder.rs:280-357 | for any run that another builder completed: the contents grow by exactly its entries in order, outside references stay, its panic is unreachable; what is shared: a single node that comes first is used as it is; otherwise, when nothing or at least half a node is queued, once a lone node under half full has been taken back, all the nodes end the list as they are, each block counted once more and no data block touched, unless the only one is under half full; when less is queued the first is unpacked behind it and the others are used; the last key checked becomes that of the last node; accepted if the entries ascend and there is room |
| `NodeBuilders.NodeBuilder.Complete` | src/pdata/btree_builder.rs:358-379 | the nodes hold exactly what was pushed, and each of several is at least half full; they are those there were, but for the last if too little is queued, and then one or two even ones of the rest, or one empty node if nothing was pushed; succeeds if what was pushed ascends and there is room |
| `NodeBuilders.EmitInv` | src/pdata/btree_builder.rs:385-409 | emitting a node keeps the builder's own nodes singly referenced and the foreign ones held elsewhere |
| `NodeBuilders.TakeBackStep` | src/pdata/btree_builder.rs:447-466 | taking a node back changes no outside reference and disturbs no block that others hold |
| `NodeBuilders.AdoptStep` | src/pdata/btree_builder.rs:280-357 | using a foreign node as it is changes no outside reference |
| `BtreeBuilders.BuildLevel` | src/pdata/btree_builder.rs:499-517 | one level of parents: its entries are the references to the nodes below, well filled, with the children's references handed over; it takes exactly as many blocks as it has nodes, a 126th of those below at most; it succeeds if the separators ascend and there are three blocks more, and fails if they do not ascend; no circle of references comes about |
| `BtreeBuilders.BuildBtree` | src/pdata/btree_builder.rs:499-517 | ends with one tree, all leaves at one depth, separators equal to first keys, its in-order entries those of the leaves, every node passing the strict checks if the keys ascend; the references to the leaves become one to the root; succeeds if the keys ascend and there are blocks for all levels |
| `BtreeBuilders.LevelsFew` | src/pdata/btree_builder.rs:499-517 | the blocks for all levels are fewer than the leaves |
| `BtreeBuilders.NextLevel` | src/pdata/btree_builder.rs:499-517 | a new level is shorter than the one below, its nodes are trees one deeper and its entries are the same |
| `BtreeBuilders.NextStrict` | src/pdata/btree.rs:166-183 | nodes over strict nodes pass the fill and order checks of `unpack_node_raw` |
| `Restorers.Restorer.SuperblockBegin` | src/thin/restore.rs:228-247 | accepted exactly for a legal data block size and with room for the superblock, whose block is then in use |
| `Restorers.Restorer.Handle` | src/thin/restore.rs:248-345 | every accepted event may come where it does, means what the event language says and keeps the restorer's invariant: definitions, devices and open section hold what the events said, and the ledger balances; a <map> tag adds its blocks one by one, the i-th mapped to the i-th of its data; an event that fits those before it is accepted while there is room |
| `Restorers.Restorer.EndSection` | src/thin/restore.rs:143-154 | the nodes of a finished section hold exactly the mappings given since its begin; succeeds for mappings in order while there is room |
| `Restorers.Restorer.RefShared` | src/thin/restore.rs:318-341 | appends a definition's mappings to a device by pushing its leaves, which are shared exactly as `PushNodes` says: used as they are, unless too little is queued or the only one is under half full; accepted for a known definition whose mappings come behind the device's, while there is room |
| `Restorers.Restorer.ReleaseLeaves` | src/pdata/btree_builder.rs:527-545 | drops one reference to each leaf, and the values of a leaf nobody else kept exactly once; succeeds if the references are counted and the leaves in order |
| `Restorers.Restorer.ReleaseSubTrees` | src/thin/restore.rs:173-183 | gives back exactly the references that definitions hold; succeeds if they are counted and the definitions in order |
| `Restorers.Restorer.Finalize` | src/thin/restore.rs:185-224 | builds the top level tree and releases the definitions; the references left over are the superblock's, the root's and the lost ones; in use are exactly the superblock, what the root leads to and what lost references lead to; succeeds if the definitions are in order and there is room |
| `Restorers.Restore` | src/thin/restore.rs:124-345 | for any events: if accepted, sections do not nest and only devices refer to known definitions; there is a device for each id that a section gives, and its tree holds Mapped(d, t) at k if and only if in the last section of that id some <map> tag says so, or some <ref> to a definition whose last section before it says so; every block's count is the references live nodes hold plus the superblock's, the root's and lost ones; the blocks in use are exactly the superblock's and those that the root or a lost reference leads to; nothing is lost if and only if no two sections begin alike and a section left open holds nothing; accepted if every event fits those before it, there is a metadata block for every 63 mappings and devices, one for each section and six more, and there are not so many mappings that a count could come to its largest |
| `ThinEvents.DevicesSay` | src/thin/restore.rs:248-345 | what going through the events one after the other comes to: the devices are those given, and each maps a block exactly as the tags of its last section, and those of the definitions they refer to, say |
| `ThinEvents.OneTag` | src/thin/restore.rs:302-316 | a device of one <map> tag has as many mappings as that has blocks, the i-th sent to the i-th block of its data, and no others |
| `ThinEvents.RepeatsSay` | src/thin/restore.rs:261-300 | a definition or a device replaces one of its kind exactly when two sections begin alike |
| `ThinEvents.DefinedTwice` | src/thin/restore.rs:261-270 | what the first n of some events mean, in which a definition given twice loses its mappings |
| `Restorers.LosesMappings` | src/thin/restore.rs:261-270 | on any device of at least 9 unused blocks the restorer accepts those events and loses references |
| `Restorers.SettledReached` | src/thin/restore.rs:185-224 | where counts are references plus the roots and references never lead round in a circle, a block is in use if and only if it is the superblock or the roots lead to it |
| `BtreeLookups.BtreeLookup` | src/pdata/btree_lookup.rs:11-51 | on any tree whose separators bound the keys below them, the value the in-order entries hold for the key, and None for every other key |
| `BtreeLookups.DescendRight` | src/pdata/btree_lookup.rs:22-40 | the child chosen by the search has the key if the tree has it |
| `BtreeLookups.BuiltIsOrdered` | src/pdata/btree_builder.rs:471-517 | every tree the builder makes from ascending entries can be searched |
| `BtreeIterators.BtreeIterator.LeftMostLeaf` | src/pdata/btree_iterator.rs:78-89 | leaves a stack down to the first leaf, with the whole tree still to come |
| `BtreeIterators.BtreeIterator.NextNode` | src/pdata/btree_iterator.rs:135-149 | unwinding and descending again loses no entry and restores the stack's depth, unless the tree is done |
| `BtreeIterators.BtreeIterator.Step` | src/pdata/btree_iterator.rs:151-158 | drops exactly the first of the entries still to come |
| `BtreeIterators.Collect` | src/pdata/btree_iterator.rs:91-158 | `get` and `step` yield exactly the in-order entries of any balanced tree without empty nodes, or of a lone empty leaf, and then None |
| `BtreeIterators.BuiltIsGood` | src/pdata/btree_builder.rs:471-517 | every tree the builder makes can be iterated |
| `BuiltTrees.BuiltWalks` | src/pdata/btree_walker.rs:248-275 | a fresh walker accepts every tree the builder makes from ascending entries, records no failure, and shows its leaves in key order: their entries are the entries, in order |
| `BuiltForests.BuiltIsRead` | src/thin/check.rs:602-657 | whatever the threads do, the node map ends up with exactly the blocks of the built trees, each for what was written there |
| `BuiltRuns.RecordTree` | src/thin/delta.rs:63-99 | a tree built from ascending entries is walked and recorded: the runs are in order, and one of them sends a block to a data block exactly if that was pushed for it |
| `KeyRanges.SplitRanges` | src/pdata/btree_error.rs:198-216 | the loop computes one range per child, or fails |
| `KeyRanges.SplitRestWhen` | src/pdata/btree_error.rs:45-107 | it succeeds if and only if the keys ascend and all but the first lie below the range's end |
| `KeyRanges.SplitRestCovers` | src/pdata/btree_error.rs:188-216 | each child's range holds exactly the keys from its own up to the next |
| `BtreeWalkers.BtreeWalker.SmInc` | src/pdata/btree_walker.rs:83-88 | counts a reference and returns the count before, as far as the map can count |
| `BtreeWalkers.BtreeWalker.WalkNodes` | src/pdata/btree_walker.rs:106-183 | over any children, seen or not: grows what is seen, visited and counted by what is newly reached, and without an error finishes all of it |
| `BtreeWalkers.BtreeWalker.WalkNode` | src/pdata/btree_walker.rs:185-246 | walks one node that has not been walked, within the number of unseen blocks |
| `BtreeWalkers.BtreeWalker.Walk` | src/pdata/btree_walker.rs:248-275 | ends on every graph, cyclic ones included, walking no block twice; for every walker: an accepted root that had not been seen adds exactly what is newly reached, all of it finished, each new leaf shown once and each new edge counted, plus one for the root; every new block has a value for each key, ascending keys and room for them, and if no errors are ignored its room is a multiple of three and it is a third full unless it is the root; blocks dropped without a record are named; everything reachable is finished if and only if no block seen before and reachable was left unfinished; started afresh, everything reachable is |
| `BtreeWalkers.AllWalked` | src/pdata/btree_walker.rs:248-275 | what an error-free first walk leaves behind: the counts are the edges from reachable nodes, plus one for the root |
| `BtreeWalkers.AllDoneWhen` | src/pdata/btree_walker.rs:248-275 | when what is newly seen is finished, all that is reachable is, if and only if no reachable block seen before was left unfinished |
| `GraphWalks.KeysStray` | src/pdata/btree_walker.rs:185-246 | a graph in which a node whose keys cannot be split is accepted as the next root, though its child has never been seen |
| `GraphWalks.UnreadRoot` | src/pdata/btree_walker.rs:248-275 | any root that cannot be read is rejected at first and accepted the next time |
| `GraphWalks.FailsLater` | src/pdata/btree_walker.rs:106-183 | a graph in which a node is accepted as the next root though its child failed to be read after it was found clean |
| `GraphWalks.TooEmpty` | src/pdata/btree.rs:166-183 | a graph of leaves under a third full is rejected unless errors that are not fatal are ignored, and each of the leaves is accepted as a root |
| `NodeMaps.NodeMap.InsertLeaf` | src/thin/check.rs:201-208 | accepts only a block not seen; bits, leaf set, leaf count and tables stay in step |
| `NodeMaps.NodeMap.InsertInternal` | src/thin/check.rs:190-199 | accepts a block not seen or a supposed leaf, which it reclassifies, and no other |
| `NodeMaps.NodeMap.InsertError` | src/thin/check.rs:210-220 | accepts a block not seen or a supposed leaf, and clears the leaf's bit |
| `NodeMaps.NodeMap.GetType` | src/thin/check.rs:146-159 | the two bits tell exactly whether a block is unseen, a leaf or in error |
| `NodeMaps.NodeMap.BatchUpdate` | src/thin/check.rs:248-263 | applies the updates in order: a block not seen or supposed a leaf becomes what the first update that does not suppose it a leaf says, or else a leaf if any says so; every other block stays what it was |
| `NodeMaps.Aggregator.TestAndInc` | src/pdata/space_map/aggregator.rs:654-684 | counts each block, telling of each whether it had been counted before or earlier in the call |
| `NodeMaps.LayerHandler.Handle` | src/thin/check.rs:326-369 | inserted and pending updates together gain the block's, children are counted, and those nobody had reached become this thread's |
| `LayerReaders.Forest.DepthIsHeight` | src/pdata/btree_utils.rs:7-46 | the way to the first leaf that can be read measures the height of a tree with all leaves at one depth, whatever nodes are in error |
| `LayerReaders.Forest.DepthWhen` | src/pdata/btree_utils.rs:7-46 | the depth is found if and only if steps down through nodes that can be read lead to a leaf that can be, and is their number |
| `LayerReaders.HandleInSteps` | src/thin/check.rs:326-369 | the single steps of the state machine add up to what the handler does |
| `LayerReaders.StepKeeps` | src/thin/check.rs:376-433 | every step of every thread keeps: each claimed block is in one place, counts plus increments owed are references seen, what is recorded is right |
| `LayerReaders.Outcome` | src/thin/check.rs:602-657 | under every interleaving of any number of threads, with any nodes in error: in the end each inner node that is reached past the roots given up was read exactly once, the node map is exactly what is reached, each for what it is, errors included, and each count is the number of references |
| `LayerReaders.SameOutcome` | src/thin/check.rs:602-657 | node map and counts do not depend on the interleaving or on how the roots were dealt out, if no root given up is the child of a node that is read |
| `LayerReaders.AlikeIfApart` | src/thin/check.rs:376-433 | and only if: otherwise one run never learns of that root and another does |
| `LayerReaders.NotAlike` | src/thin/check.rs:376-433 | a forest in which a node in error gets into the node map or not, depending on the threads |
| `LayerReaders.SameCountsWhen` | src/thin/check.rs:376-433 | the counts are the same after every run if and only if no root given up that has children is the child of a node that is read |
| `LayerReaders.StepsEnd` | src/thin/check.rs:376-433 | every step comes nearer the end in a well-founded order |
| `LayerReaders.Progress` | src/thin/check.rs:376-433 | until all is done some thread can step |
| `Bytes.FromToLE64` | src/pack/vm.rs:209-216 | reading u64s back from their little endian bytes |
| `DeltaLists.ToDelta` | src/pack/delta_list.rs:13-61 | the deltas stand for exactly the sequence; after the base come runs, none empty, each up, down or level as its first value is, and each as long as it can be: no two neighbours have the same step modulo 2^64 |
| `DeltaLists.CountRun` | src/pack/delta_list.rs:26-57 | the longest run by one step, modulo 2^64, from a position |
| `DeltaLists.FewestDeltas` | src/pack/delta_list.rs:13-61 | no list of a base and runs that stands for the same values is shorter |
| `DeltaLists.OneList` | src/pack/delta_list.rs:13-61 | the values leave only one such list |
| `DeltaLists.EvenlySpaced` | src/pack/delta_list.rs:26-57 | values a fixed step apart take one run, however many they are |
| `DeltaLists.DeltaCases` | src/pack/delta_list.rs:103-195 | for rising, falling, constant and wrapping values the list can only be the one expected |
| `PackVms.DeltaInstr` | src/pack/vm.rs:46-132 | running one packed delta, count prefix and operand of any width included, emits what it stands for and stops there |
| `PackVms.DeltasExec` | src/pack/vm.rs:134-146 | running packed deltas emits what they stand for and consumes exactly their bytes |
| `PackVms.ExecSplit` | src/pack/vm.rs:359-371 | running for a + b bytes is running for b after a run that emitted exactly a |
| `PackVms.PackU64s` | src/pack/vm.rs:143-146 | for every sequence of at most 4096 u64s, from any machine state and before any further bytes, running what was written emits exactly its little endian bytes and stops there; what was written are the longest runs |
| `PackVms.PackShiftedU64s` | src/pack/vm.rs:161-170 | the same for a nested run, as one instruction: the count, the runs of the values without their lowest 24 bits and the runs of these bits |
| `PackVms.WriteLiteral` | src/pack/vm.rs:172-194 | the same for bytes that are copied |
| `PackVms.BaseBytes` | src/pack/vm.rs:64-82 | the bytes of a base |
| `PackVms.RunBytes` | src/pack/vm.rs:64-119 | the bytes of a run of one by a small or a larger step |
| `PackVms.CountBytes` | src/pack/vm.rs:46-132 | the bytes of a run of several, with the count first, and of a constant run |
| `PackVms.LiteralBytes` | src/pack/vm.rs:172-194 | the bytes that a literal begins with |
| `PackVms.EvenlySpacedPacks` | src/pack/vm.rs:143-146 | values a fixed step apart pack into twenty bytes at most |
| `PackVms.KeysInARow` | src/pack/vm.rs:143-146 | four keys in a row take four bytes, which are these |
| `PackVms.ShiftedInstr` | src/pack/vm.rs:332-353 | two nested runs, merged, give back the values |
| `PackVms.VM.UnpackInstr` | src/pack/vm.rs:248-356 | the machine has the effect the instruction set gives on any input, or fails exactly when that has none |
| `PackVms.InstrRefuses` | src/pack/vm.rs:196-356 | which instructions fail: unknown tags and widths, and a count given to one that has its own |
| `PackVms.VM.UnpackShifted` | src/pack/vm.rs:332-353 | nested execution leaves the count of bytes written as if only the merged values had been emitted |
| `PackVms.VM.Execute` | src/pack/vm.rs:359-371 | runs until enough has been emitted, and returns how much |
| `NodeEncoders.Unpack` | src/pack/vm.rs:379-390 | a new machine emits exactly the bytes asked for, or it fails |
| `NodeEncoders.PackBtreeNode` | src/pack/node_encode.rs:61-101 | packs any block that fits, and only those, having written nothing otherwise: the header as it is, the keys as runs, the values of a leaf of u64s in two parts and those of an internal node as runs, the rest as it is; unpacking restores it bit for bit; all that was written is read back unless the keys fill the block and other values would be copied |
| `NodeEncoders.HeaderFields` | src/pack/node_encode.rs:42-59 | where the header has what is read from it |
| `NodeEncoders.UnreadInstr` | src/pack/node_encode.rs:78-86 | there is a block of that kind |
| `NodeEncoders.HonestNodePacks` | src/pack/node_encode.rs:61-101 | every node with values of at least a byte (of a u64 in an internal node) whose entries fit the block packs, with no instruction left unread |
| `NodeEncoders.ExtraIsUnread` | src/pack/vm.rs:379-390 | bytes after those that restore a block are never read |
| `NodeEncoders.PackBlock` | src/io_engine/spindle.rs:31-44 | the same for a block of any known kind: all but a node is copied as it is |
| `PackFiles.ChunkDecodes` | src/pack/toplevel.rs:242-264 | a chunk decodes to its records if and only if none but the last leaves an instruction unread |
| `PackFiles.FileChunksBack` | src/pack/toplevel.rs:300-306 | the chunks of a file are read back from their lengths |
| `PackFiles.OneRecordFile` | src/pack/toplevel.rs:105-148 | the bytes of a file of one record: the length of the chunk, the block number, the packed block |
| `PackFiles.Crunch` | src/pack/toplevel.rs:105-148 | succeeds exactly when all ranges are inside the device and every known block packs; the file then holds the known blocks of the ranges in order, 1024 to a chunk |
| `PackFiles.DecodeWorker` | src/pack/toplevel.rs:242-264 | succeeds exactly when its chunks decode, and then has written every record, in batches from the back |
| `PackFiles.UnpackRestores` | src/pack/toplevel.rs:266-317 | one decoder: what it stores are the known blocks of the ranges, each with its data, and no other |
| `PackRounds.DealOut` | src/pack/toplevel.rs:266-317 | the chunks of a file go to the decoders in turn, every one to one of them |
| `PackRounds.DecodedWhen` | src/pack/toplevel.rs:65-103 | whatever turns the packing workers took to write their chunks: the decoders all come to their end if and only if in no chunk a record before the last leaves an instruction unread |
| `PackRounds.RoundTrip` | src/pack/toplevel.rs:65-317 | and then, whatever turns the decoders take to write, each known block of the ranges packed is restored with its data and no other block is written |
| `PackRounds.PackedAndUnpacked` | src/pack/toplevel.rs:65-317 | the same from what the packing workers promise of what they wrote, the chunks being those read back from it |
| `ChunkVecs.MkChunkVecs` | src/pack/toplevel.rs:38-63 | the workers are given every block of the device exactly when its blocks are a multiple of the chunk size; otherwise all but those of one chunk, and none if there are fewer than 128 |
| `ChunkVecs.AllButLostRestored` | src/pack/toplevel.rs:38-317 | packing and unpacking a whole device restores its blocks of a known kind but for those of the chunk left over |
| `Spindles.RunIter.Next` | src/run_iter.rs:25-36 | the next run of equal bits, which cannot be extended |
| `Spindles.SpindleIoEngine.Load` | src/io_engine/spindle.rs:106-147 | caches exactly the wanted blocks of a known kind, each unpacking to the device's content; fails exactly when a wanted block cannot be read or does not pack |
| `Spindles.SpindleIoEngine.Read` | src/io_engine/spindle.rs:149-158 | answers what the device would for block numbers below 2^32, and exactly what it answers for others |
| `Spindles.PastTheKeys` | src/io_engine/spindle.rs:149-158 | a device on which a read past 2^32 blocks is answered with another block |
| `Spindles.SpindleIoEngine.Write` | src/io_engine/spindle.rs:160-164 | cache and device still agree, whether or not the write succeeds |
| `Shrinks.BuildRemaps` | src/shrink/toplevel.rs:13-56 | succeeds if and only if the blocks before the first empty range are no more than the free ones; the sources are exactly those blocks in order, the targets the first free blocks |
| `Shrinks.NothingDropped` | src/shrink/toplevel.rs:28-49 | every block is remapped if and only if no range follows an empty one |
| `Shrinks.DropsBlocks` | src/shrink/toplevel.rs:28-49 | a list of ranges of which the second is dropped without an error |
| `Shrinks.FindFirst` | src/shrink/toplevel.rs:233-257 | the first remap that ends after the range starts, if the range reaches any |
| `Shrinks.ApplyRemaps` | src/shrink/toplevel.rs:260-307 | block by block and in order, each goes where it alone would |
| `Shrinks.AssignsSorted` | src/shrink/toplevel.rs:13-56 | over sorted, disjoint ranges the remaps are sorted and disjoint, as `remap` demands |
| `Shrinks.WhereTo` | src/shrink/toplevel.rs:13-56 | the i-th block to move goes to the i-th free one, and every other block stays |
| `Shrinks.NoTwoLandTogether` | src/shrink/toplevel.rs:260-307 | no two blocks in use land on one block |
| `Shrinks.AllFit` | src/shrink/toplevel.rs:260-307 | with the free blocks below the new size, every block in use ends below it |
| `ThinDeltas.RunBuilder.Next` | src/thin/delta.rs:33-46 | extends the run or returns it finished; what the runs stand for grows by the pair |
| `ThinDeltas.MappingRecorder.Visit` | src/thin/delta.rs:84-99 | what the runs stand for grows by the leaf's entries in order, and no run could continue the one before |
| `ThinDeltas.RunsSay` | src/thin/delta.rs:63-99 | runs of ascending keys are sorted, and one of them sends a block to a data block exactly if an entry does |
| `ThinDeltas.MappingStream.Consume` | src/thin/delta.rs:145-163 | drops the first blocks of the stream, failing exactly when the current mapping has fewer |
| `ThinDeltas.Emit` | src/thin/delta.rs:165-236 | each delta emitted is right for the blocks it covers and for the gap before it |
| `ThinDeltas.DumpDeltaMappings` | src/thin/delta.rs:165-236 | ends; the deltas are in order and overlap nowhere; block by block each is right about the mappings of both lists, calling nothing different that is the same, and every block that either list maps is in one of them |
| `Gaps.FindRuns` | src/io_engine/gaps.rs:12-47 | for blocks in any order, with repeats: the runs hold them in order, each gap is small and between two runs, no two runs could be one, and every gap between ascending runs that is small enough is kept |
| `Gaps.BatchAdjacent` | src/io_engine/gaps.rs:146-193 | cuts into contiguous batches, none ending in a gap, and two only where the blocks are apart |
| `Gaps.SplitContiguous` | src/io_engine/gaps.rs:290-318 | ends, despite empty remainders of gaps; the pieces are contiguous, not empty, at most max long and all but the last exactly, and hold the same blocks |
| `Gaps.GenerateRuns` | src/io_engine/gaps.rs:386-397 | the batches of any list are contiguous, not empty and at most max long, and their runs hold exactly the list |
| `BlockIo.VectoredBlockIo.ReadBlocks` | src/io_engine/utils.rs:74-144 | whatever the device does, one result per buffer; a buffer reported as read holds the device's bytes, zero-filled after a partial read where that is allowed; a buffer fails only if the call that began at it failed, a call was short in it, or a call at or before it met the end of the device |
| `BlockIo.FillZeros` | src/io_engine/utils.rs:138-141 | fills the ends of exactly the partial buffers |
| `ReadManys.BuildIo` | src/io_engine/sync.rs:216-246 | the buffers of a batch belong to the caller's next blocks; its assertion on them holds |
| `ReadManys.SelectResults` | src/io_engine/sync.rs:252-290 | picks each block's own buffer; its assertion on them holds |
| `ReadManys.ReadMany` | src/io_engine/sync.rs:184-290 | one result for each block in order, an error or the device's content of that block, and no error from a reliable device |
| `WriteManys.FindRunsNoGap` | src/io_engine/sync.rs:374-401 | runs of consecutive blocks that hold the list in order; no two of them could be one |
| `WriteManys.Disk.WriteBlocks` | src/io_engine/utils.rs:147-180 | each block reported as written is on the disk, none outside is touched, and exactly those fail at which a failing call began |
| `WriteManys.WriteMany` | src/io_engine/sync.rs:292-328 | one result for each block in order; what is reported as written is there unless a later block was for the same place, and nothing else is changed |
| `IoBlocks.MapSmallBlocks` | src/io_engine/utils.rs:243-271 | for each io block, the bits of the last run of blocks in it |
| `IoBlocks.AskedFor` | src/io_engine/utils.rs:243-271 | nothing else is asked for; all of the list is if and only if each block has a place in it after which its io block does not come again behind another |
| `IoBlocks.GroupedAsked` | src/io_engine/sync.rs:99-140 | a list that comes back to no io block is asked for in full |
| `IoBlocks.ComesBack` | src/io_engine/utils.rs:243-271 | a list that does loses what it asked before |
| `IoBlocks.ProcessIoBlock` | src/io_engine/utils.rs:282-313 | the handler gets each block asked for once, ascending, with its own part of the data |
| `WriteBatchers.WriteBatcher.Alloc` | src/write_batcher.rs:44-58 | takes an unused block and changes what no block holds |
| `WriteBatchers.WriteBatcher.Write` | src/write_batcher.rs:82-101 | afterwards the block holds the data with its checksum, over all but its first four bytes, in these, and the others what they held, but for bad blocks, whose queued writes are lost exactly when the queue was full and did not hold the block; the queue holds no block twice and no more than a batch; it fails only when a full queue cannot be flushed or the kind is unknown |
| `WriteBatchers.LosesWrite` | src/write_batcher.rs:82-130 | a queue of one whose write to a bad block is lost by the next write |
| `WriteBatchers.WriteBatcher.Read` | src/write_batcher.rs:103-115 | returns the last write, queued or not |
| `WriteBatchers.WriteBatcher.Flush` | src/write_batcher.rs:117-130 | keeps what every block holds but the bad ones, or fails and loses the queue |
| `WriteBatchers.PutAt` | src/write_batcher.rs:117-120 | a flushed queue of distinct blocks leaves each with its own data |
| `Copiers.AggregateOps` | src/copier/sync_copier.rs:37-61 | every block keeps its buffer, and no two neighbours could still be joined |
| `Copiers.StepKeeps` | src/copier/sync_copier.rs:273-354 | every read, write, hand-over and update of the statistics by either thread keeps the pipeline's invariant |
| `Copiers.CopyOutcome` | src/copier/sync_copier.rs:273-354 | for every job and every schedule: each op meets one fate, the statistics list exactly the failures in order and count the rest; a copied block that no other op writes, and whose source no op of an earlier chunk writes, holds its source's data, blocks of failed reads hold what they did if no other op writes them, and all others are untouched |
| `CopySafeties.SafeExactly` | src/copier/sync_copier.rs:273-354 | whatever the devices hold at first: every run leaves every op counted as copied with its data in its block if and only if no two ops write one block and no op reads what an earlier chunk writes |
| `CopySafeties.SharedBlockSpoilt` | src/copier/sync_copier.rs:273-354 | two ops to one block: a run, in which one write fails and leaves other data of the same length, that spoils one of them and counts it as copied |
| `CopyLoops.DoReads` | src/copier/sync_copier.rs:118-178 | the buffer of every op counted as read holds what its own source holds, through sorting, joining and vectored reads that fail |
| `CopyLoops.DoWrites` | src/copier/sync_copier.rs:179-243 | exactly the selected ops are written, once each, from their own buffers to their own blocks |
| `CopyLoops.ReadChunk` | src/copier/sync_copier.rs:118-178 | the reading of a chunk is a sequence of the single reads of the state machine |
| `CopyLoops.WriteChunk` | src/copier/sync_copier.rs:179-243 | the writing of a chunk is a sequence of its single writes |
| `Copiers.Progress` | src/copier/sync_copier.rs:273-354 | until both threads are done one can go on |
| `Copiers.StepsEnd` | src/copier/sync_copier.rs:273-354 | every step comes nearer the end in a well-founded order |
| `Writebacks.PipelineDone` | src/copier/sync_copier.rs:273-354 | between two devices the pipeline keeps the promise that the stages rely on |
| `Writebacks.RunBatches` | src/cache/writeback.rs:403-437 | over any batches: each block tried is cleaned or failed in one way, the data of each cleaned block that shares its origin with no other block tried is at home, nothing else is touched |
| `Writebacks.MakeBatches` | src/copier/batcher.rs:28-54 | the ops in order are cut into batches that are full but for the last, each sorted by destination |
| `Writebacks.StageOk` | src/cache/writeback.rs:586-620 | a retry stage adds to what is clean, replaces the failures and spoils nothing cleaned before |
| `Writebacks.CopyDirtyBlocks` | src/cache/writeback.rs:554-631 | after any number of stages cleaned and failed blocks are disjoint and together the dirty ones, and the data of every cleaned block that shares its origin with no other is at its origin block |
| `Writebacks.SafeWhenInjective` | src/cache/writeback.rs:403-437 | every run, from any contents, leaves every block counted as copied at home if and only if no two of the blocks tried map one origin block |
| `CopyStages.BatchesSafe` | src/cache/writeback.rs:403-437 | the same for any batches, copied one after the other |
| `CopyStages.WriteBackSafe` | src/cache/writeback.rs:554-631 | the same for the whole write back, however blocks are listed, batched and cut into chunks and however often failures are tried again |
| `DirtyFlags.SelectBlocks` | src/cache/writeback.rs:229-249 | exactly the valid blocks that the selector wants, each once |
| `DirtyFlags.UpdateV1Metadata` | src/cache/writeback.rs:458-502 | clears the dirty flag of exactly the cleaned blocks |
| `DirtyFlags.BitsetUpdater.SetBit` | src/cache/writeback.rs:342-365 | changes one bit of the whole bitset; fails exactly past its end |
| `DirtyFlags.BitsetUpdater.GetBitmap` | src/cache/writeback.rs:311-338 | finds the block that has a bit, writing the others back on the way |
| `DirtyFlags.UpdateV2Metadata` | src/cache/writeback.rs:504-518 | clears exactly the cleaned bits; fails exactly if one is past the end |
| `DirtyFlags.Writeback` | src/cache/writeback.rs:719-759 | the whole run: tried are exactly the valid blocks that are dirty, by their flag or by the bitset, or all valid blocks after an unclean shutdown; each is cleaned or failed; each cleaned block whose origin block is that of no other one tried has its data there; no origin block that is of none of them is touched; the flags of exactly the cleaned ones are cleared |
| `DirtyFlags.EntryIsAt` | src/cache/writeback.rs:229-235 | the entry of a cache block is the one that many places into the array |
| `ArrayBuilders.ArrayBlockBuilder.PushValue` | src/pdata/array_builder.rs:57-79 | accepts exactly the next indices within the array in ascending order, leaving defaults between; otherwise nothing changes |
| `ArrayBuilders.ArrayBlockBuilder.EmitBlock` | src/pdata/array_builder.rs:92-113 | emits one block at its full size and loses nothing |
| `ArrayBuilders.ArrayBlockBuilder.Complete` | src/pdata/array_builder.rs:81-89 | as many blocks as the array needs, all full but the last, holding the pushed values over defaults |
| `CacheRestorers.Restorer.SetDirty` | src/cache/restore.rs:103-119 | the dirty blocks are those of the words pushed and of the word being filled |
| `CacheRestorers.Restorer.Mapping` | src/cache/restore.rs:236-254 | accepts a mapping exactly when its block is the next or later and inside the cache; its entry is valid, has its origin block, and its dirty flag in version 1 only |
| `CacheRestorers.Restorer.Finalize` | src/cache/restore.rs:121-145 | succeeds exactly after a superblock, and for version 2 only with cache blocks; the arrays hold the mappings and the dirty blocks |
| `CacheRestorers.Restore` | src/cache/restore.rs:103-254 | a whole restore succeeds exactly for mappings in order and inside; then each mapping's entry is valid and has its origin block, and its dirty flag in version 1, the other entries are blank, and the words decode to exactly the dirty blocks |
| `Eras.ScanRuns` | src/era/invalidate.rs:179-226 | exactly the maximal runs of marked blocks below the limit, in order, across words, words of all ones and stray bits, if and only if some bit from the last below the limit up to 2^32 is clear or not there; otherwise all of them but the last |
| `Eras.EmitBlocks` | src/era/invalidate.rs:164-226 | the elements are those of the runs, a run of one as a block, and name exactly the marked blocks below the limit, under the same condition and only then |
| `Eras.DumpWriteset` | src/era/dump.rs:240-294 | the first blocks and lengths name exactly the maximal runs of marked blocks below the limit, and so exactly those blocks, under the same condition and only then |
| `Eras.AllLost` | src/era/invalidate.rs:179-226 | bits with one run below the limit of which nothing is found |
| `Eras.EraArrayCollator.Visit` | src/era/invalidate.rs:69-97 | marks exactly the blocks whose era is late enough; fails exactly if the bitset is too short |

## Left out

- Restorers.Restorer.Finalize: stops before the space maps and the superblock are written; device details, their tree
  and the order in which definitions are released are not part of this model.
- Restorers.Restore: what is enough for acceptance is stated, for nodes that are half full; nodes that are filled take
  half as many blocks.
- NodeBuilders.NodeBuilder.PushNodes: takes it as given that shared nodes are pushed in key order, which the source
  does not fully check; where the order is wrong the model says what is built, not that keys ascend.
- NodeBuilders.NodeBuilder.Complete: nothing is said of the state after a failed call; the source gives up there too.
- BtreeWalkers.BtreeWalker.Walk: error values, paths and aggregation of errors are reduced to success or failure; what
  a visitor does with a node is its leaf's block number.
- LayerReaders.Outcome: for trees with all leaves at one depth, over nodes that read alike as roots and as children, and
  for engines whose `read_blocks` reports errors block by block and does not fail as a whole. Reading a node and queueing
  its entry is one step, as it is one thread's own.
- Eras.ScanRuns: `collate_writeset` of the logical dump is not part of this model.
- PackRounds.RoundTrip: compression is taken as the identity, a chunk is written in one step, as it is under a lock, and
  the file header is left out; block numbers are taken to be below 2^52, as blocks are of 4096 bytes.
- Spindles.SpindleIoEngine.Load: the packing thread runs after the reads of its chunk.
- Copiers.CopyOutcome: blocks are whole values. The rescue copier is only modelled by the promise it shares
  (`Writebacks.Devices.Copy`).
- DirtyFlags.UpdateV1Metadata: errors of the metadata device are left out there, and in the bitset updater.
- BlockIo.VectoredBlockIo.ReadBlocks: a failed call is taken to leave the buffers alone.
- WriteManys.Disk.WriteBlocks: the device takes whole blocks, and at least one if it does not fail; the source panics on
  part of a block and does not end on none.
- ArrayBuilders.ArrayBlockBuilder.EmitBlock: vectors are taken to have exactly the capacity asked for, and blocks are
  kept as values, not written through the batcher.
- CacheRestorers.Restore: hints, discards, section checks and the superblock are left out.
- Words of 64 bits are modelled by their bits; u64 block numbers and lengths are natural numbers except where wrapping
  matters (deltas, era scan, cache keys).
- Checksums are an abstract tag of a block; the contents of error messages, progress reports, the command line, XML,
  O_DIRECT and io_uring are left out.
- `encode_node_path`, `summarize_tree_` on cyclic graphs, `optimise_metadata`, the merged data addresses of `DeltaRunBuilder` and multi-word ranges of `writeset_blocks` are left out: no clean
  guarantee holds there, or it rests on code outside the model.
- `NodeBuilders.Batcher` keeps written nodes in a plain map; that the write batcher refines one is proved in
  `WriteBatchers`.

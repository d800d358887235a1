# FISCO-BCOS node core: a Dafny model

This project models the parts of the node in which a small mistake would make two nodes disagree, and proves
what they are for:

- **Parallel execution of a block** (`ConflictGraph`, `Transactions`, `Scheduler`, `Serializability`): the dependency
  graph that `TxDAG::init` builds from critical fields, the worker loop over atomic in-degrees and the ready queue
  as a step machine with one step per atomic access, and the theorem that every interleaving gives the store and
  the receipts of the serial loop.
- **The Merkle Patricia trie** (`HexPrefix`, `Trie`, `TrieUnique`, `TrieRemoval`, `TrieHash`, `TrieNode`, `TrieHashing`,
  `TrieLive`, `NodeStore`, `TrieDb`, `TrieIteration`, `DbIteration`, `TrieHistory`, `TrieRuns`): first an algebraic
  trie with its canonical form, then `GenericTrieDB` itself, rewriting RLP nodes in a reference-counted `OverlayDB`,
  with exact counters; `TrieHash`, which computes the same root from a sorted map without a database; and the
  iterator, whose listing hashes to the root again.
- **RLP** (`Rlp`, `RlpWriter`, `RlpReader`): the stream writer that inserts list prefixes into the middle of its buffer,
  the reader with its canonicality checks, and the caching subscript operator.
- **Committing blocks** (`BlockStore`, `BlockCommit`): the check / parent check / lock / re-check protocol between
  any number of threads, and the block cache.
- **Channel framing** (`ChannelFraming`): messages reassembled from reads of any size.

Where the code does not do what its name promises the model keeps the code, and the exact condition is proved:

- Removal from a trie with keys of different lengths (`TrieRemoval`) leaves the trie's own nodes if and only if one of
  three things holds.  The key is not stored, and a stored key above it has nothing stored below.  Or the key is
  stored, is the only one below some stored key, and the value of that upper key has more than 32 bytes or, padded to
  32 bytes, is the hash of a two-item node in the store: `isTwoItemNode` is asked about the value.  Or the key ends,
  unstored, where stored keys part.  In the first case the value is followed as a reference: the code throws, or goes
  on in whatever node the store has there.
- Transactions with an empty critical list are ordered against nothing (`ConflictGraph.NormalOrderedIffListed`).

How the parts fit together: `ConflictGraph.BuildGraph` proves the graph property that
`Serializability.Serializable` starts from, and `Serializability.Prepare` connects the two.
`RlpReader.DecodesExactlyEncodings` and `RlpWriter.Serialize` justify that trie nodes are handled as RLP items.
`TrieUnique.Unique` (one canonical trie per content) turns the refinement lemmas into history independence,
`TrieHistory.Replay` carries it to whole runs of the database, `TrieRuns.Run` to every run over keys of one length
with no assumption but that sha3 does not collide on what the run writes, and `TrieHistory.RootFromEntries` closes the
circle from the database through the iterator and `TrieHash` back to the root.

`sha3` is a parameter: any function from byte strings to 32 bytes.  No function on all byte strings is injective, so
freedom from collisions is assumed only among the byte strings that a statement names: the node encodings that
occur in a run (`nodes` of `TrieDb.TrieDB`) or the nodes of two tries (`TrieNode.NoCollision`).  A transaction is a
program that chooses each access from what it has read so far; a block's hash is given with the block.

## Model

| member | source | states |
|---|---|---|
| `ConflictGraph.CriticalField.Update` | libblockverifier/TxDAG.h:94-106 | The named field gets the holder, and every other field keeps the one that get returned |
| `ConflictGraph.CriticalField.SetCriticalAll` | libblockverifier/TxDAG.h:94-124 | Afterwards get returns the given holder for every field |
| `ConflictGraph.Dag.Init` | libblockverifier/DAG.cpp:34-41 | No edges, no pending counts; what was queued before stays queued |
| `ConflictGraph.Dag.AddEdge` | libblockverifier/DAG.cpp:43-51 | One edge more, duplicates included, in any direction; in-degrees stay the numbers of incoming edges; edges to higher IDs keep the graph acyclic; an edge with both ends out of range is ignored |
| `ConflictGraph.Dag.Generate` | libblockverifier/DAG.cpp:53-65 | Behind what was queued, the queue gets exactly the vertices without incoming edges, each once |
| `ConflictGraph.ConflictIsSharedTouch` | libblockverifier/TxDAG.cpp:43-86 | Two transactions that may touch one field conflict |
| `ConflictGraph.ConflictNeedsSharedTouch` | libblockverifier/TxDAG.cpp:43-86 | Two conflicting transactions may touch one field, or both are normal |
| `ConflictGraph.LinkFields` | libblockverifier/TxDAG.cpp:57-66 | An edge from the latest holder of every listed field, and only edges between conflicting transactions |
| `ConflictGraph.TakeOver` | libblockverifier/TxDAG.cpp:68-71 | The transaction becomes the holder of exactly its listed fields |
| `ConflictGraph.LinkAll` | libblockverifier/TxDAG.cpp:76-84 | A normal transaction gets an edge from every latest holder, and only edges between conflicting transactions are added |
| `ConflictGraph.BuildGraph` | libblockverifier/TxDAG.cpp:35-94 | For every conflicting i < j the graph has a path from i to j, every edge goes to a higher in-range ID, in-degrees count incoming edges, and the queue holds the sources |
| `ConflictGraph.EmptyListStaysAlone` | libblockverifier/TxDAG.cpp:57-71 | A parallel transaction with an empty list is ordered against no other transaction |
| `ConflictGraph.NormalOrderedIffListed` | libblockverifier/TxDAG.cpp:57-84 | A normal transaction is ordered against a parallel one exactly when the latter lists a field |
| `Transactions.RunAgrees` | libblockverifier/BlockVerifier.cpp:99-108 | A transaction's receipt and effect depend only on the fields it may touch |
| `Transactions.RunFrames` | libblockverifier/BlockVerifier.cpp:99-108 | A transaction changes only fields it may touch |
| `Transactions.RanIsRun` | libblockverifier/BlockVerifier.cpp:99-108 | A receipt and a final store are those of some complete trace if and only if they are those of the run |
| `Transactions.WriteThenRead` | libblockverifier/BlockVerifier.cpp:104-107 | A program that writes a field reads its own write, which stays, and changes no other field |
| `Transactions.Execute` | libblockverifier/BlockVerifier.cpp:99-108 | A transaction runs along a trace of its program: every access is the one its code asks for, a read sees the last write, the receipt ends the trace, and every field is left as it was written last, deletions included |
| `Transactions.ExecuteSerially` | libblockverifier/BlockVerifier.cpp:99-108 | The serial loop runs every transaction along a trace from the store that the one before left, with the receipts in block order |
| `Transactions.SerialInOrder` | libblockverifier/BlockVerifier.cpp:99-108 | The serial stores and receipts are those of transactions that ran one after the other |
| `Scheduler.PendingsDrop` | libblockverifier/DAG.cpp:119-154 | Draining one out-edge removes one pending incoming edge, of its target only |
| `Scheduler.InitInv` | libblockverifier/TxDAG.cpp:86-94 | The state after generate satisfies the invariant |
| `Scheduler.StepInv` | libblockverifier/TxDAG.cpp:102-129 | Every atomic step keeps: in-degree = incoming edges not yet decremented, every released vertex is queued once or held by one worker, nothing begins twice, the counters add up |
| `Scheduler.StepPop` | libblockverifier/DAG.cpp:95-117 | A popped vertex, which no worker had, is afterwards with exactly one worker and no longer queued |
| `Scheduler.StepRelease` | libblockverifier/DAG.cpp:119-146 | A successor counter never underflows; the one worker that takes it to zero has the successor and nobody else does, and until then nobody has it |
| `Scheduler.StepCount` | libblockverifier/TxDAG.cpp:114-122 | Raising the counter before execution keeps it the number of transactions begun |
| `Serializability.PredecessorEnded` | libblockverifier/DAG.cpp:119-154 | A vertex that is no longer waiting has all its predecessors executed |
| `Serializability.BeginsAfterConflicts` | libblockverifier/TxDAG.cpp:43-129 | A transaction begins only after every earlier one it conflicts with has ended, although only edges from latest holders exist |
| `Serializability.Exclusive` | libblockverifier/BlockVerifier.cpp:208-248 | Of two transactions that may touch one field the later has not begun while the earlier has not ended |
| `Serializability.StepData` | libblockverifier/BlockVerifier.cpp:208-248 | Every step keeps each transaction on its serial course and each settled field at its serial value |
| `Serializability.OnceInOrder` | libblockverifier/TxDAG.cpp:102-129 | In every state of every run nothing begins twice, nothing ends before it began, and whatever began found its conflicting predecessors ended |
| `Serializability.AllFinished` | libblockverifier/TxDAG.h:67-67 | When all workers have left the loop every transaction has begun, ended and been consumed exactly once |
| `Serializability.Serializable` | libblockverifier/BlockVerifier.cpp:208-248 | For every block, number of workers and interleaving the final store and every receipt are those of the serial loop |
| `Serializability.SerializableInOrder` | libblockverifier/BlockVerifier.cpp:208-248 | The same without naming the serial run: the final store and receipts are ones that the programs leave when they run in block order |
| `Serializability.Prepare` | libblockverifier/BlockVerifier.cpp:208-215 | A fresh graph built for a well-formed block is a state from which the theorems start |
| `Serializability.PotentialDrops` | libblockverifier/TxDAG.cpp:102-129 | Every step other than an unsuccessful poll reduces the remaining work |
| `Serializability.BoundedWork` | libblockverifier/TxDAG.cpp:102-129 | No run has more productive steps than the work at its start |
| `Serializability.Progress` | libblockverifier/DAG.cpp:95-154 | Until all workers have left, some worker can do productive work within two of its own steps |
| `Serializability.WorkWaits` | libblockverifier/DAG.cpp:95-117 | With transactions not begun and nobody holding one, the queue is not empty |
| `Rlp.FromBEOfBE` | libdevcore/RLP.h:727-734 | The shortest big-endian form reads back and has no leading zero |
| `Rlp.BEOfFromBE` | libdevcore/RLP.h:375-397 | Every byte string without leading zero is the form of its number |
| `Rlp.FromBEConcat` | libdevcore/CommonData.h:152-159 | Reading is positional: what stands before counts 256 to the number of bytes behind it |
| `Rlp.SizeTakesEight` | libdevcore/RLP.h:61-69 | A length takes at most eight bytes exactly when it fits 64 bits |
| `Rlp.FirstByte` | libdevcore/RLP.h:61-69 | What the first byte of an encoding tells about kind, length and place of the payload, in the numbers of Yellow Paper Appendix B |
| `RlpWriter.RLPStream.NoteAppended` | libdevcore/RLP.cpp:249-293 | Counts down the innermost list, and when it is complete inserts its prefix and goes on outwards; fails exactly when a list gets too many items or too long |
| `RlpWriter.RLPStream.InsertPrefix` | libdevcore/RLP.cpp:262-288 | The prefix lands before the list's payload, with the rest of the buffer shifted behind it |
| `RlpWriter.RLPStream.PushCount` | libdevcore/RLP.cpp:364-371 | Appends the long form of a length |
| `RlpWriter.RLPStream.PushInt` | libdevcore/RLP.h:727-734 | Appends the big-endian form of a number, written from the end |
| `RlpWriter.RLPStream.AppendRaw` | libdevcore/RLP.cpp:242-247 | Copies bytes and counts the given number of items |
| `RlpWriter.AtOnceIsEach` | libdevcore/RLP.cpp:249-293 | Appending items at once with their number is appending them one by one, and more items than the list misses are refused |
| `RlpWriter.RLPStream.Append` | libdevcore/RLP.cpp:315-336 | Writes the string's encoding, leading zeros trimmed on request, as one item |
| `RlpWriter.TrimIsLeadingZeros` | libdevcore/RLP.cpp:315-323 | Trimming takes away all leading zeros and nothing else |
| `RlpWriter.RLPStream.AppendInt` | libdevcore/RLP.cpp:338-362 | Writes the encoding of the number's shortest form |
| `RlpWriter.RLPStream.AppendList` | libdevcore/RLP.cpp:295-303 | Opens a list at the current end, or writes an empty one as an item |
| `RlpWriter.CloseWhole` | libdevcore/RLP.cpp:262-293 | Closing a list written in full after any prefix leaves exactly its recursive encoding there |
| `RlpWriter.EmittedOne` | libdevcore/RLP.cpp:249-293 | An item in the middle of a list only lowers the count, the last one leaves what appending the whole list would |
| `RlpWriter.RLPStream.Emit` | libdevcore/RLP.cpp:242-371 | Preorder calls for any tree, inside any open lists, act like appending its recursive encoding |
| `RlpWriter.Serialize` | libdevcore/RLP.h:696-701 | For every tree the stream ends with no open list, so `out` returns the recursive encoding of Yellow Paper Appendix B |
| `RlpWriter.SerializeAtOnce` | libdevcore/RLP.cpp:242-303 | A list whose encoded items are appended in one piece, with their number, is the encoding of the list |
| `RlpWriter.SerializePart` | libdevcore/RLP.h:696-701 | As long as an item of a list is missing, `out` refuses |
| `RlpReader.ReadsHeader` | libdevcore/RLP.cpp:171-227 | The reader finds the kind, length and offset that the writer put into a prefix |
| `RlpReader.AcceptedHeader` | libdevcore/RLP.cpp:171-227 | A prefix that the reader accepts is the one the writer would choose |
| `RlpReader.DecodeEncoded` | libdevcore/RLP.cpp:40-58 | Strict decoding of an encoding returns the tree |
| `RlpReader.OnlyEncodings` | libdevcore/RLP.cpp:120-142 | What strict decoding accepts is the encoding of what it returns |
| `RlpReader.DecodesExactlyEncodings` | libdevcore/RLP.cpp:40-240 | A byte string decodes to a tree if and only if it is that tree's encoding and the length is one the reader holds |
| `RlpReader.EncodeInjective` | libdevcore/RLP.cpp:40-240 | Different trees have different encodings |
| `RlpReader.IntegerRoundTrip` | libdevcore/RLP.h:375-397 | An integer reads back if and only if it fits the integer type, and is refused otherwise |
| `RlpReader.IntegerCanonical` | libdevcore/RLP.cpp:144-169 | An accepted integer is the compact form of its value |
| `RlpReader.FromBigEndian` | libdevcore/CommonData.h:152-159 | The accumulating loop computes the big-endian value |
| `RlpReader.CountBelowSize` | libdevcore/RLP.cpp:229-240 | A payload has no more items than bytes |
| `RlpReader.RlpView.At` | libdevcore/RLP.cpp:88-103 | After any subscript calls, subscript i returns item i of an uncached decode, or null past the end, and keeps the cache valid |
| `RlpReader.ItemOpens` | libdevcore/RLP.cpp:60-86 | What a subscript returns is a well-formed view of the item |
| `HexPrefix.NibbleSlice.At` | libdevcore/TrieCommon.h:31-34 | Reading nibble i of a view is indexing the nibbles it stands for |
| `HexPrefix.SharedNibbles` | libdevcore/TrieCommon.h:38-50 | The length of the longest common prefix of two views |
| `HexPrefix.IsEarlierThan` | libdevcore/TrieCommon.h:86-98 | True exactly when the key is lexicographically below the prefix |
| `HexPrefix.LessAtShared` | libdevcore/TrieCommon.h:86-98 | The order is decided at the first nibble that differs, and a proper prefix comes first |
| `HexPrefix.HexOfVector` | libdevcore/TrieCommon.cpp:46-61 | The nibble-vector overload writes the hex-prefix code of the range, byte by byte as the layout says |
| `HexPrefix.HexOfSlice` | libdevcore/TrieCommon.cpp:63-85 | The slice overload writes the same bytes, at every offset |
| `HexPrefix.HexOfTwo` | libdevcore/TrieCommon.cpp:87-118 | The two-slice overload writes the bytes of the concatenation, for all parities |
| `HexPrefix.HexIsLayout` | libdevcore/TrieCommon.cpp:46-118 | The code of a key is exactly the bytes with the leaf flag in bit 5, the odd flag in bit 4, the first nibble of an odd key below them, and then two nibbles to a byte |
| `HexPrefix.HexRoundTrip` | libdevcore/TrieCommon.h:110-130 | keyOf and the flag test recover key and leaf flag from the code |
| `HexPrefix.HexInjective` | libdevcore/TrieCommon.h:110-130 | Different keys or flags have different codes |
| `Trie.AtCleve` | libdevcore/TrieDB.h:1191-1207 | Splitting a key in two changes no lookup |
| `Trie.AtBranchOf` | libdevcore/TrieDB.h:1249-1278 | Turning a pair into a branch changes no lookup |
| `Trie.MergeRefines` | libdevcore/TrieDB.h:836-991 | Insertion is map update, for keys of any length, prefixes of each other included |
| `Trie.MergeCanonical` | libdevcore/TrieDB.h:898-969 | Insertion keeps the canonical form |
| `TrieUnique.Unique` | libdevcore/TrieDB.h:836-1278 | Two canonical tries with the same content are equal |
| `TrieRemoval.UniqueInUse` | libdevcore/TrieCommon.cpp:120-132 | The only used slot, or 255 exactly when none or several are used |
| `TrieRemoval.AtJoin` | libdevcore/TrieDB.h:1209-1231 | Joining two keys changes no lookup |
| `TrieRemoval.RejigSound` | libdevcore/TrieDB.h:1066-1121 | Replacing a branch by its only child, or by a leaf with its value when nothing else is left, changes no lookup |
| `TrieRemoval.DeleteRefines` | libdevcore/TrieDB.h:993-1142 | A removal that stays on the trie's nodes is map deletion, keeps the canonical form, and changes nothing when the key is absent |
| `TrieRemoval.MisreadIffMisled` | libdevcore/TrieDB.h:1006-1123 | Removal goes wrong at a value if and only if a stored key above has nothing else stored below it and either the removed key is not stored, or that value is longer than a hash or names a pair in the store |
| `TrieRemoval.AboveRemoved` | libdevcore/TrieDB.h:1109-1120 | Removing the only key below a stored one leaves the leaf of the upper value, for every value that does not clash, and fails for every other |
| `TrieRemoval.PastEndIffForked` | libdevcore/TrieDB.h:1083-1092 | Removal reads behind the key if and only if the key ends, unstored, where stored keys part |
| `TrieRemoval.RemovalCanFail` | libdevcore/TrieDB.h:1044-1120 | Concrete tries and keys for every failure, above every store |
| `TrieRemoval.EqualLengthIsSafe` | libdevcore/TrieDB.h:354-381 | With keys of one length no failure happens, whatever the store holds |
| `TrieRemoval.NamedOnlyFails` | libdevcore/TrieDB.h:1006-1011 | What else the store holds can make a removal fail but never changes its result |
| `TrieHash.BuildHas` | libdevcore/TrieHash.cpp:27-85 | The trie built from a sorted list has every entry |
| `TrieHash.BuildLacks` | libdevcore/TrieHash.cpp:27-85 | And no other key |
| `TrieHash.BuildCanonical` | libdevcore/TrieHash.cpp:27-85 | And is canonical |
| `TrieHash.BuiltIsCanonical` | libdevcore/TrieHash.cpp:101-117 | It is the canonical trie of the map |
| `TrieHash.ApplyFollows` | libdevcore/TrieDB.h:836-1142 | One operation: the trie follows the map, and goes through exactly when it is safe for the map |
| `TrieHash.PlaysIffSafe` | libdevcore/TrieDB.h:993-1142 | A history goes through if and only if every removal in it is safe for the map it meets |
| `TrieHash.HistoryIndependent` | libdevcore/TrieDB.h:836-1278 | Histories with one final map end in one trie, the one TrieHash builds from the map, whatever else the stores held |
| `TrieHash.EqualLengthPlays` | libdevcore/TrieDB.h:354-381 | With keys of one length every history goes through |
| `TrieNode.NodeReadable` | libdevcore/TrieDB.h:1181-1189 | Every node of a trie with bounded keys and values can be written and read back |
| `TrieNode.RefBySize` | libdevcore/TrieDB.h:1181-1189 | A node is written in place exactly below 32 bytes, and goes by its hash from 32 bytes on |
| `TrieNode.ThirtyTwoGoesByHash` | libdevcore/TrieHash.cpp:87-99 | A leaf of exactly 32 bytes, byte for byte, goes by its hash |
| `TrieNode.RootCommits` | libdevcore/TrieDB.h:1181-1189 | Equal root hashes mean equal tries unless sha3 collides on two of their nodes |
| `TrieHashing.SharedPrefix` | libdevcore/TrieHash.cpp:39-53 | The loop finds what all keys share with the first |
| `TrieHashing.Advance` | libdevcore/TrieHash.cpp:68-72 | Each slot's range is exactly the keys that continue with its nibble |
| `TrieHashing.Hash256Rlp` | libdevcore/TrieHash.cpp:27-85 | Streams the node of the built trie into any open stream |
| `TrieHashing.Hash256Aux` | libdevcore/TrieHash.cpp:87-99 | Streams a node below 32 bytes in place and a longer one as its hash |
| `TrieHashing.Hash256` | libdevcore/TrieHash.cpp:107-117 | The root hash of the trie built from the sorted list of nibble keys |
| `TrieHashing.UnpackKeepsOrder` | libdevcore/TrieHash.cpp:106-108 | Byte keys and their nibbles are in the same order |
| `TrieHashing.HashMap` | libdevcore/TrieHash.cpp:101-117 | The root hash of a map with byte keys is that of the trie of its nibble keys |
| `NodeStore.OverlayDB.Finds` | libdevcore/OverlayDB.cpp:125-132 | Whatever is referenced is found with its own bytes, whether or not counters are enforced |
| `NodeStore.OverlayDB.HidesUnreferenced` | libdevcore/MemoryDB.cpp:56-72 | An entry without references is hidden exactly when counters are enforced |
| `NodeStore.OverlayDB.Insert` | libdevcore/MemoryDB.cpp:85-98 | Stores the bytes and raises the count by one |
| `NodeStore.OverlayDB.Kill` | libdevcore/MemoryDB.cpp:100-114 | Lowers a positive count by one and never falls below zero |
| `NodeStore.KillKeeps` | libdevcore/OverlayDB.cpp:141-160 | Killing keeps counter = references off the disk, also when only the disk holds the node |
| `NodeStore.OverlayDB.Commit` | libdevcore/OverlayDB.cpp:47-100 | Writes exactly the entries with a positive count over the disk and empties the overlay |
| `NodeStore.OverlayDB.Purge` | libdevcore/MemoryDB.cpp:143-153 | Drops exactly the entries without references and changes no counter |
| `NodeStore.CommitKeeps` | libdevcore/OverlayDB.cpp:47-100 | Afterwards everything referenced is on the disk, nothing on it changed, and nothing unreferenced was added |
| `TrieLive.ChildExchanged` | libdevcore/TrieDB.h:952-967 | Replacing one child changes the references of a branch by that child's and no others |
| `TrieLive.BelowIsNodes` | libdevcore/TrieDB.h:1181-1189 | What is referenced below a node is exactly the hashes of the nodes there that take 32 bytes or more |
| `TrieLive.MergeWithin` | libdevcore/TrieDB.h:898-969 | Insertion makes no key longer than the longest stored or inserted one |
| `TrieLive.DeleteWithin` | libdevcore/TrieDB.h:1019-1123 | Neither does removal, although it joins keys |
| `TrieLive.CanonicalNotThin` | libdevcore/TrieDB.h:1144-1160 | No node of a canonical trie looks like the branch that insertion makes in passing |
| `TrieLive.SplitThin` | libdevcore/TrieDB.h:1249-1278 | What branch makes of a pair always does |
| `TrieDb.TrieDB.constructor` | libdevcore/TrieDB.h:76-80 | The empty trie, its root, the hash of 0x80, stored and counted once |
| `TrieDb.TrieDB.AtAux` | libdevcore/TrieDB.h:858-890 | Lookup through inline nodes and hashes returns the trie's value |
| `TrieDb.TrieDB.Get` | libdevcore/TrieDB.h:852-856 | Lookup from the root returns the trie's value |
| `TrieDb.TrieDB.KillNode` | libdevcore/TrieDB.h:327-336 | Gives up one reference to a node of 32 bytes or more and touches nothing for a shorter one |
| `TrieDb.TrieDB.StreamNode` | libdevcore/TrieDB.h:1181-1189 | A node below 32 bytes is its own reference and nothing is stored; a longer one is stored under its hash with one count more, and the hash is the reference |
| `TrieDb.TrieDB.Place` | libdevcore/TrieDB.h:1144-1160 | The node with the value placed, the old one given up |
| `TrieDb.TrieDB.CleveNode` | libdevcore/TrieDB.h:1191-1207 | The split pair, references exchanged exactly |
| `TrieDb.TrieDB.BranchNode` | libdevcore/TrieDB.h:1249-1278 | The branch made of a pair, references exchanged exactly |
| `TrieDb.TrieDB.SplitDetached` | libdevcore/TrieDB.h:939-949 | The node made by a split is referenced nowhere, so the kill of it in place takes no reference away |
| `TrieDb.TrieDB.MergeNode` | libdevcore/TrieDB.h:898-969 | The rewritten node is that of the merged trie, and the references of the old node are exchanged for those below the new one |
| `TrieDb.TrieDB.MergeChild` | libdevcore/TrieDB.h:971-991 | The same through a reference, hashed or inline |
| `TrieDb.UniqueInUseItem` | libdevcore/TrieCommon.cpp:120-132 | The loop on the RLP node finds the only used slot other than the excepted one |
| `TrieDb.TrieDB.RefIsPair` | libdevcore/TrieDB.h:1006-1011 | On a reference isTwoItemNode is true exactly for leaves and extensions |
| `TrieDb.ToHashPads` | libdevcore/RLP.h:408-427 | toHash pads on the left with zeros and refuses exactly what is longer than 32 bytes |
| `TrieDb.TrieDB.ValueIsPair` | libdevcore/TrieDB.h:1006-1011 | On a value it fails exactly above 32 bytes, is true only if the padded value is the hash of a pair, and is true whenever that pair is referenced |
| `TrieDb.TrieDB.GraftNode` | libdevcore/TrieDB.h:1209-1231 | The pair with joined keys, the lower node's reference given up |
| `TrieDb.TrieDB.JoinNode` | libdevcore/TrieDB.h:1233-1247 | The pair above a node, grafted when that is a pair |
| `TrieDb.TrieDB.ValueNode` | libdevcore/TrieDB.h:1233-1247 | merge on slot 16: the leaf of the value, which isTwoItemNode does not take for a pair |
| `TrieDb.TrieDB.RejigNode` | libdevcore/TrieDB.h:1066-1121 | The branch as it is, or its only child or the leaf of its value in its place, references exchanged exactly |
| `TrieDb.TrieDB.DeleteNode` | libdevcore/TrieDB.h:1019-1123 | Nothing at all when the key is absent; otherwise the node of the trie without the key, references exchanged exactly |
| `TrieDb.TrieDB.DeleteChild` | libdevcore/TrieDB.h:1125-1142 | The same through a reference |
| `TrieDb.TrieDB.Insert` | libdevcore/TrieDB.h:836-850 | The database holds the merged trie: root = its hash, every counter off the disk = occurrences in the unfolded trie |
| `TrieDb.TrieDB.Remove` | libdevcore/TrieDB.h:993-1004 | The same for the trie without the key, for every key whose removal stays on the trie's nodes; an absent key changes nothing in the store |
| `TrieDb.TrieDB.Commit` | libdevcore/OverlayDB.cpp:47-100 | Every reachable node is on the disk, the trie and its lookups stay, no dead node is written, old nodes stay |
| `TrieDb.TrieDB.CountersExact` | libdevcore/MemoryDB.cpp:85-114 | Off the disk every counter is the number of occurrences of the hash in the unfolded trie |
| `TrieDb.TrieDB.Reopen` | libdevcore/OverlayDB.cpp:117-123 | After a rollback any trie on the disk can be opened, whatever was left uncommitted |
| `TrieDb.TrieDB.SetRoot` | libdevcore/TrieDB.h:82-93 | A trie whose nodes are on the disk is opened again by its root hash; an unknown root is refused |
| `TrieDb.TrieDB.FitNotThin` | libdevcore/TrieDB.h:82-93 | The references of a stored trie meet the invariant that insertion relies on |
| `TrieIteration.ListingGenuine` | libdevcore/TrieDB.h:585-599 | Every listed entry is in the trie |
| `TrieIteration.ListingComplete` | libdevcore/TrieDB.h:571-599 | Every entry of the trie is listed |
| `TrieIteration.ListingSorted` | libdevcore/TrieDB.h:733-822 | In strictly ascending order of keys, so each once |
| `TrieIteration.ListsContent` | libdevcore/TrieDB.h:571-822 | The listing is the sorted list of the map that the trie stores |
| `TrieIteration.DropIsLowerBound` | libdevcore/TrieCommon.h:73-98 | What is left of a sorted list is exactly the entries not below the key, the least first |
| `TrieIteration.PairKeeps` | libdevcore/TrieDB.h:635-678 | Entering a pair skips it exactly when all its keys are below the search key, and otherwise keeps the sought entry ahead |
| `TrieIteration.ScanKeeps` | libdevcore/TrieDB.h:703-730 | Scanning the slots of a branch passes only empty ones |
| `TrieIteration.NextKeeps` | libdevcore/TrieDB.h:603-731 | Every turn of the loop arrives at the sought entry or keeps it ahead, with less work left |
| `TrieIteration.ListingOfBuild` | libdevcore/TrieHash.cpp:101-117 | Listing the trie that TrieHash builds gives the list back |
| `TrieIteration.BuildOfListing` | libdevcore/TrieHash.cpp:101-117 | Building from the listing of a canonical trie gives the trie back |
| `DbIteration.TrieIterator.constructor` | libdevcore/TrieDB.h:571-577 | begin stands at the first entry with all others still to come, or at the end |
| `DbIteration.TrieIterator.LowerBound` | libdevcore/TrieDB.h:579-586 | lower_bound stands at the least entry not below the key with all later ones still to come, or at the end |
| `DbIteration.TrieIterator.Current` | libdevcore/TrieDB.h:588-601 | Key and value of the entry at which the iterator stands, leaf or branch |
| `DbIteration.TrieIterator.Next` | libdevcore/TrieDB.h:733-822 | Stands at the next entry, with the others still to come in order |
| `DbIteration.TrieIterator.Advance` | libdevcore/TrieDB.h:603-731 | Stands at the first remaining entry not below the search key, from any trail |
| `DbIteration.TrieIterator.EnterPair` | libdevcore/TrieDB.h:635-678 | On RLP nodes fetched from the database, does what the turn on values does |
| `DbIteration.TrieIterator.Scan` | libdevcore/TrieDB.h:703-730 | The same for the slots of a branch |
| `DbIteration.Enumerate` | libdevcore/TrieDB.h:571-822 | A loop from begin to end over the database visits the whole listing and ends |
| `TrieHistory.Replay` | libdevcore/TrieDB.h:836-1278 | In every run of inserts, removals and commits the database holds the trie of the history, counters exact after every step, and every trie that was ever committed stays on the disk |
| `TrieHistory.EraseIsSafe` | libdevcore/TrieDB.h:354-381 | With keys of one length every removal after every history stays on the trie's nodes, so runs over such keys are covered |
| `TrieHistory.RootOfHistory` | libdevcore/TrieHash.cpp:101-117 | The root after a history is the one hash256 computes from the final map |
| `TrieHistory.RootFromEntries` | libdevcore/TrieHash.cpp:114-117 | hash256 of what the iterator lists is the root of the database |
| `TrieHistory.IterationLists` | libdevcore/TrieDB.h:571-822 | Iterating over the trie of a history gives the sorted list of its final map |
| `TrieRuns.RunAdmissible` | libdevcore/TrieDB.h:836-1278 | Every run whose removals stay on the trie's nodes, with keys of any length, is one that Replay covers, as soon as `nodes` holds the encodings it makes |
| `TrieRuns.UniformSame` | libdevcore/TrieDB.h:354-381 | With keys of one length neither the tries nor the encodings of a run depend on what else the store holds |
| `TrieRuns.UniformAdmissible` | libdevcore/TrieDB.h:354-381 | Every run over keys of one length is covered as soon as `nodes` holds the finite set of its encodings |
| `TrieRuns.Run` | libdevcore/TrieDB.h:836-1278 | From an empty store every run over keys of one length goes through and ends with the root that hash256 computes from the final map, unless sha3 collides on two encodings of the run |
| `BlockStore.EvictKeeps` | libblockchain/BlockChainImp.cpp:58-71 | Eviction finds a non-empty queue, gets below the limit, and changes no cached block |
| `BlockStore.Added` | libblockchain/BlockChainImp.cpp:54-81 | At most eleven blocks, every cached hash queued, the added hash a hit, other hits unchanged, repeated adds included |
| `BlockStore.AddedEvicts` | libblockchain/BlockChainImp.cpp:58-71 | Exactly what adding evicts: nothing with room, only the hash queued longest when full, everything when that hash is no longer cached; a hash that stays keeps its block, also when added again |
| `BlockStore.AddedQueues` | libblockchain/BlockChainImp.cpp:58-81 | Every add is queued last, behind all that was queued except what was evicted |
| `BlockStore.KeepsLast` | libblockchain/BlockChainImp.cpp:54-81 | After any number of new blocks the cache holds exactly the last eleven |
| `BlockStore.BlockCache.Add` | libblockchain/BlockChainImp.cpp:54-81 | The class does what the specification of adding says, and never pops an empty queue |
| `BlockStore.BlockCache.Get` | libblockchain/BlockChainImp.cpp:83-98 | Whatever is returned was added to the cache, has the hash asked for and is queued under it; nothing is returned exactly when the hash is not cached |
| `BlockCommit.StepGrows` | libblockchain/BlockChainImp.cpp:287-297 | The number only grows, and the hashes up to it never change |
| `BlockCommit.StepOther` | libblockchain/BlockChainImp.cpp:1051-1075 | What a thread learned outside the lock stays true, or the second check will fail |
| `BlockCommit.StepChained` | libblockchain/BlockChainImp.cpp:1069-1098 | A write appends one block at the next height, on top of the hash stored below |
| `BlockCommit.StepInv` | libblockchain/BlockChainImp.cpp:1041-1110 | Every step of every thread keeps the invariant of the committing threads, whatever the hashes of the blocks |
| `BlockCommit.StepReadInv` | libblockchain/BlockChainImp.cpp:54-205 | Every step keeps tables, cache and what readers hold in agreement |
| `BlockCommit.CommitSafety` | libblockchain/BlockChainImp.cpp:1028-1110 | In every run accepted heights are consecutive, no height or thread is accepted twice, every parent hash is the hash of the block below, and whoever is told OK was accepted |
| `BlockCommit.RefusedWithReason` | libblockchain/BlockChainImp.cpp:1041-1074 | Whoever is refused was refused from a state that its block did not fit: with the wrong number at the first check, otherwise with another parent or number |
| `BlockCommit.FittingIsCommitted` | libblockchain/BlockChainImp.cpp:1041-1110 | If a block fits the tip when its thread begins, its height is committed by the time the thread is done |
| `BlockCommit.SomeoneCommits` | libblockchain/BlockChainImp.cpp:1071-1098 | If a block fits the stored chain and its thread is done, the log is not empty, and starts with that block if no other has its number |
| `BlockCommit.RunsEnd` | libblockchain/BlockChainImp.cpp:1041-1110 | No run has more steps than its threads have left at the start |
| `BlockCommit.NobodyStuck` | libblockchain/BlockChainImp.cpp:1069-1075 | As long as a thread is not finished some thread can step |
| `BlockCommit.CacheAgrees` | libblockchain/BlockChainImp.cpp:150-205 | In every run a reader gets the block stored under the hash, cached or not; it gets nothing only if no block was stored there before it began; the cache holds at most eleven |
| `BlockCommit.StepFillsCache` | libblockchain/BlockChainImp.cpp:150-205 | A finished commit and an answered read leave their block in the cache, and a cached block is answered at once |
| `ChannelFraming.RoundTrip` | libchannelserver/ChannelMessage.h:50-94 | A message reads back, whatever follows it, if and only if its id has 32 bytes and its length fits 32 bits |
| `ChannelFraming.DecodesExactly` | libchannelserver/ChannelMessage.h:66-94 | Bytes are taken for a message if and only if they start with its encoding and that could be sent |
| `ChannelFraming.DecodeOtherwise` | libchannelserver/ChannelMessage.h:66-94 | More bytes are awaited exactly when the header or the stated length is not there yet, and a stated length below the header is refused |
| `ChannelFraming.PrefixIncomplete` | libchannelserver/ChannelMessage.h:66-85 | Less than a whole message is never taken for one |
| `ChannelFraming.DecodeStable` | libchannelserver/ChannelMessage.h:66-94 | More bytes do not change a decision |
| `ChannelFraming.DrainSplits` | libchannelserver/ChannelSession.cpp:225-259 | Two reads give what one gives, for any bytes |
| `ChannelFraming.FeedIsDrain` | libchannelserver/ChannelSession.cpp:225-259 | Neither messages nor leftovers nor a failure depend on how the stream is cut, for any stream |
| `ChannelFraming.Reassembly` | libchannelserver/ChannelSession.cpp:225-259 | Any cutting of encoded messages and the start of one more delivers exactly those messages in order and keeps that start |
| `ChannelFraming.Session.OnRead` | libchannelserver/ChannelSession.cpp:212-277 | One read does to the session what the stream functions say; an error or an inactive session changes nothing |

## Left out

- ConflictGraph.Dag.AddEdge: a call with exactly one end out of range indexes behind the vertices and is not modelled.
- RlpWriter.RLPStream.AppendInt: the source counts the bytes of the number in 32 bits; numbers of 2^32 bytes or more
  are not modelled.
- TrieDb.TrieDB.constructor: the overlay has nothing uncommitted when the trie is opened; several tries in one overlay
  are not modelled.
- TrieDb.TrieDB.SetRoot: likewise.
- TrieDb.TrieDB.Insert: values are not empty, as an empty value means "absent" everywhere else; counters and key
  lengths are unbounded numbers, with lengths below 2^62.
- TrieDb.TrieDB.MergeNode: values are not empty; the bytes of a node are read and written as RLP items, whose byte
  level is that of `RlpReader` and `RlpWriter`, and the slices of a key are nibble sequences as `HexPrefix` specifies
  them.
- TrieDb.TrieDB.MergeChild: values are not empty.
- TrieDb.TrieDB.Remove: the key must be one for which removal stays on the trie's nodes; `TrieRemoval` says exactly
  which those are, with the pairs among `nodes` as those that a value can name.
- TrieRemoval.MisreadIffMisled: when the value of a leaf above an absent key names a stored node, the code goes on in
  that node; what it does there is not followed.
- DbIteration.TrieIterator.Advance: keys on the trail are nibble sequences; `HexPrefix` says how they are coded.
- Serializability.Serializable: in-degrees are unbounded numbers going up and 32-bit numbers going down; 2^32 edges
  into one transaction are not modelled.
- Scheduler.StepPop: the timed wait of the queue is a step that may return nothing.
- BlockCommit.CommitSafety: the writes of a commit reach the tables in one step, as the batch they are; the first,
  logged read of the parent hash and storage exceptions are not modelled.
- ChannelFraming.Session.OnRead: a stated length below 42 makes the copy of the data fail; the model stops the session
  there.
- Auxiliary entries, `exists` and `keys` of `MemoryDB`, write retries of `OverlayDB::commit`: easy members beside the
  counters.
- `orderedTrieRoot`, the debug walks `descendKey`/`check`, and `FatGenericTrieDB`/`HashedGenericTrieDB`: wrappers of
  what is modelled.
- Block execution itself, state roots and receipt roots: the two execution paths are compared on store and receipts
  only.
- The other caches and queries of `BlockChainImp`, sockets, timers, HTTP and JSON-RPC of the channel server,
  consensus, cryptography and storage engines.

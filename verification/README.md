# aidt in Dafny

aidt watches files and directories, reads what is appended to them as lines or as length-prefixed
frames, puts each piece as a message into a queue, and lets a Kafka producer empty that queue. This
project models the two parts of it that carry the hard guarantees, and proves these guarantees over
all inputs and all runs.

**The watch index.** The red-black tree that indexes the inotify watches is modelled on the heap, node by
node, with up links, one sentinel that all trees share, iterative repair loops and a cursor
(`RbShape`, `RbBalance`, `RbHeap`, `RbInsert`, `RbCursor`, `RbDelete`, `RbOps`, `RbLists`, `RbWalks`).
A ghost shape records what the links spell; a focus in it (a subtree and the path above it) says where
the loops are. Insertion, deletion and lookup are proved against the sorted sequence of keys, with the
colour rules, the number of rotations and the number of comparisons. `WatchIndexes` puts two such trees side by side and
proves when they index the same watches.

**The tailing pipeline.** `TextLines`, `BinaryFrames`, `FilePieces` and `Scanning` say what is to be sent of
a file and how the reading loops get there; `Tails` and `Readers` model the reader with its streams,
offsets and aliases. A journal names every message that a queue took, with the inode it came from.
`ReaderRuns` runs the reader beside programs that append, rename and delete; `Following` shows that over
such runs the journal names exactly the pieces of a file, once each, across renames. `EventThreads` puts
the reader under the event queue; `OffsetStores`, `Snapshots` and `Lives` let it crash at any point, while
it reads any number of files, and start again, and show that no piece is missed. `OldNames` and `Resuming`
show what goes wrong after renames. `MessageStores`, `MessageFlow` and `Producers` follow each
message from the queue to the producer, the error file and back. `QueueBound` interleaves threads, and
`Configs` and `PatternCaches` match files with configured paths.

How the environment enters:

- Files are byte sequences by inode, and names stand for inodes; a stream keeps its inode. Other programs
  append, create, rename and delete between any two events.
- Times, kernel answers, whether a file opens, how long the reader keeps running, which events arrive,
  and the content of memory that the program reads without having written it are parameters, so that the
  theorems hold for all of them.
- A crash ends the process, not the machine: bytes that reached a file stay, and a rename is atomic.
- `adbase::Buffer` and `adbase::Queue` are not part of this model; they are a byte sequence with big-endian
  numbers and a first-in-first-out sequence. `adbase::explode` is taken to drop empty parts and
  `adbase::trim` to strip the given character at both ends.
- An `unordered_map` is walked in an order that is fixed as long as its keys are.

What came out besides the proofs that everything works as intended:

- `create_watch` ignores whether the trees already know the keys; the trees stay in step exactly if both
  keys are known or neither is (`WatchIndexes.WatchIndex.CreateWatch`, `WatchIndexes.PartsWays`).
- Reading text never gets past a byte 0xFF, which as a signed char equals EOF: all lines are sent exactly if
  none ends behind such a byte (`Scanning.BehindEof`, `Scanning.EofWitness`, `EventThreads.EventThread.Drain`).
- The formatted line is printed from a buffer without a terminating zero; it is right for every content
  of memory exactly if the format ends with its directive (`TextLines.AlwaysFormatted`).
- A line longer than the limit is never passed: its event comes back for ever without progress, and
  this is the only such case (`EventThreads.StuckExactly`).
- An event under an old name sends lines of the renamed file without moving its offset; this harms the
  agreement of the two exactly if there is something to send (`Readers.Reader.ReadOn`), and the next event
  sends the same lines again (`OldNames.LineMisdirected`, `OldNames.LineSentTwice`).
- The inode in the offset file is not looked at, so a file that took over a name before a restart is read
  from the offset of the other one: its lines are all sent exactly if none begins ahead of that
  (`Resuming.TakenOver`, `Resuming.LineSkipped`). A resumed offset is right if the name stands for the file
  that it was saved for, or is one that no save told of (`Lives.Live`).
- A producer that asks an empty queue may have its old variables written to the error file, and a save
  into a file that does not open empties the queue (`Producers.Flow.Pop`, `Producers.Flow.Save`).
- The queue can exceed its limit by one message for each thread (`QueueBound.Reached`).
- An error file that opens but cannot be renamed is loaded again each time (`Producers.Flow.Load`).
- A recursive directory takes in every file among whose parts its own occur anywhere
  (`PatternCaches.RecursiveExactly`, `PatternCaches.OccursElsewhere`).

`dafny verify dfyconfig.toml` checks everything.

## Model

| member | source | states |
|---|---|---|
| `Watches.WdOrders` | src/thridpart/inotify/inotifytools.c:248-251 | Descriptors as compared by their difference are totally ordered, the smaller one first, which the tree asks of its comparison |
| `Watches.WdDifferenceFits` | src/thridpart/inotify/inotifytools.c:248-251 | For a stored descriptor, which is positive, and one looked for, which is at least -1, the difference stays within 32 bits, so that the comparison does not wrap |
| `Watches.FilenameOrders` | src/thridpart/inotify/inotifytools.c:253-256 | File names as compared by strcmp are totally ordered |
| `Watches.StrCmpSign` | src/thridpart/inotify/inotifytools.c:253-256 | strcmp gives zero exactly for equal names, and its sign changes when the names are exchanged |
| `Watches.StrCmpFirst` | src/thridpart/inotify/inotifytools.c:253-256 | The first difference of two names decides which comes first, or the end of the shorter one |
| `RbBalance.RedBlackIsShallow` | src/thridpart/inotify/redblack.c:118-128 | The longest way from the root to a leaf is at most twice the shortest, and 2 to the height is at most (n + 1) squared for n keys |
| `RbBalance.HeightBounds` | src/thridpart/inotify/redblack.c:118-128 | A subtree with b black nodes on each way down has height at most 2b (and 1 if its root is red) and at least 2^b - 1 keys |
| `RbBalance.PlugBalanced` | src/thridpart/inotify/redblack.c:122-123 | The whole tree has equal numbers of black nodes on all ways exactly if the subtree in focus and its surroundings fit together |
| `RbBalance.PlugNoRedRed` | src/thridpart/inotify/redblack.c:121 | No red node of the whole tree has a red child exactly if this holds in the focus, around it, and between the two |
| `RbBalance.KeyAtPlace` | src/thridpart/inotify/redblack.c:655-682 | A node in focus holds the key whose place is the number of keys to its left |
| `RbBalance.PlaceInOrder` | src/thridpart/inotify/redblack.c:655-682 | A node in focus is the node at that place of the in-order sequence |
| `RbBalance.RecolourKeeps` | src/thridpart/inotify/redblack.c:374-386 | Painting parent, uncle and grandparent moves the only possible red pair two levels up and keeps the black counts |
| `RbBalance.StraightenKeeps` | src/thridpart/inotify/redblack.c:389-395 | The first rotation of a repair after inserting brings an inner grandchild to the outside and keeps the black counts |
| `RbBalance.RaiseKeeps` | src/thridpart/inotify/redblack.c:397-402 | Painting and rotating the grandparent leaves no red pair anywhere, so the repair is over |
| `RbBalance.LowerKeeps` | src/thridpart/inotify/redblack.c:769-775 | With a red sibling the rotation brings the gap one level down, under a red parent and beside a black sibling |
| `RbBalance.MergeKeeps` | src/thridpart/inotify/redblack.c:777-781 | Painting a sibling that has two black children moves the gap to the parent, or closes it if that is red |
| `RbBalance.TurnKeeps` | src/thridpart/inotify/redblack.c:784-790 | Rotating the sibling brings its red child to the far side and keeps the gap where it is |
| `RbBalance.SettleKeeps` | src/thridpart/inotify/redblack.c:793-797 | The last rotation closes the gap: the black counts agree everywhere |
| `RbBalance.RecolourKeepsKeys` | src/thridpart/inotify/redblack.c:374-386 | Recolouring keeps the keys in order |
| `RbBalance.RaiseKeepsKeys` | src/thridpart/inotify/redblack.c:397-402 | The rotation of the grandparent keeps the keys in order |
| `RbBalance.SettleKeepsKeys` | src/thridpart/inotify/redblack.c:793-797 | The closing rotation keeps the keys in order |
| `RbHeap.RbTree.constructor` | src/thridpart/inotify/redblack.c:136-157 | A new tree is well formed and empty |
| `RbHeap.RbTree.LeftRotate` | src/thridpart/inotify/redblack.c:563-606 | The links after the rotation are exactly those of the rotated shape: six links change, all up links are right, nothing outside the tree is touched |
| `RbHeap.RbTree.RightRotate` | src/thridpart/inotify/redblack.c:608-651 | The same for the other direction |
| `RbHeap.RbTree.AddLeaf` | src/thridpart/inotify/redblack.c:327-356 | A fresh red node hangs where the descent ended, also as the first root |
| `RbHeap.RbTree.Splice` | src/thridpart/inotify/redblack.c:728-745 | Takes a node with at most one child out; the child's up link is set even if it is the shared sentinel |
| `RbHeap.RbTree.Paint` | src/thridpart/inotify/redblack.c:377-382 | Changes one colour in the shape and nothing else |
| `RbHeap.RbTree.Rekey` | src/thridpart/inotify/redblack.c:747-750 | Changes the key of one node and nothing else |
| `RbInsert.Descend` | src/thridpart/inotify/redblack.c:302-322 | The walk finds the equal key if there is one, else the place between its neighbours; the nodes compared are those of the search in the shape, and 2 to their number is at most (n + 1) squared for n keys |
| `RbInsert.VisitsFew` | src/thridpart/inotify/redblack.c:118-128 | A search in a red-black tree of n keys compares at most 2 * log2(n + 1) nodes |
| `RbInsert.Recolour` | src/thridpart/inotify/redblack.c:374-386 | On the heap: the case of the red uncle, two levels up |
| `RbInsert.RaiseLeft` | src/thridpart/inotify/redblack.c:397-402 | On the heap: the closing rotation on the left side |
| `RbInsert.RaiseRight` | src/thridpart/inotify/redblack.c:428-430 | On the heap: the closing rotation on the right side |
| `RbInsert.RepairLeft` | src/thridpart/inotify/redblack.c:371-404 | One round on the left side: comes nearer to the root without rotating, or ends the repair with at most two rotations |
| `RbInsert.RepairRight` | src/thridpart/inotify/redblack.c:405-432 | One round on the right side |
| `RbInsert.Rebalance` | src/thridpart/inotify/redblack.c:358-436 | The loop ends, with at most two rotations in all, in a red-black tree with the same keys |
| `RbInsert.Traverse` | src/thridpart/inotify/redblack.c:294-439 | Present key: its node, and nothing changes. Absent key: nothing, or a new node, the key inserted at its place and the tree well formed; in every case with the few comparisons of the search |
| `RbCursor.Successor` | src/thridpart/inotify/redblack.c:655-682 | The node returned is the next one in order, and the sentinel exactly after the last |
| `RbCursor.Predecessor` | src/thridpart/inotify/redblack.c:686-713 | The node returned is the previous one in order, and the sentinel exactly before the first |
| `RbCursor.ThereAndBack` | src/thridpart/inotify/redblack.c:655-713 | Each of the two undoes the other wherever there is a neighbour |
| `RbDelete.LowerLeft` | src/thridpart/inotify/redblack.c:769-775 | On the heap: the case of the red sibling, where x first moves one level down |
| `RbDelete.Merge` | src/thridpart/inotify/redblack.c:777-781 | On the heap: the sibling is painted and the parent is looked at next |
| `RbDelete.TurnLeft` | src/thridpart/inotify/redblack.c:784-790 | On the heap: the rotation of the sibling |
| `RbDelete.SettleLeft` | src/thridpart/inotify/redblack.c:793-797 | On the heap: the closing rotation; x continues at the root |
| `RbDelete.RefillLeft` | src/thridpart/inotify/redblack.c:766-799 | One round on the left side: the effort left falls although a red sibling first moves x down, and at most three rotations are made |
| `RbDelete.RefillRight` | src/thridpart/inotify/redblack.c:800-832 | One round on the right side |
| `RbDelete.RepairDeleted` | src/thridpart/inotify/redblack.c:760-836 | The loop ends, with at most three rotations in all, in a red-black tree with the same keys; the sentinel serves as x and stays black |
| `RbDelete.Remove` | src/thridpart/inotify/redblack.c:719-756 | The key of z is gone and all others are there; with two children the successor's key is copied and its node is the one freed |
| `RbOps.Find` | src/thridpart/inotify/redblack.c:190-205 | Returns the stored equal key, and None exactly if no stored key is equal, with at most 2 * log2(n + 1) comparisons |
| `RbOps.FindsUnique` | src/thridpart/inotify/redblack.c:190-205 | What a find may return is determined: at most one stored key is equal |
| `RbOps.Search` | src/thridpart/inotify/redblack.c:174-186 | Returns the stored equal key and changes nothing, or stores the new key at its place; at most two rotations, and a find then succeeds |
| `RbOps.Delete` | src/thridpart/inotify/redblack.c:208-231 | Returns the stored equal key and leaves exactly the others, or None and leaves everything; at most three rotations and 2 * log2(n + 1) comparisons |
| `RbOps.TargetLooksUp` | src/thridpart/inotify/redblack.c:497-523 | The place a mode computes from the descent holds what the mode means on the sorted keys |
| `RbOps.Neighbour` | src/thridpart/inotify/redblack.c:478-495 | The last node visited before a missing key is a neighbour of the place where the key belongs |
| `RbOps.FirstNode` | src/thridpart/inotify/redblack.c:454-464 | Going left to the end reaches the smallest key |
| `RbOps.LastNode` | src/thridpart/inotify/redblack.c:465-475 | Going right to the end reaches the largest key |
| `RbOps.LookupNode` | src/thridpart/inotify/redblack.c:444-527 | The node for each mode, whatever neighbour of a missing key the descent stops at, with at most 2 * log2(n + 1) comparisons |
| `RbOps.Lookup` | src/thridpart/inotify/redblack.c:274-287 | Returns the nearest key that the mode accepts, and None exactly if it accepts none |
| `RbOps.LooksUpMeans` | src/thridpart/inotify/redblack.c:274-287 | What a key that a mode returns is, mode by mode: equal, or the nearest on the side of the mode, or the first or last |
| `RbOps.LooksUpNone` | src/thridpart/inotify/redblack.c:274-287 | When a mode returns none, no stored key is on its side |
| `RbLists.RbList.Read` | src/thridpart/inotify/redblack.c:890-902 | Yields the key at the cursor and moves it to the next place; at the end None for ever |
| `RbLists.ReadAll` | src/thridpart/inotify/redblack.c:867-902 | Opening and reading to the end yields every key once, in ascending order |
| `RbWalks.MiddlesAscend` | src/thridpart/inotify/redblack.c:841-863 | The calls in the middle of the visits come in ascending order of the keys |
| `RbWalks.EndsOnce` | src/thridpart/inotify/redblack.c:841-863 | Every key has exactly one call at the end of its visit |
| `RbWalks.EndIsLast` | src/thridpart/inotify/inotifytools.c:316-322 | After the end or leaf call of a key the walk does not call it again, so that the record may be freed there |
| `RbWalks.WalkBelow` | src/thridpart/inotify/redblack.c:841-863 | The recursive walk makes exactly the calls of the shape, with their depths |
| `RbWalks.CallsAround` | src/thridpart/inotify/redblack.c:841-863 | The visit to a node begins with its first call and ends with its last, both at its level; a leaf has one call |
| `RbWalks.CountKeys` | src/thridpart/inotify/inotifytools.c:1623-1627 | Counting end and leaf calls counts the keys |
| `WatchIndexes.WatchIndex.FromWd` | src/thridpart/inotify/inotifytools.c:261-265 | Finds the record with this descriptor, if any |
| `WatchIndexes.WatchIndex.FromFilename` | src/thridpart/inotify/inotifytools.c:270-274 | Finds the record with this name, if any |
| `WatchIndexes.WatchIndex.CreateWatch` | src/thridpart/inotify/inotifytools.c:891-899 | Each tree stores the record unless it knows its key; trees in step stay so exactly if both know the new keys or neither does |
| `WatchIndexes.PartsWays` | src/thridpart/inotify/inotifytools.c:891-899 | A run in which the trees part: a second name for a known descriptor is stored in one of them only |
| `WatchIndexes.WatchIndex.RemoveRecord` | src/thridpart/inotify/inotifytools.c:876-886 | Nothing happens when the kernel refuses; else the tree by descriptor loses exactly the record with this descriptor and the tree by name exactly the one with this name, whether or not the trees are in step |
| `WatchIndexes.WatchIndex.RemoveByWd` | src/thridpart/inotify/inotifytools.c:913-923 | Removes exactly the record with this descriptor, or nothing; the tree by name loses exactly the record with the same name, which is the same record if the trees are in step |
| `WatchIndexes.WatchIndex.RemoveByFilename` | src/thridpart/inotify/inotifytools.c:936-946 | Removes exactly the record with this name, or nothing; the tree by descriptor loses exactly the record with the same descriptor, which is the same record if the trees are in step |
| `WatchIndexes.WatchIndex.NumWatches` | src/thridpart/inotify/inotifytools.c:1623-1627 | The number of watches is the number of records of either tree |
| `WatchIndexes.StepsKeyed` | src/thridpart/inotify/inotifytools.c:891-946 | Over any fitting run no two records share a descriptor or a name |
| `WatchIndexes.Run` | src/thridpart/inotify/inotifytools.c:891-946 | Over any fitting run of creations and removals both trees, with one shared sentinel whose links other than up never change, stay well formed and hold the same records |
| `Bytes.U32RoundTrip` | src/App/DataStore.cpp:121-127 | A number written in four bytes, most significant first, is read back modulo 2^32 |
| `Bytes.EncodeAt` | src/App/DataStore.cpp:121-127 | Each byte of a written number has the weight of the places behind it: the most significant comes first |
| `Bytes.U32Bytes` | src/App/DataStore.cpp:121-127 | The four bytes of a written number |
| `Bytes.DecodeFour` | src/App/Reader.cpp:219-231 | The value of four bytes that are read |
| `Bytes.EncodeDecode` | src/App/DataStore.cpp:121-127 | Writing what was read gives the same bytes |
| `MessageStores.ParseSerialized` | src/App/DataStore.cpp:120-129 | A record in front of anything is read back as it was |
| `MessageStores.ParseCut` | src/App/DataStore.cpp:67-98 | A record that is cut off anywhere is not read |
| `MessageStores.SavedIsReloaded` | src/App/DataStore.cpp:19-37 | A queue saved behind any records is reloaded behind them, complete and in order |
| `MessageStores.TruncatedIsReloaded` | src/App/DataStore.cpp:56-115 | From any truncation of the file exactly the records wholly contained in it are reloaded |
| `MessageStores.WholeIsWithin` | src/App/DataStore.cpp:56-115 | The number of records reloaded is the number of those that end within the truncated file |
| `MessageFlow.ReadItem` | src/App/DataStore.cpp:63-100 | The successive short reads give a record or stop, just as the format says |
| `MessageFlow.DataStore.SaveQueue` | src/App/DataStore.cpp:19-37 | The queue is emptied, and its records are appended if the file opens |
| `MessageFlow.DataStore.SaveItem` | src/App/DataStore.cpp:42-51 | One record is appended if the file opens |
| `MessageFlow.DataStore.LoadMessages` | src/App/DataStore.cpp:56-115 | The complete records of the file join the queue at its end if it opens, and the file is moved aside if it can be renamed; in no other case does anything change |
| `MessageFlow.Message.SetMessage` | src/App/Message.cpp:41-56 | Accepts exactly if no more than the limit wait |
| `MessageFlow.Message.Send` | src/App/Message.cpp:25-36 | Hands out the oldest message; on an empty queue the caller's variables keep what they held |
| `MessageFlow.Message.ErrorCallback` | src/App/Message.cpp:61-73 | The message joins the error file unless it has no topic, no body, or the file does not open |
| `MessageFlow.Message.SaveMessage` | src/App/Message.cpp:78-81 | The queue joins the error file, which stays readable |
| `MessageFlow.Message.LoadMessage` | src/App/Message.cpp:86-89 | Whatever the error file holds, also with a cut-off record: its complete records join the queue if it opens, and none are left in it if it can be renamed |
| `MessageFlow.WellFormedAppend` | src/App/DataStore.cpp:120-129 | Appending records to a readable file appends to what is read from it |
| `Producers.Topics.CheckValid` | src/App.cpp:180-202 | Without a partition accepts exactly the non-empty topics that are known, now or after one refresh; with one, only if it is listed for the topic, a negative one as its value in 32 unsigned bits |
| `Producers.ProducerIn.Send` | src/Aims/Kafka/ProducerIn.cpp:22-36 | A valid message goes to the producer, in particular each of a known topic that names no partition; an invalid one goes to the error file; on an empty queue it is the caller's old variables that are checked and may be written |
| `Producers.ProducerIn.ErrorCallback` | src/Aims/Kafka/ProducerIn.cpp:41-46 | A message that the producer reports moves from the producer to the error file |
| `Producers.Flow.Pop` | src/Aims/Kafka/ProducerIn.cpp:22-36 | Conservation; a message is lost exactly if it is invalid and the error file does not open, and one appears from nowhere exactly if the queue is empty, the old variables are invalid and it opens |
| `Producers.Flow.Report` | src/Aims/Kafka/ProducerIn.cpp:41-46 | Conservation; a message is lost exactly if it counts and the error file does not open |
| `Producers.Flow.Save` | src/App/Message.cpp:78-81 | Conservation; the queue is lost exactly if the file does not open |
| `Producers.Flow.Load` | src/App/Message.cpp:86-89 | Conservation; messages appear from nowhere, namely those loaded a second time, exactly if the file opens but cannot be renamed |
| `Producers.Flow.Accept` | src/App/Message.cpp:41-56 | Exactly if no more than the limit wait, the message joins the queue and the journal of all accepted ones; conservation |
| `Producers.Flow.Run` | src/App/Message.cpp:25-89 | Over any run the journal only grows, and each message that it names with topic and body is in exactly one of queue, producer, error file and lost; over a run in which the file opens and the producer starts with empty variables none is lost or appears |
| `TextLines.LinesAppend` | src/App/Reader.cpp:172-201 | Behind a newline the lines of the rest are the rest of the lines: the ground of reading in portions |
| `TextLines.LinesWritten` | src/App/Reader.cpp:172-201 | Of what a program writes, line by line, exactly the lines are found, and an unfinished one is not |
| `TextLines.ShownIsFormatted` | src/App/Reader.cpp:264-269 | A line without zeros comes out as configured exactly if the memory behind it, followed by the end of the format, starts with the end of the format |
| `TextLines.AlwaysFormatted` | src/App/Reader.cpp:264-269 | This holds whatever the memory holds exactly if nothing follows the directive in the format |
| `BinaryFrames.FramesAppend` | src/App/Reader.cpp:218-243 | Behind whole frames the frames of the rest are the rest of the frames |
| `BinaryFrames.FramesFramed` | src/App/Reader.cpp:218-243 | Of framed bodies followed by a truncated frame exactly the bodies are found, and the truncated one is neither taken nor skipped |
| `BinaryFrames.FrameAtIs` | src/App/Reader.cpp:219-231 | The length of a frame by the four bytes before it |
| `BinaryFrames.OneByteFrame` | src/App/Reader.cpp:219-231 | The file 0, 0, 0, 1, 65 holds the message A |
| `Scanning.ScanLine` | src/App/Reader.cpp:184-196 | At a newline the buffer is the next line of the bytes read |
| `Scanning.ScanEnd` | src/App/Reader.cpp:172 | At the end of what can be read no complete line is left |
| `Scanning.ScanTooLong` | src/App/Reader.cpp:176-180 | The loop stops at its length limit only if the next line is longer |
| `Scanning.TooLongIs` | src/App/Reader.cpp:176-180 | The next line is too long exactly if newlines, and then more other bytes than the limit, can be seen |
| `Scanning.TooLongFirst` | src/App/Reader.cpp:176-180 | If the next line is longer than the limit, any reading that got past it would have sent it |
| `Scanning.BehindEof` | src/App/Reader.cpp:172 | When everything that can be seen of a text was sent, every line of it was sent exactly if no line ends behind a byte 0xFF |
| `Scanning.EofWitness` | src/App/Reader.cpp:172 | A text of two lines, the first a byte 0xFF, of which neither is ever sent |
| `Scanning.TakenAndLeft` | src/App/Reader.cpp:172-243 | The pieces taken and those left to see are together all that could be seen |
| `Scanning.TakeFrame` | src/App/Reader.cpp:218-243 | Either no whole frame is left, or the next frame extends what was taken |
| `Scanning.NextFrame` | src/App/Reader.cpp:219-231 | The two reads give the body of the next whole frame, as long as the four bytes before it say, or nothing if it is cut off |
| `Tails.FaithfulAdvance` | src/App/Reader.cpp:191 | Reading further pieces and moving the offset over them keeps: sent are exactly the pieces between start and offset |
| `Tails.FaithfulNoMore` | src/App/Reader.cpp:328-339 | Sending pieces without moving the offset breaks it |
| `Tails.FaithfulGrows` | src/App/Reader.cpp:164-165 | A file that grows keeps it |
| `Readers.Reader.constructor` | src/App/Reader.cpp:10-18 | A new reader is in order and has read nothing |
| `Readers.Reader.OpenStream` | src/App/Reader.cpp:372-408 | A good open stream is kept; else the named file is opened, and every attempt is counted, also a failing one |
| `Readers.Reader.GcFstream` | src/App/Reader.cpp:345-358 | Exactly those streams stay open whose files have not been read yet, were read within the life time, or are protected; the new count is that of the streams open before, hence too high but never too low |
| `Readers.Reader.Attach` | src/App/Reader.cpp:298-317 | Fetches or creates the item and opens its stream; an item whose path was moved no longer ago than it may wait keeps offset, protection and stream, and one moved longer ago starts at 0, unprotected, from the file that has the name |
| `Readers.Reader.InitStream` | src/App/Reader.cpp:278-323 | The event has to come back exactly if the count is above the limit and so were the streams open, and then the idle ones were closed; otherwise the item and its stream are those of the present name |
| `Readers.Reader.ComesBackOnce` | src/App/Reader.cpp:284-292 | When every open file was last read a second ago or more and none is protected, a second event does not come back because of the limit |
| `Readers.TimedOutIs` | src/App/Reader.cpp:306 | A file is read anew exactly if its path was moved longer ago than it may wait |
| `Readers.Reader.SendMessage` | src/App/Reader.cpp:255-273 | The message is the formatted line, or the frame as it is, with no partition, and it is queued unless the queue is full |
| `Readers.Reader.SetFileOffset` | src/App/Reader.cpp:328-339 | Moves the offset of an item with this name, if there is one, and nothing else |
| `Readers.Reader.ReadLines` | src/App/Reader.cpp:168-201 | Sends exactly the lines of the bytes it moves the offset over, in order, none longer than the limit, and never passes a byte 0xFF; unless the event comes back, no line is left to see and none is too long |
| `Readers.Reader.ReadFrames` | src/App/Reader.cpp:215-249 | Sends exactly the frames of the bytes it moves the offset over; a truncated last frame stays unread |
| `Readers.Reader.ReadOn` | src/App/Reader.cpp:156-250 | After reading, offsets and messages agree exactly if the event named the file as the reader does, or nothing was to be sent: no piece is left to see, or the next line is too long (if the queue has room and reading goes on) |
| `Readers.Reader.SentNothing` | src/App/Reader.cpp:172-249 | With room in the queue nothing is sent exactly if no piece is left to see or the next line is too long |
| `OldNames.LineMisdirected` | src/App/Reader.cpp:295-339 | A run in which agreement is lost: a file is read and renamed, a line is written to it, and an event under its old name sends the line without moving the offset |
| `OldNames.LineSentTwice` | src/App/Reader.cpp:295-339 | The next event under the new name sends the same line again |
| `Readers.Reader.Read` | src/App/Reader.cpp:30-43 | What an event does in all, as a relation of the states before and after: which inode is read, from which offset, what is sent, how far the offset moves, which streams close, and what is left alone; in particular when a moved file starts anew |
| `Readers.Reader.MoveSelf` | src/App/Reader.cpp:80-90 | The item is protected from the collection, the move time of the path is set, and nothing else changes |
| `Readers.Reader.MoveTo` | src/App/Reader.cpp:95-104 | Item, stream and what was sent go to the new name, and the old name becomes an alias |
| `Readers.Reader.Clear` | src/App/Reader.cpp:48-75 | The item is forgotten, its stream closed, and exactly the aliases of it are dropped |
| `Readers.ReadAgrees` | src/App/Reader.cpp:295-297 | A reading under an old name moves no offset of the file it reads: agreement is lost exactly if something was sent |
| `ReaderRuns.ChangeBeside` | src/App/Reader.cpp:372-408 | Appends, new files, renames and deletions by other programs keep the reader in order |
| `ReaderRuns.Run` | src/App/Reader.cpp:30-104 | Over any run, with events under any names, every item is found under its own name, no stream is shared, each open stream reads the inode that was sent from, and the open streams are at most the counter, which is at most one above the limit |
| `ReaderRuns.FollowRead` | src/App/Reader.cpp:156-250 | One reading under the name of a file adds to the journal of its inode exactly the pieces that the offset moved over, and leaves every other item alone |
| `Following.Run` | src/App/Reader.cpp:30-104 | Over any run of readings, moves, renames and deletions of any files, changes by other programs, refusals and pops, in which events name the followed file truly, what the queue took from its inode is exactly what it had taken before and the pieces that the offset moved over, also across renames |
| `Following.ExactlyOnce` | src/App/Reader.cpp:156-273 | So since the beginning of the run the queue took from the inode exactly the messages of the pieces between the two offsets, once each, in order, and as configured (for lines without zeros and a format that ends with its directive) |
| `Following.StepMoved` | src/App/Reader.cpp:95-104 | A rename takes offset, stream and what was sent to the new name, also before the file was first read |
| `Following.StepRead` | src/App/Reader.cpp:156-250 | A reading under any other name, even an old one, leaves the followed file alone if that name cannot mean it |
| `Following.RotationIsFair` | src/App/Reader.cpp:80-104 | Reading a log, renaming it, creating another under its old name and reading on under the new one, any time before the waiting time is over, is such a run |
| `EventThreads.EventThread.PushStop` | src/App/Watcher.cpp:42-50 | A stop goes to the end of the queue |
| `EventThreads.EventThread.Handle` | src/App/Watcher.cpp:79-102 | What each kind of event does to the whole state of the reader and what it puts at the end of the queue; a rename from a name without an item changes nothing |
| `EventThreads.EventThread.Run` | src/App/Watcher.cpp:74-111 | With a stop in the queue the thread ends; the reader has gone through a chain of states, each made from the one before by handling the next of the events ahead of the stop; what is left are the events behind it and those that joined |
| `EventThreads.EventThread.Drain` | src/App/Watcher.cpp:88-95 | For a file that does not grow, with lines short enough, a producer that keeps up and streams enough, coming back ends, with every piece sent that could be seen; in a text no line is left at all exactly if none ended behind a byte 0xFF |
| `EventThreads.Progress` | src/App/Reader.cpp:172-201 | Each time the event comes back the offset has moved |
| `EventThreads.StuckExactly` | src/App/Reader.cpp:176-180 | The event comes back without the offset having moved exactly if the next line is too long |
| `OffsetStores.CutLoads` | src/App/DataStore.cpp:158-204 | From an offset file cut off anywhere its first records are loaded, from a whole one all |
| `OffsetStores.ByFileIs` | src/App/DataStore.cpp:198 | With distinct files the map holds the record of each |
| `OffsetStores.NextByFile` | src/App/DataStore.cpp:198 | A later record of a file replaces an earlier one |
| `OffsetStores.RecordReads` | src/App/DataStore.cpp:164-198 | A record in front of anything tells offset, configured path and file |
| `OffsetStores.ReadRecord` | src/App/DataStore.cpp:164-192 | The successive short reads give a record or stop |
| `Snapshots.WriteRecords` | src/App/Reader.cpp:115-127 | What is written is a beginning of the snapshot, and all of it without a crash |
| `Snapshots.Save` | src/App/Reader.cpp:109-135 | With a crash before, between or within any steps, and even if the new file does not open, the disk tells no more than this or an earlier snapshot; if it opens, what is found is the earlier content, nothing, or of each regular file whose path is configured the path and the offset |
| `Snapshots.LoadOffsets` | src/App/DataStore.cpp:158-204 | Each record sets path, name and offset of the item of its file, and the other items stay |
| `Snapshots.Start` | src/App.cpp:61-62 | A new reader starts in order with the files, configured paths and offsets that are found |
| `Snapshots.Resave` | src/App/Reader.cpp:109-143 | A save right after a start makes the same files, paths and offsets found again, if all the files are regular and their paths configured |
| `Lives.Catch` | src/App/Reader.cpp:140-143 | A life that resumes at or behind what had been caught catches all up to where it comes |
| `Lives.FoundPast` | src/App/DataStore.cpp:158-204 | What a start finds tells only of names that some snapshot told of, and of the file an offset that reading had come to, where a piece ends |
| `Lives.LiveSave` | src/App/Reader.cpp:109-135 | A save of the offsets of all files, complete or interrupted, leaves for the file only offsets that reading had reached |
| `Lives.AllCaught` | src/App/Reader.cpp:109-143 | Lives that each began not behind what was reached before and sent exactly the pieces they moved over have together sent every piece up to the farthest offset |
| `Lives.LiveStep` | src/App/Reader.cpp:30-104 | No event about any file, and nothing that other programs do, takes the offset of the file back or unties it from what was sent |
| `Lives.Live` | src/App/Reader.cpp:30-202 | Over any run in which events about all files are handled, other programs change them, offsets of all files are saved and the program dies at any point: each life began where a piece of the file ends, at most as far as one before it had come, and sent exactly the pieces between its two offsets; the queues of all lives took from the inode exactly these; so every piece before the farthest offset ever reached was queued at least once |
| `Lives.DeadRotationIsFair` | src/App/Reader.cpp:109-143 | Among these runs: a file is renamed while nobody watches, another takes its name, and the program goes on after a crash with the new name |
| `Lives.Recover` | src/App/Reader.cpp:30-202 | After any such run, starting once more and reading the file to its end has queued every piece of it at least once over all lives, in a text if no line ends behind a byte 0xFF |
| `Resuming.TakenOver` | src/App/DataStore.cpp:174-199 | A file that takes over a name between a save and a restart is read from the offset of the file that had the name before: nothing of it is sent if it is not longer than that, and all its lines exactly if none begins ahead of that offset |
| `Resuming.ResumedText` | src/App/DataStore.cpp:174-199 | From an offset on all lines of a text are found exactly if none begins ahead of it |
| `Resuming.LineSkipped` | src/App/DataStore.cpp:174-199 | A file of one line that takes over the name of one of the same size: the line is never sent |
| `QueueBound.StepsBounded` | src/App/Message.cpp:41-56 | Messages waiting and messages about to be pushed are together at most the limit and the number of threads |
| `QueueBound.NeverExceeds` | src/App/Message.cpp:41-56 | In no interleaving of n threads and any poppers does the queue exceed the limit by more than n |
| `QueueBound.Reached` | src/App/Message.cpp:41-56 | Some interleaving reaches exactly that |
| `Readers.Reader.LastItem` | src/App/Reader.cpp:298-313 | The item as it was; a new one at offset 0; after a timed-out move back at offset 0, unprotected, with its stream closed and the move time of its name cleared |
| `Readers.Reader.SendPiece` | src/App/Reader.cpp:184-193 | A piece is sent and the offset moved over the bytes read for it, or neither |
| `Configs.Config.SetMoveTime` | src/App/Config.cpp:50-59 | Changes the move time of a configured path and nothing else |
| `Configs.Config.PatternPath` | src/App/Config.cpp:77-116 | The answer is the first path in the order of the table that the file belongs to, never a deleted one; a plain file is answered only by itself, and by itself unless a directory ahead of it takes it; no answer means that the file belongs to no path, or, for a file of slashes only, that a directory ended the search |
| `Configs.PatternFirst` | src/App/Config.cpp:77-116 | Every path ahead of the answer was passed by, and without an answer all were, or all ahead of one that ends the search |
| `Configs.PatternTakes` | src/App/Config.cpp:79-94 | What an answer is: not deleted, the file itself if it is plain, and part of the name if it is a recursive directory |
| `Configs.PlainFirst` | src/App/Config.cpp:84-88 | A configured file that is not deleted is answered by itself unless a directory ahead of it takes it |
| `PatternCaches.ExplodeJoin` | src/App/Config.cpp:96-105 | Taking a path apart undoes putting its parts together |
| `PatternCaches.DirectlyWithin` | src/App/Config.cpp:95-110 | A file belongs to a directory that is not recursive exactly if it lies directly in it |
| `PatternCaches.DirectlyWithinPadded` | src/App/Config.cpp:95-110 | The same for a directory that is configured with slashes before and behind it, or without |
| `PatternCaches.RecursiveExactly` | src/App/Config.cpp:90-94 | A file belongs to a recursive directory exactly if the parts of the directory occur somewhere among its own, where the last one may go on |
| `PatternCaches.BelowOccurs` | src/App/Config.cpp:90-94 | Every file below a directory belongs to it |
| `PatternCaches.OccursElsewhere` | src/App/Config.cpp:90-94 | The file /x/a/bc belongs to the recursive directory /a/b, although it does not lie below it |
| `PatternCaches.PatternMoved` | src/App/Config.cpp:50-116 | Which path a file belongs to does not depend on when a path was moved |
| `PatternCaches.Watcher.Evict` | src/App/Watcher.cpp:255-266 | Beyond 1024 entries exactly those unused for more than a second are dropped |
| `PatternCaches.Watcher.PatternPathFile` | src/App/Watcher.cpp:252-284 | The answer is that of the uncached search, also for a miss stored as the empty path: never a deleted entry, and that of the file itself if it is configured and no directory ahead takes it; the entry is marked as used now, and nothing else but stale entries leaves the cache |
| `PatternCaches.Watcher.Run` | src/App/Watcher.cpp:252-284 | Over any run of queries, evictions and moved paths the answers are those without a cache |

## Left out

- The HTTP, Memcache and head servers, metrics, logging, signals, timers, and loading of the INI and YAML files: plumbing over libraries that are not part of this model.
- Kafka delivery itself: the producer holds messages and may report any of them as failed.
- System calls (inotify, stat, rename, select): their results are parameters.
- Allocation failure, and the `RB_USE_SBRK` and `RB_CUSTOMIZE` variants of the tree.
- `rbdestroy`, `rbcloselist` and the freeing of nodes and records: memory is not reclaimed in the model; a freed node only leaves the tree's set of nodes.
- Changing a tree while a list of it is open; `RbLists` is proved for a tree that stays as it is.
- `inotifytools_set_filename_by_wd`, `inotifytools_set_filename_by_filename` and `inotifytools_replace_filename`: they change keys in place, which the tree forbids, and aidt does not call them.
- Event statistics, regular expressions, `inotifytools_snprintf` and the names of events: aidt does not use them.
- RbOps.LookupNode: asks for a non-empty tree in the four modes that take a neighbour of a missing key, because the guard of `rblookup` tests for NULL instead of the sentinel (redblack.c:280) and the code then compares an uninitialised variable.
- RbOps.Lookup: the same.
- Watches.WdDifferenceFits: descriptors are those that the kernel returns, at least -1; for smaller ones the 32-bit difference could wrap, which the unbounded numbers of the model do not show.
- WatchIndexes.Run: covers creations whose two keys are both new or belong to one record, since `create_watch` breaks the agreement of the trees otherwise, which `CreateWatch` states.
- Formats other than those with exactly one `%s` and no other directive, and a printed length beyond 32 bits.
- TextLines.ShownIsFormatted: lines that contain a zero byte are printed up to it; what then follows is in `Shown`, but the equivalence is stated for lines without zeros.
- Readers.Reader.SetFileOffset: offsets are unbounded numbers; the code adds 64-bit numbers.
- Readers.Reader.ReadLines: the queue is not popped by another thread during one call; between calls it is.
- Following.Run: follows a file while events name it truly: reading it under an old name sends without moving the offset (`OldNames.LineMisdirected`), a timed-out move starts it anew by design, and a deletion or another file moved onto its name ends it; a file that was not read yet may be renamed to a name under which the reader has no item.
- Following.ExactlyOnce: messages of lines with zeros, or of formats with text behind the directive, are as `TextLines.ShownIsFormatted` says.
- EventThreads.EventThread.Drain: one file and one event, in order to have a measure; other events only come in between.
- Lives.Live: as `Following.Run`, and over restarts the file must not take a name that a snapshot could tell of (`Resuming.TakenOver`); messages that wait in the memory of a life that crashes are in the journal but lost with it; `DataStore::saveOffsets`, which nothing calls, is not modelled.
- Resuming.ResumedText: for text; frames read from an offset within a frame are whatever the bytes there spell.
- Lives.Recover: asks for lines within the length limit, since a longer one is never passed (`EventThreads.StuckExactly`).
- Lives.LiveSave: a save is modelled when the offsets fit into 64 bits and the lengths of the names into 32.
- Snapshots.LoadOffsets: the fields that loading leaves unset have one arbitrary value for all items of a load.
- Producers.Flow.Run: the counter of a message is not conserved, since `errorCallback` leaves it unset.
- QueueBound.NeverExceeds: without `loadMessage`, which pushes without looking at the limit.
- PatternCaches.Watcher.Run: without `updateFileInfo`, after which the cache is not invalidated.
- `App::stop` saves the queue before it stops the watcher, so messages queued in between stay in memory only; no end-to-end durability over a shutdown is claimed.
- Watching directories recursively, parsing kernel events, and excluding paths: case lists over system calls.
- Readers.TimedOutIs: for times and waiting times that differ by less than 32 bits; beyond that the unsigned difference wraps as in the code.

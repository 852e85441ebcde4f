# Verified models of efs-ng

Dafny models of the hard parts of the efs-ng file system and proofs of what they promise. One module
per component; `dafny verify dfyconfig.toml` checks everything.

| files | component |
|---|---|
| `RangeTree`, `RangeLock`, `RangeLockSafety`, `RangeLockWaiting`, `LockManager` | byte-range locks with in-tree proxies |
| `AvlShape`, `AvlTree`, `AvlDestroy`, `AvlContract` | AVL tree with parent pointers, and its contract with the lock manager |
| `MpmcQueue`, `MpmcSafety`, `MpmcCalls` | bounded lock-free queue of the logger |
| `BufferCopy`, `FileStore` | vectored copy, file segments, write and read paths |
| `FileSharing`, `FileCalls` | concurrent reads and writes of one file under the range locks |
| `IndexBuilder`, `IndexSearch` | the balanced index of a segment tree, and the search in it |
| `SegmentPool` | bitmap allocator of the devdax backend |
| `Namespace` | directories, listings and link counts |
| `Basics` | what several of them share |

## How the models are built

**Range locks.** The tree is an ascending sequence of ranges. Every call of the manager runs under one
mutex, so a run is a sequence of atomic steps: ask, retry, drop. `RangeLock` gives each step as a
function on states (tree, held locks, threads inside `lock_range`, sleepers); `RangeLockSafety` proves
one invariant of all runs and draws the safety theorems from it; `RangeLockWaiting` follows a request from
the call to the grant; `LockManager` is the imperative code,
with the loops of `range_lock.cpp`, proved to compute exactly those steps. Wake-ups may be spurious: a
blocked thread may retry at any time. A descriptor is identified by its start offset and the number of
the lock call that allocated it.

**AVL tree.** Nodes are heap objects with both child pointers, parent pointer, which-child mark and
balance. A ghost shape says what the pointers represent, and a ghost context (the path to a hole) follows
every loop. `AvlContract` states the tree operations in the manager's terms (rank, neighbour, insertion and
removal in the sequence of ranges); these are the terms in which the manager's own methods are written.

**Queue.** Each access to an atomic or to a cell's data is one step of one thread; threads interleave
freely, and the weak exchange may fail for no reason. `put` and `got` record the value enqueued with, and
returned for, each ticket. `MpmcCalls` puts the steps of a thread together to whole calls: what becomes of an
argument, when a call returns false, and what a call does that nobody interferes with.

**Storage.** `File`, `BufVec`, `BigPool`, `Builder` and `Backend` are classes with the fields that the
code updates. A file finds its segments through the index that `IndexBuilder` builds and `IndexSearch`
descends. A ghost log of all writes says what a file must contain.

**Sharing.** `FileSharing` lets any number of threads read and write one file. A step is one stretch of
code under a mutex, or the copy of a single byte; the lock component is the state of `RangeLock`, moved
by its own steps. `FileCalls` says what a whole call adds to the histories, in terms of its arguments.

## Where the code falls short

- A reader that waited and retries re-enters `lock_range_reader` behind the test for an empty tree
  (`retry:`, `src/range_lock.cpp:249`); on an empty tree `find` then yields an insertion point without a
  node and `nearest` dereferences it. `RetryUndefinedIff` and `DefinedIff` give the exact condition (a
  reader retries while no lock is held), `UndefinedRetryIsReachable` a run of four steps. The safety
  theorems hold in every state before that, and in all runs that use `Retest` instead, where a reader
  goes back to the test as the writer's loop does.
- `big_pool::allocate` skips one segment too many after a used one and never hands out the last segment.
  `SearchIff` gives the exact condition of success: the place behind the last allocation, or a free run
  preceded by an even number of used segments. `ExactFitIsMissed` reaches a state in which a request
  fails although a segment is free.
- `big_pool::allocate` reserves all bytes of a request that it grants if and only if the request is for whole
  segments, and nothing at all if and only if it is for less than one (`Allocate`). `NothingReserved` is an
  instance, and in `HandedOutTwice` the last bytes of a live block are handed out again.
- `count_needed_nonleaf_nodes` and `build` agree if and only if there are at least two leaves
  (`PoolSizeIff`); the count comes to an end if and only if there is a leaf, zero being a fixed point of its
  loop (`CountStopsIff`).
- `fuse_buf_copy_pmem` leaves the destination cursor behind the last piece. `Copy` gives the exact condition
  on the two vectors as they come in: the cursor is right if and only if the source has more bytes than the
  destination, or nothing is left in its last buffer. `CursorLags` is an instance. The destination bytes are
  right in any case.
- `get_data` from behind the end of the file fails with `ENOMEM` instead of returning nothing if and only if
  it starts inside the allocated part (`GetData`), because the length wraps around; `ReadBehindEndFails` is an
  instance.
- `do_create`, `do_mkdir` and `do_rename` do not look into the other map: the listings stay exact if and only
  if nothing else has the path already (`Create`, `MkDir`, `RenameFile`). `SamePathTwice` is an instance.
- `do_rename` of a file does not ask whether the directory of the new path is there: the invariant is kept if and
  only if nothing else has that path and its directory is present (`RenameFile`). In `RenamedFileIsLost` the file
  ends up in no listing.
- `do_rename` of a file to its own path erases the entry and then uses it (`RenameFile` has no result if and only
  if the paths are equal and the file is there); `RenamedToItself` is an instance.
- `do_renamedir` moves the key only: the listings stay exact if and only if it fails, or moves an empty root
  (`RenameDir`); the invariant is kept if and only if it fails. `RenamedDirIsLost` is an instance.

## Model

| member | source | states |
|---|---|---|
| `RangeTree.CoverLoad` | src/range_lock.cpp:138-237 | adding a reader raises the reference count by exactly one on [start, end) and nowhere else, through splits, gap proxies and the tail proxy |
| `RangeTree.CoverOrdered` | src/range_lock.cpp:138-237 | the tree stays sorted and pairwise disjoint when a reader is added |
| `RangeTree.CoverEdges` | src/range_lock.cpp:105-131 | both ends of the new lock become range boundaries and no old boundary is lost |
| `RangeTree.CoverMember` | src/range_lock.cpp:75-131 | what `add_reader` leaves behind is either untouched or an unwanted proxy |
| `RangeTree.CoverKeeps` | src/range_lock.cpp:186-237 | ranges that do not overlap the new reader are not touched |
| `RangeTree.ReleaseLoad` | src/range_lock.cpp:353-389 | releasing an aligned lock lowers the count by one on its offsets only |
| `RangeTree.ReleaseOrdered` | src/range_lock.cpp:353-389 | the tree stays sorted and disjoint when proxies are released |
| `RangeTree.ReleaseMembers` | src/range_lock.cpp:368-385 | every range after a release was there before, with one reference more if it lies in the lock |
| `RangeTree.SplitLoad` | src/range_lock.cpp:105-131 | a split moves no reference |
| `RangeTree.InsertOrdered` | src/range_lock.cpp:435-436 | inserting a range that overlaps none keeps the tree sorted and disjoint |
| `RangeTree.RemoveOrdered` | src/range_lock.cpp:454 | removal keeps the order and loses exactly that range |
| `RangeLock.WriterTargetIsFullScan` | src/range_lock.cpp:410-436 | the writer's three neighbour tests succeed if and only if no range of the whole tree overlaps |
| `RangeLock.FirstBlockerIsFullScan` | src/range_lock.cpp:249-301 | the reader's scan succeeds if and only if no overlapping range is a writer or write-wanted |
| `RangeLockSafety.AttemptInv` | src/range_lock.cpp:239-445 | granting and parking keep the lock invariant |
| `RangeLockSafety.UnlockInv` | src/range_lock.cpp:314-466 | releasing any held lock keeps the lock invariant: the coverage of all other locks and all sleepers |
| `RangeLockSafety.RunInv` | src/range_lock.cpp:239-466 | the invariant holds after every run of asks, retries and unlocks |
| `RangeLockSafety.WritersExclude` | src/range_lock.h:44-59 | in every reachable state a held writer range is disjoint from every other held lock |
| `RangeLockSafety.RefsAreExact` | src/range_lock.cpp:138-237 | in every reachable state `m_refs` is the number of held locks on each offset of the range, and no range straddles an end of a held lock |
| `RangeLockSafety.SleepersAreBlocked` | src/range_lock.cpp:262-301 | no lost wake-up: whoever sleeps does so on a range in the tree, with its flag set, that overlaps the request and is covered by a lock still held |
| `RangeLockSafety.NoSleepersWithoutLocks` | src/range_lock.cpp:438-443 | nobody sleeps, and the tree is empty, when no lock is held |
| `RangeLockSafety.FreeMeansUnlocked` | src/range_lock.cpp:402-436 | the ranges of the tree and the held locks overlap the same requests |
| `RangeLockSafety.WriterGrantedIff` | src/range_lock.cpp:396-445 | in every reachable state a writer is granted its range if and only if no held lock overlaps it |
| `RangeLockSafety.ReadersAvoidWriters` | src/range_lock.cpp:239-301 | an overlapping held writer keeps a reader out |
| `RangeLockSafety.ReaderGrantedIff` | src/range_lock.cpp:239-312 | in every reachable state a reader is granted its range if and only if no held writer overlaps it and no overlapping range is wanted by a writer |
| `RangeLockSafety.WantedIsUntouched` | src/range_lock.cpp:75-131 | no barging: a lock call neither splits nor proxifies a wanted range nor gives it a reader |
| `RangeLockSafety.RemovalWakes` | src/range_lock.cpp:322-381 | when a range leaves the tree, everybody who sleeps on it is awake |
| `RangeLockSafety.RetryUndefinedIff` | src/range_lock.cpp:243-258 | a retry is undefined if and only if a reader retries while no lock is held |
| `RangeLockSafety.DefinedIff` | src/range_lock.cpp:243-258 | a whole run is defined if and only if that never happens in it |
| `RangeLockSafety.UndefinedRetryIsReachable` | src/avl.hpp:428-445 | a run that gets there |
| `RangeLockWaiting.WantedIsAwaited` | src/range_lock.cpp:262-301 | in every reachable state a range with a wanted flag is wanted by a thread that still asks, with a request of that kind, for part of it |
| `RangeLockWaiting.ReaderKeptOut` | src/range_lock.cpp:239-301 | a reader is kept out only by a held writer that overlaps it, or by a held lock that overlaps it and that a waiting writer asks for part of; otherwise it is granted |
| `RangeLockWaiting.WaiterElsewhereKeepsOut` | src/range_lock.cpp:262-269 | that waiting writer need not overlap the reader |
| `RangeLockWaiting.RequestKept` | src/range_lock.cpp:239-445 | from the call until the grant a thread asks for what it asked for at first, through all waits and retries |
| `RangeLockWaiting.GrantIsRequested` | src/range_lock.cpp:239-445 | and the lock that it gains is exactly that range and kind |
| `RangeLockWaiting.WakesExactly` | src/range_lock.cpp:322-381 | an unlock wakes exactly the sleepers of the ranges that leave the tree |
| `LockManager.CoveredIsTiled` | src/range_lock.cpp:356-389 | proxies that cover every offset of a lock, cut at its end, tile it |
| `LockManager.ProxiesTile` | src/range_lock.cpp:340-389 | whatever was split in between, a replaced reader's proxies begin at its start and form a contiguous run of exactly its length |
| `LockManager.TileStep` | src/range_lock.cpp:356-389 | one round of the walk: the asserts hold and the wrapped length is zero only at the end of the lock |
| `LockManager.Manager.TreeAdd` | src/avl.hpp:184-195 | `add` inserts the range at its rank; its place lies between all smaller and all larger starts |
| `LockManager.Manager.TreeInsertHere` | src/avl.hpp:739-761 | `insert_here` puts the range behind a given one, which is where `add` would have put it |
| `LockManager.Manager.RangeNewProxy` | src/range_lock.cpp:55-65 | the tree becomes `Insert` of the new proxy, which is the place where the loop stands |
| `LockManager.Manager.RangeProxify` | src/range_lock.cpp:75-101 | an original is removed and a proxy of the same range added, which puts it in the same place; its asserts hold |
| `LockManager.Manager.RangeSplit` | src/range_lock.cpp:105-131 | front and rear, in this order, replace the range and both carry its references |
| `LockManager.Manager.CoverForward` | src/range_lock.cpp:186-237 | the loop of `add_reader` covers the rest of the lock |
| `LockManager.Manager.AddReader` | src/range_lock.cpp:138-237 | the tree becomes `Cover` of the old one, or the original is inserted if nothing overlaps |
| `LockManager.Manager.ScanForWriters` | src/range_lock.cpp:249-301 | the search stops at the first blocking range of the whole tree |
| `LockManager.Manager.LockRangeReader` | src/range_lock.cpp:239-312 | one pass computes the reader's step |
| `LockManager.Manager.LockRangeWriter` | src/range_lock.cpp:396-445 | one pass computes the writer's step |
| `LockManager.Manager.ReleaseProxies` | src/range_lock.cpp:340-389 | the walk with its wrapped `size_t` length ends, decrements exactly the proxies of the lock and drops those without references |
| `LockManager.Manager.UnlockProxies` | src/range_lock.cpp:340-394 | the release of a proxied reader computes the release step |
| `LockManager.Manager.UnlockRange` | src/range_lock.cpp:584-601 | unlocking computes the release step for both kinds of locks |
| `AvlShape.RotateAvl` | src/avl.hpp:633-730 | a rotation restores balance; the subtree gets lower unless the high child was even |
| `AvlShape.RotateInOrder` | src/avl.hpp:633-730 | a rotation keeps the order of the nodes |
| `AvlShape.ExtremeIsEnd` | src/avl.hpp:479-484 | the end of a descent is the end of the subtree's order |
| `AvlShape.OutwardIsNeighbour` | src/avl.hpp:485-499 | climbing while coming from one side finds the neighbour of the whole subtree |
| `AvlShape.SizeBound` | src/avl.hpp:538-564 | a tree of height h has at least Fib(h + 2) - 1 nodes |
| `AvlTree.InsertStep` | src/avl.hpp:598-627 | one round of retracing after insertion; the rotation gives the subtree the height that it had before |
| `AvlTree.RemoveStep` | src/avl.hpp:330-361 | one round of retracing after removal: where it may stop and where the subtree became lower |
| `AvlTree.RemoveRotate` | src/avl.hpp:350-360 | the rotation in that round is possible, restores balance, and its result says whether to go on |
| `AvlTree.SwapSank` | src/avl.hpp:230-290 | swapping with the neighbour changes neither balance nor, once the placeholder is gone, the order of the others |
| `AvlTree.TallerSideSpares` | src/avl.hpp:226-236 | a neighbour taken from the taller side spares the node a rotation |
| `AvlTree.Tree.TallerSide` | src/avl.hpp:233-236 | the neighbour is taken from the taller side, from the left one if they are even |
| `AvlTree.Tree.Rotation` | src/avl.hpp:633-730 | the pointer updates make the rotated shape, parent and which-child links included; true if and only if the new top is even |
| `AvlTree.Tree.FindNode` | src/avl.hpp:538-564 | the node with the key, or the place between all smaller and all larger keys, in at most logarithmically many steps |
| `AvlTree.Tree.RetraceInsert` | src/avl.hpp:593-631 | balance and links are restored with at most one rotation |
| `AvlTree.Tree.InsertAt` | src/avl.hpp:570-631 | the order gains exactly the new node at its sorted place; at most one rotation, a logarithmic climb |
| `AvlTree.Tree.Add` | src/avl.hpp:184-195 | from the key alone: the order gains the new node at its sorted place, with at most one rotation and a logarithmic climb |
| `AvlTree.Tree.InsertHere` | src/avl.hpp:739-761 | the new node comes right before or right after the given one, with the same bounds |
| `AvlTree.Tree.Walk` | src/avl.hpp:467-505 | down and back, or up: the neighbour |
| `AvlTree.Tree.Nearest` | src/avl.hpp:428-445 | the last node before, or the first behind, an insertion point of a non-empty tree; null for the null point |
| `AvlTree.Tree.Step` | src/avl.hpp:449-463 | `next` and `prev` are the in-order neighbours, null at the ends |
| `AvlTree.Tree.RetraceRemove` | src/avl.hpp:328-363 | balance and links are restored on the way up |
| `AvlTree.Tree.MoveUp` | src/avl.hpp:251-276 | the neighbour gets the links of the node to be removed, also when it is its child, and those around it follow |
| `AvlTree.Tree.MoveDown` | src/avl.hpp:278-289 | the placeholder is linked in where the neighbour stood |
| `AvlTree.Tree.SwapWithNeighbour` | src/avl.hpp:230-290 | the neighbour stands in the removed node's place and the placeholder in the neighbour's, with all links right |
| `AvlTree.Tree.RemoveNode` | src/avl.hpp:212-363 | order, links and balances are kept, exactly the removed node is gone, and the climb is logarithmic |
| `AvlDestroy.PostOrderCounts` | src/avl.hpp:763-849 | the order of destruction has every node exactly once |
| `AvlDestroy.ChildrenFirst` | src/avl.hpp:763-849 | everything below a node is handed out before it |
| `AvlDestroy.CheckRightSide` | src/avl.hpp:821-832 | the balance asserts hold and the node returned is a leaf |
| `AvlDestroy.DestroyFirst` | src/avl.hpp:769-784 | the first call returns the first node of the post-order |
| `AvlDestroy.DestroyNext` | src/avl.hpp:786-849 | each later call returns the next node, with its count asserts, and in the end leaves the tree empty |
| `AvlDestroy.Destroy` | src/avl.hpp:168-176 | every node is handed out exactly once and the tree is empty |
| `AvlContract.Find` | src/avl.hpp:515-525 | a node is found if and only if a range starts at the offset: the one at its rank |
| `AvlContract.Around` | src/avl.hpp:428-445 | `nearest` gives the ranges before and behind the rank of an offset, and null if a range starts there |
| `AvlContract.AddRange` | src/avl.hpp:184-195 | `add` is insertion into the sequence of ranges |
| `AvlContract.InsertRangeAt` | src/avl.hpp:570-631 | `insert_at` at the point given by `find` is insertion into the sequence of ranges |
| `AvlContract.InsertBehind` | src/avl.hpp:739-761 | `insert_here` behind a range is that insertion, when the new start lies before the next range |
| `AvlContract.NextRange` | src/avl.hpp:449-454 | `next` is the next range of the sequence |
| `AvlContract.RemoveRange` | src/avl.hpp:212-363 | `remove_node` is removal from the sequence of ranges |
| `MpmcSafety.StepInv` | src/spdlog/details/mpmc_bounded_q.h:83-134 | every step of every thread keeps the queue invariant |
| `MpmcSafety.RunInv` | src/spdlog/details/mpmc_bounded_q.h:62-134 | the invariant holds after every interleaving, from the constructor on |
| `MpmcSafety.OwnersAreApart` | src/spdlog/details/mpmc_bounded_q.h:83-134 | at most N tickets are outstanding and no two threads own the same cell |
| `MpmcSafety.DeliveredOnce` | src/spdlog/details/mpmc_bounded_q.h:111-134 | the value returned for ticket p is the one enqueued with p, and it is returned once |
| `MpmcSafety.HistoryGrows` | src/spdlog/details/mpmc_bounded_q.h:83-134 | tickets keep their values, positions never fall, returned values stay |
| `MpmcSafety.CallsKeepOrder` | src/spdlog/details/mpmc_bounded_q.h:83-134 | real-time order: a call that has its ticket before another call of its kind begins has the smaller one |
| `MpmcSafety.TicketsRise` | src/spdlog/details/mpmc_bounded_q.h:86-130 | whoever has no ticket yet gets one that is not handed out yet |
| `MpmcSafety.QuiescentQueue` | src/spdlog/details/mpmc_bounded_q.h:83-134 | conservation: when no call is in progress every enqueued value has been returned or is in its cell, in ticket order |
| `MpmcCalls.ArgumentIsPut` | src/spdlog/details/mpmc_bounded_q.h:83-109 | the value put in with the ticket of a call of `enqueue` is the argument of that call |
| `MpmcCalls.ArgumentIsDelivered` | src/spdlog/details/mpmc_bounded_q.h:83-134 | what is returned for that ticket, whenever and to whom, is the argument of that call |
| `MpmcCalls.EnqueueFailsIffFull` | src/spdlog/details/mpmc_bounded_q.h:86-105 | `enqueue` returns false if and only if, when the sequence was read, the position was current, N tickets were claimed and the oldest had not been returned |
| `MpmcCalls.DequeueFailsIffEmpty` | src/spdlog/details/mpmc_bounded_q.h:114-130 | `dequeue` returns false if and only if, when the sequence was read, the position was current and the head ticket was unclaimed or still being written |
| `MpmcCalls.EnqueueWorks` | src/spdlog/details/mpmc_bounded_q.h:83-109 | until it returns, a call of `enqueue` works for its argument |
| `MpmcCalls.DequeueWorks` | src/spdlog/details/mpmc_bounded_q.h:111-134 | until it returns, a call of `dequeue` is one |
| `MpmcCalls.SoloEnqueue` | src/spdlog/details/mpmc_bounded_q.h:83-109 | from every reachable state a thread that runs alone enqueues its value with the next ticket, publishes it and returns, or returns with no change exactly when the queue is full |
| `MpmcCalls.SoloDequeue` | src/spdlog/details/mpmc_bounded_q.h:111-134 | likewise it returns the value of the head ticket and frees its cell, or returns with no change exactly when there is none |
| `MpmcCalls.NewQueue` | src/spdlog/details/mpmc_bounded_q.h:62-75 | a new queue is empty, and gives back what is put in |
| `SegmentPool.SearchSound` | src/backends/nvram-devdax/segment.cpp:97-133 | what the search finds is free and in bounds |
| `SegmentPool.SearchIff` | src/backends/nvram-devdax/segment.cpp:97-133 | the exact condition under which the scan that moves its own index finds room |
| `SegmentPool.SearchFirst` | src/backends/nvram-devdax/segment.cpp:97-133 | the place found is the one behind the last allocation if that is free, and else the first that the scan can land on |
| `SegmentPool.ExactFitIsMissed` | src/backends/nvram-devdax/segment.cpp:116-132 | a reachable state with a free segment in which a request for one fails |
| `SegmentPool.MarkRoundTrip` | src/backends/nvram-devdax/segment.cpp:136-156 | allocate, then deallocate: the bitmap is as before |
| `SegmentPool.RunTracks` | src/backends/nvram-devdax/segment.cpp:93-156 | after every run live blocks are in bounds and disjoint and the bitmap is exactly their union |
| `SegmentPool.BigPool.ScanForward` | src/backends/nvram-devdax/segment.cpp:113-133 | the nested loops end and compute the scan |
| `SegmentPool.BigPool.Allocate` | src/backends/nvram-devdax/segment.cpp:93-149 | for any size: the address of a run that was free and is marked now, or no change at all; one step of the runs above; exactly when all requested bytes are reserved |
| `SegmentPool.NothingReserved` | src/backends/nvram-devdax/segment.cpp:97-141 | a request for one byte that gets an address and reserves nothing |
| `SegmentPool.ReservedIff` | src/backends/nvram-devdax/segment.cpp:97-141 | all bytes of a request are reserved if and only if it is for whole segments |
| `SegmentPool.HandedOutTwice` | src/backends/nvram-devdax/segment.cpp:93-149 | two and a half segments are requested, two reserved, and the third handed out to a later request |
| `SegmentPool.BigPool.Deallocate` | src/backends/nvram-devdax/segment.cpp:151-156 | exactly the bits of the block are reset; none for an address with nothing reserved |
| `BufferCopy.BufVec.Advance` | src/backends/nvram-nvml/fuse_buf_copy_pmem.cpp:286-308 | the flat position moves by the length; false once the buffers are used up |
| `BufferCopy.CopyOne` | src/backends/nvram-nvml/fuse_buf_copy_pmem.cpp:256-274 | a copy between two buffers is a copy between the flat byte strings |
| `BufferCopy.CopyPiece` | src/backends/nvram-nvml/fuse_buf_copy_pmem.cpp:319-346 | one round copies the next piece and makes progress, zero-length buffers included |
| `BufferCopy.SpliceAt` | src/backends/nvram-nvml/fuse_buf_copy_pmem.cpp:264-272 | the written bytes are those of the source, and all others stay |
| `BufferCopy.Copy` | src/backends/nvram-nvml/fuse_buf_copy_pmem.cpp:310-350 | the copy ends, moves min(source, destination) bytes, and changes exactly those destination bytes to the source's, in order; exactly when the destination cursor keeps up |
| `BufferCopy.CopyVectors` | src/backends/nvram-nvml/fuse_buf_copy_pmem.cpp:310-316 | a vector copied to itself is left alone and its size returned |
| `BufferCopy.BufSize` | src/backends/nvram-nvml/fuse_buf_copy_pmem.cpp:52-65 | the number of bytes whenever a `size_t` can hold it, with the largest size and the wrap-around as they are |
| `BufferCopy.CursorLags` | src/backends/nvram-nvml/fuse_buf_copy_pmem.cpp:341-343 | a copy of one byte after which the destination cursor has not moved |
| `FileStore.XAlignProps` | src/efs-common.h:77-83 | the next block boundary strictly after an offset |
| `FileStore.RegionBytes` | src/backends/nvram-nvml/file.cpp:428-432 | a region points at the bytes of the file that it stands for |
| `FileStore.SegmentSplice` | src/backends/nvram-nvml/file.cpp:640-661 | a write into a segment is a write into the file at the segment's offset |
| `FileStore.RemembersWrite` | src/backends/nvram-nvml/file.cpp:616-675 | a write puts its bytes in place and leaves all others as last written |
| `FileStore.LeafIsSegment` | src/backends/nvram-nvml/file.cpp:255-267 | the leaf that the index finds for an offset is the segment holding it, or the end of the file |
| `FileStore.File.SearchTree` | src/backends/nvram-nvml/file.cpp:367-383 | an offset is found if and only if it is allocated, in the segment that holds it |
| `FileStore.File.Lookup` | src/backends/nvram-nvml/file.cpp:359-442 | the regions are non-empty and make up exactly the requested range, in order; what comes out when the range ends before it starts |
| `FileStore.File.AppendSegments` | src/backends/nvram-nvml/file.cpp:255-267 | the segments tile one segment more and the index is built over all of them |
| `FileStore.File.FetchStorage` | src/backends/nvram-nvml/file.cpp:285-333 | the same for a dense write, after at most one new segment of the doubled, capped size; segments tile the file, and its end is a multiple of that size |
| `FileStore.File.UpdateSize` | src/backends/nvram-nvml/file.cpp:192-204 | the size only grows and stays within the allocated part |
| `FileStore.File.WriteRegion` | src/backends/nvram-nvml/file.cpp:640-661 | one region receives the next source bytes |
| `FileStore.File.WriteRegions` | src/backends/nvram-nvml/file.cpp:637-661 | the regions together receive the source, in order |
| `FileStore.File.PutData` | src/backends/nvram-nvml/file.cpp:616-675 | the bytes are stored at the offset, all others stay, the size is the larger of both, every earlier write is remembered |
| `FileStore.File.GetData` | src/backends/nvram-nvml/file.cpp:454-558 | the bytes up to the end of the file; each byte ever written reads as last written; exactly when it fails instead |
| `FileStore.ReadBehindEndFails` | src/backends/nvram-nvml/file.cpp:345-366 | a read behind the end that fails |
| `FileSharing.Apart` | src/backends/nvram-nvml/file.cpp:635-672 | two threads past `lock_range`, one of them writing, work on different offsets |
| `FileSharing.StepInv` | src/backends/nvram-nvml/file.cpp:454-678 | every step of every reader and writer keeps the sharing invariant |
| `FileSharing.RunInv` | src/backends/nvram-nvml/file.cpp:454-678 | the invariant holds after every interleaving |
| `FileSharing.ReadsAreSerial` | src/backends/nvram-nvml/file.cpp:486-557 | after every interleaving each finished read has returned its part of the file that a prefix of the one order of writes leaves: as many bytes as that file has in the range, and every written byte, untorn |
| `FileSharing.ReadsSeeFinishedWrites` | src/backends/nvram-nvml/file.cpp:486-493 | real-time order: that prefix has all writes that were made when the reading thread was still idle |
| `FileSharing.HistoryGrows` | src/backends/nvram-nvml/file.cpp:663-675 | along every run writes keep their places in the order, and reads what they returned |
| `FileSharing.FinishedWritesAreLogged` | src/backends/nvram-nvml/file.cpp:669-672 | a write is in the order before it unlocks its range |
| `FileSharing.QuietFileIsSerial` | src/backends/nvram-nvml/file.cpp:616-675 | when no writer is at work the file, with its size, is what the writes make of it one after the other |
| `FileSharing.SleepersWaitForTheBusy` | src/backends/nvram-nvml/file.cpp:635-672 | no deadlock: who sleeps on a range waits for a thread that can go on |
| `FileCalls.StoreMakesOneWrite` | src/backends/nvram-nvml/file.cpp:564-678 | when `put_data` has returned, the history has gained exactly one write of the thread: its data at its offset, with its end |
| `FileCalls.LoadMakesOneRead` | src/backends/nvram-nvml/file.cpp:454-558 | when `get_data` has returned, there is exactly one more read of the thread, of exactly its range |
| `FileCalls.StoreWorks` | src/backends/nvram-nvml/file.cpp:616-675 | until it returns, a call of `put_data` works with its arguments |
| `FileCalls.LoadWorks` | src/backends/nvram-nvml/file.cpp:485-557 | until it returns, a call of `get_data` works with its arguments |
| `FileCalls.RoundTrip` | src/backends/nvram-nvml/file.cpp:454-678 | one byte is written and read back |
| `IndexBuilder.CountNeeded` | src/mdds/node.hpp:406-423 | the loop counts the inner nodes above the leaves |
| `IndexBuilder.CountStopsIff` | src/mdds/node.hpp:406-423 | the loop ends if and only if there is at least one leaf |
| `IndexBuilder.PoolSizeIff` | src/mdds/node.hpp:274-356 | `build` takes exactly that many nodes if and only if there are at least two leaves |
| `IndexBuilder.Builder.MakeParent` | src/mdds/node.hpp:301-317 | the next pool node becomes the parent and gets the children's interval |
| `IndexBuilder.Builder.BuildLeaves` | src/mdds/node.hpp:280-294 | the first level pairs the leaves in order and its intervals lie end to end from first to last key |
| `IndexBuilder.Builder.PairLevel` | src/mdds/node.hpp:329-352 | each further level pairs the level below, with intervals end to end |
| `IndexBuilder.Builder.BuildNonLeaf` | src/mdds/node.hpp:319-356 | the levels up to one root that spans first to last key, taking exactly the counted nodes |
| `IndexBuilder.Builder.Build` | src/mdds/node.hpp:274-297 | the pool never runs out, all levels are linked and contiguous, the root spans all keys; nothing for no leaves |
| `IndexBuilder.BuildTree` | src/mdds/flat_segment_tree_def.inl:660-677 | the counted pool is used up exactly, and every node of the index has the leaves and the interval of its subtree |
| `IndexBuilder.LevelsLog` | src/mdds/node.hpp:319-356 | the number of levels is the logarithm of the number of leaves, rounded up |
| `IndexSearch.Descend` | src/mdds/flat_segment_tree_def.inl:581-618 | above the last layer exactly one child is the right one, and it is there |
| `IndexSearch.LastLayer` | src/mdds/flat_segment_tree_def.inl:620-640 | a node without right child is never reached, so the assert holds, and the leaf found has a next one |
| `IndexSearch.SearchTree` | src/mdds/flat_segment_tree_def.inl:561-658 | the leaf at or before the key that is followed by one beyond it, one step per level; nothing if and only if the key is out of bounds or there is no index |
| `Namespace.PartsInjective` | src/backends/nvram-nvml/nvram-nvml.cpp:330-339 | directory and name determine the path |
| `Namespace.AddTwice` | src/backends/nvram-nvml/dir.cpp:81-87 | adding a listed name breaks the link count |
| `Namespace.CanonParts` | src/backends/nvram-nvml/nvram-nvml.cpp:330-339 | a path without a slash is listed in the root under its own name |
| `Namespace.FileAdded` | src/backends/nvram-nvml/nvram-nvml.cpp:309-357 | with a new file the listings stay exact if and only if nothing has its path |
| `Namespace.FileRemoved` | src/backends/nvram-nvml/nvram-nvml.cpp:361-386 | without a file all listings and link counts stay exact |
| `Namespace.DirAdded` | src/backends/nvram-nvml/nvram-nvml.cpp:502-542 | with a new directory the listings stay exact if and only if no file has its path |
| `Namespace.DirRemoved` | src/backends/nvram-nvml/nvram-nvml.cpp:545-580 | without an empty directory all listings stay exact and nothing is orphaned |
| `Namespace.DirMoved` | src/backends/nvram-nvml/nvram-nvml.cpp:387-412 | a moved directory key breaks the listings unless it is that of an empty root; it always breaks the invariant |
| `Namespace.Backend.Create` | src/backends/nvram-nvml/nvram-nvml.cpp:309-357 | result code, new file, and exactly when the invariant is kept |
| `Namespace.Backend.Unlink` | src/backends/nvram-nvml/nvram-nvml.cpp:361-386 | the file is gone and delisted, or `ENOENT` and no change |
| `Namespace.Backend.MkDir` | src/backends/nvram-nvml/nvram-nvml.cpp:502-542 | a new empty directory listed by its parent, and exactly when the invariant is kept |
| `Namespace.Backend.RmDir` | src/backends/nvram-nvml/nvram-nvml.cpp:545-580 | it succeeds if and only if the directory is there and nothing lies in it; the invariant is kept |
| `Namespace.Backend.RenameDir` | src/backends/nvram-nvml/nvram-nvml.cpp:387-412 | result code and moved key; the listings stay exact if and only if it fails, or moves an empty root |
| `Namespace.Backend.RenameFile` | src/backends/nvram-nvml/nvram-nvml.cpp:436-499 | the file moves, replacing a file at the target; exactly when the invariant is kept, and when there is no result |
| `Namespace.Backend.Rename` | src/backends/nvram-nvml/nvram-nvml.cpp:415-499 | over the paths as they come: a directory at the old path moves to the new one, otherwise the file; what becomes of the invariant, and when there is no result |
| `Namespace.SamePathTwice` | src/backends/nvram-nvml/nvram-nvml.cpp:309-357 | a directory and a file of one path: the root counts three links and lists one name |
| `Namespace.RenamedDirIsLost` | src/backends/nvram-nvml/nvram-nvml.cpp:387-434 | a renamed directory that is listed under its old name |
| `Namespace.RenamedFileIsLost` | src/backends/nvram-nvml/nvram-nvml.cpp:479-496 | a file renamed into a missing directory |
| `Namespace.RenamedToItself` | src/backends/nvram-nvml/nvram-nvml.cpp:442-464 | a file renamed to its own path |

## Left out

- Memory management: deletion of descriptors and handles, the lifetime of condition variables, `offsetof` arithmetic, the tree's deleter.
- Lock requests with `start >= end`: `add_reader` and `insert_at` rely on non-empty ranges.
- AvlTree.Tree.Nearest: the point that `find` gives in an empty tree, whose null node the function dereferences.
- MpmcQueue: sequential consistency and unbounded counters instead of weak memory orders and wrap-around; `pos & buffer_mask_` is a remainder, for any N of two or more; `approx_size` is not modelled.
- BufferCopy.Copy: memory buffers only (no file descriptors), no overlapping memory.
- FileStore.File.Lookup: no gap segments and no allocation on demand; the two alignments of that branch keep no invariant.
- FileStore.File.FetchStorage: dense writes only (`offset <= m_alloc_offset`), no gap segment; offsets within `off_t`; `align` is a remainder, the same for powers of two.
- FileStore.File.PutData: dense writes only; one call at a time (`FileSharing` has the interleavings).
- FileStore.File.GetData: memory runs out only for lengths that no memory has.
- FileSharing.Step: dense writes only, and `truncate` is not among the operations.
- SegmentPool.BigPool.Allocate: segment counts are not truncated to `unsigned int`.
- SegmentPool.BigPool.Deallocate: of an address that was handed out, and not yet returned.
- IndexBuilder.BuildTree: two leaves or more; a segment tree has them from its construction on, and for one the code's own assert fails.
- Namespace.Backend.MkDir: the parent directory is present, which the code asserts.
- Namespace.Backend.RmDir: of the root only when it is not empty; else the code's assert on the parent fails.
- Namespace.Backend.Rename: attributes and times are not modelled.
- `truncate`, preloading and unloading of files, insertion into the `flat_segment_tree` (its leaves are given).
- FUSE callbacks, pmem and mmap calls, sockets, protobuf, configuration, logging sinks, the DRAM backend, the thread pool and the request tracker.

# The nginx core, modelled in Dafny

A model of the data structures and codecs at the core of nginx 1.5.13, as bundled with this
repository, with proofs of what they promise.  `dafny verify dfyconfig.toml` checks everything.

| component | files |
|---|---|
| red-black tree with parent links and a shared sentinel | `RbShape`, `RbLinks`, `RbTree`, `KeyOrder` |
| event timers under keys that wrap around | `Words`, `Timers` |
| slab allocator | `SlabBits`, `SlabRings`, `SlabState`, `Slab`, `Arithmetic` |
| open-file cache on the same tree | `NameIndex`, `CacheState`, `FileCache` |
| shared-memory mutex | `Shmtx` |
| output chain | `ChainState`, `OutputChain` |
| radix tree | `RadixTree` |
| calendar, IPv6 text, MD5, CRC-32, DNS names, base64, percent-encoding | `Calendar`, `Inet6`, `Md5`, `Crc32`, `DnsName`, `Base64`, `Escape`, `Strings` |

Structures that the program updates in place are classes: tree nodes are heap objects with their
links, the slab pool keeps headers, bitmaps and links by page index, caches and chains keep their
fields.  What a structure means is a value (an in-order sequence, a set of live blocks, a map from
prefixes, a stream of bytes), tied to the fields by `Valid`; methods assign, and lemmas about
values carry the proofs.  The mutex is a state machine over the atomic accesses of any number of
processes, and its theorems are about every reachable state.

Inputs that come from outside are parameters: the clock, the answers of the operating system to
one call, how much the filter below consumes, what timer handlers do, whether memory is available.

Assumptions made where the program makes them:

- Timers: live deadlines and the present lie within half the range of the millisecond counter.
- Slab: pages of 4096 bytes, 64-bit words, minimum shift 3; memory with room for at least one page.
  `FreeLocked` excludes the frees that the headers cannot tell from legal ones: the page-aligned
  start of a free run and an aligned pointer into a bitmap; `AcceptedExactly` shows that these are
  taken although no block is there, and that no other pointer into a page is taken wrongly.  It
  also excludes pointers into the last, incomplete page, which has no header.  `slots[].prev` and
  `free.prev` are never read and are left open.
- Open-file cache: `max >= 1`, a clock that does not go back, fewer than 2^24 users of an entry and
  2^32 uses.  When an entry that holds a descriptor is looked at again, the answers are plausible:
  an inode number seen by stat() for a file held open is not a directory's, and does not come back
  between stat() and open().  `RecheckExact` shows that this is just what the cache needs.
- Mutex: sequential consistency, distinct non-zero pids, `sem_post` succeeds, and processes die
  only while idle, asleep or holding the mutex; `CrashInWakeupLosesIt` shows why.
- Output chain: buffers of callers do not carry the context's own tag.

Where code and comments differ, the model follows the code: the table for REFRESH is described as
escaping the percent sign but does not, so strings with a percent sign do not come back; the resolver accepts
labels of up to 255 bytes, of which those over 63 read as compression pointers.

## Model

| member | source | states |
|---|---|---|
| `RbTree.RbTree.Insert` | nginx-1.5.13/src/core/ngx_rbtree.c:24-94 | the tree stays red-black with consistent links, the in-order sequence gains the node at one position and keeps the rest; if the node, going before one element, goes before all later ones, it lands behind every node it does not precede (that this holds is proved for each of the three orders: `KeyOrder`, `Timers`, `InsertKeepsNames`) |
| `KeyOrder.KeyedTree.Serve` | nginx-1.5.13/src/core/ngx_rbtree.c:97-119 | over every run of inserts and deletes under the plain key order, keys never decrease along the in-order sequence and nodes with equal keys stand in the order of their insertion |
| `KeyOrder.KeyedTree.Insert` | nginx-1.5.13/src/core/ngx_rbtree.c:97-119 | the node, entered behind all nodes with its key or a smaller one, keeps the sequence sorted by key and time of insertion |
| `KeyOrder.KeyedTree.Delete` | nginx-1.5.13/src/core/ngx_rbtree.c:157-322 | a delete keeps that order |
| `KeyOrder.SortedIsMonotone` | nginx-1.5.13/src/core/ngx_rbtree.c:97-119 | in a sequence with keys that do not decrease, what goes before one node goes before all later ones |
| `KeyOrder.InsertStable` | nginx-1.5.13/src/core/ngx_rbtree.c:97-119 | the newest node in its place keeps the order by key and time of insertion |
| `RbTree.RbTree.Delete` | nginx-1.5.13/src/core/ngx_rbtree.c:157-322 | from any valid tree, a valid tree whose in-order sequence is the old one without exactly this node; the fix-up loop terminates |
| `RbTree.RbTree.InsertFixup` | nginx-1.5.13/src/core/ngx_rbtree.c:49-93 | starting from one red node that may have a red parent, the loop ends in a red-black tree with the same in-order sequence |
| `RbTree.RbTree.InsertRound` | nginx-1.5.13/src/core/ngx_rbtree.c:49-91 | one round keeps the one-violation invariant and either ends it or moves it nearer to the root |
| `RbTree.RbTree.DeleteFixup` | nginx-1.5.13/src/core/ngx_rbtree.c:259-321 | starting from one subtree that lacks a black node, the loop ends in a red-black tree with the same in-order sequence |
| `RbTree.RbTree.DeleteRound` | nginx-1.5.13/src/core/ngx_rbtree.c:259-319 | one round repays the missing black node or reduces the measure that bounds the loop, in all four sibling cases on both sides |
| `RbTree.RbTree.LeftRotate` | nginx-1.5.13/src/core/ngx_rbtree.c:325-352 | the links of a rotation to the left, with the shape they leave |
| `RbTree.RbTree.RightRotate` | nginx-1.5.13/src/core/ngx_rbtree.c:355-382 | the mirror image |
| `RbTree.RbTree.Descend` | nginx-1.5.13/src/core/ngx_rbtree.c:97-119 | the empty place under which the node is linked, with all nodes before it in order not after the node and all later ones after it |
| `RbTree.RbTree.Min` | nginx-1.5.13/src/core/ngx_rbtree.h:73-81 | the leftmost node of a subtree |
| `RbTree.RbTree.Relocate` | nginx-1.5.13/src/core/ngx_rbtree.c:202-244 | the successor leaves its place and takes over links and colour of the deleted node, also when it was its child |
| `RbTree.RbTree.ReplaceRoot` | nginx-1.5.13/src/core/ngx_rbtree.c:187-198 | the only child becomes the black root; the parent link of the root is not constrained |
| `RbTree.RbTree.Lookup` | nginx-1.5.13/src/core/ngx_open_file_cache.c:1186-1223 | on a tree ordered by hash and name, an entry is found if and only if it is there |
| `RbShape.HeightBound` | nginx-1.5.13/src/core/ngx_rbtree.c:157-322 | a red-black tree of n nodes has height at most 2*log2(n + 1) |
| `RbShape.RecoloredRises` | nginx-1.5.13/src/core/ngx_rbtree.c:54-58 | recolouring parent, uncle and grandparent keeps black heights and moves the possible red pair up |
| `RbShape.OuterSettles` | nginx-1.5.13/src/core/ngx_rbtree.c:66-68 | recolouring and one rotation of an outer grandchild end the violation |
| `RbShape.InnerBecomesOuter` | nginx-1.5.13/src/core/ngx_rbtree.c:61-64 | one rotation turns an inner grandchild into an outer one |
| `RbShape.RedSiblingStep` | nginx-1.5.13/src/core/ngx_rbtree.c:264-269 | a red sibling is rotated away, leaving a black sibling and the same debt |
| `RbShape.LoweredStep` | nginx-1.5.13/src/core/ngx_rbtree.c:271-273 | with two black nephews the sibling turns red and the debt moves to the parent |
| `RbShape.FarRedStep` | nginx-1.5.13/src/core/ngx_rbtree.c:276-281 | a near red nephew is rotated to the far side |
| `RbShape.RepaidRedBlack` | nginx-1.5.13/src/core/ngx_rbtree.c:283-287 | the last rotation repays the debt: the tree is red-black |
| `RbLinks.InsertKeepsNames` | nginx-1.5.13/src/core/ngx_open_file_cache.c:1145-1183 | inserting an entry that is not there keeps the sequence strictly increasing by hash and name |
| `Timers.Timers.AddTimer` | nginx-1.5.13/src/event/ngx_event_timer.h:58-99 | the stored deadline is within 300 ms of this request however many lazy updates came before; it is either kept, with the queue unchanged, or exact, with the event entered behind all timers due at that time or earlier |
| `Timers.Timers.DelTimer` | nginx-1.5.13/src/event/ngx_event_timer.h:35-55 | exactly this timer leaves the queue |
| `Timers.Timers.FindTimer` | nginx-1.5.13/src/event/ngx_event_timer.c:51-73 | max(0, earliest deadline - now) in true time, or infinite for no timers, although keys wrap around |
| `Timers.Timers.Expire` | nginx-1.5.13/src/event/ngx_event_timer.c:76-158 | ends with no timer due, for handlers that together do any finite number of things to timers; every event fired was stored for a time not after now; without handlers the fired events are the due prefix of the queue in order |
| `Timers.Timers.Serve` | nginx-1.5.13/src/event/ngx_event_timer.c:76-158 | over every sequence of clock advances, expiries with their handlers, adds and deletes, each stored deadline is within 300 ms of the latest request for its event |
| `Timers.Timers.Due` | nginx-1.5.13/src/event/ngx_event_timer.c:88-110 | the first timer exactly when it is due |
| `Timers.TimerComparison` | nginx-1.5.13/src/core/ngx_rbtree.c:122-154 | with live deadlines less than half the range apart, comparing wrapped keys as signed differences is comparing true times |
| `Timers.BelongsByTime` | nginx-1.5.13/src/core/ngx_rbtree.c:122-154 | the place found by wrapped comparison is behind all timers due then or earlier, and the queue stays ordered by true time |
| `Words.SignedDifference` | nginx-1.5.13/src/event/ngx_event_timer.h:74-76 | the signed reading of a difference of words is the true difference if that is small |
| `SlabPool.Pool.AllocLocked` | nginx-1.5.13/src/core/ngx_slab.c:153-396 | exactly one live block is added, at least as large as asked for and of the smallest fitting chunk or whole number of pages; it fails exactly when no such chunk and no long enough free run exists, and then changes nothing |
| `SlabPool.Pool.FreeLocked` | nginx-1.5.13/src/core/ngx_slab.c:410-616 | for pointers that the headers can tell apart: succeeds exactly on the start of a live block and removes just that block, and every other pointer is refused without effect |
| `SlabPool.AcceptedExactly` | nginx-1.5.13/src/core/ngx_slab.c:420-588 | the tests accept exactly the live blocks and the pointers excluded from `FreeLocked`, none of which is live: for pointers into pages, those are all the frees that go wrong unnoticed |
| `SlabPool.Pool.Serve` | nginx-1.5.13/src/core/ngx_slab.c:153-616 | over every sequence of allocations and frees, the blocks a client holds are exactly the live ones, pairwise disjoint, inside the pool, aligned and large enough, and free and busy pages sum to the pool |
| `SlabPool.Pool.constructor` | nginx-1.5.13/src/core/ngx_slab.c:72-135 | with room for at least one page, a valid pool whose whole pages are one free run and no block is live |
| `SlabPool.Layout` | nginx-1.5.13/src/core/ngx_slab.c:89-130 | for every piece of memory: if it reaches the page boundary behind slots and headers, every whole page behind it is used and the headers end before it; if not, the pages counted lie outside the memory |
| `SlabPool.Pool.AllocPages` | nginx-1.5.13/src/core/ngx_slab.c:619-668 | the first free run that is long enough gives its first pages and the rest takes its place on the list; it fails exactly when no free run is long enough |
| `SlabPool.Pool.FirstFit` | nginx-1.5.13/src/core/ngx_slab.c:624-628 | the first entry of the free list that is long enough, all before it being too short |
| `SlabPool.Pool.FreePages` | nginx-1.5.13/src/core/ngx_slab.c:671-695 | a run, or a page of chunks taken off its slot list, becomes a free run in front of the free list |
| `SlabPool.Pool.TakeChunk` | nginx-1.5.13/src/core/ngx_slab.c:196-326 | the first page of a slot list has a free chunk, which becomes live; a page that fills up leaves its list |
| `SlabPool.Pool.InitChunks` | nginx-1.5.13/src/core/ngx_slab.c:331-385 | a page just taken becomes a page of chunks with the reserved ones and the first one marked, and is put on its slot list |
| `SlabPool.Pool.FreeChunk` | nginx-1.5.13/src/core/ngx_slab.c:448-484 | a full page goes back on its slot list, the bit is cleared, and a page left empty becomes a free run |
| `SlabPool.Pool.FreeSmall` | nginx-1.5.13/src/core/ngx_slab.c:432-486 | frees of chunks whose bitmap is in the page, with the refusals |
| `SlabPool.Pool.FreeExact` | nginx-1.5.13/src/core/ngx_slab.c:488-522 | frees of chunks whose bitmap is the header word, with the refusals |
| `SlabPool.Pool.FreeBig` | nginx-1.5.13/src/core/ngx_slab.c:524-561 | frees of chunks whose bitmap and shift share the header word, with the refusals |
| `SlabPool.Pool.FreeRun` | nginx-1.5.13/src/core/ngx_slab.c:563-588 | frees of whole pages, with the refusals |
| `SlabPool.Pool.MarkChunk` | nginx-1.5.13/src/core/ngx_slab.c:207-323 | in each of the three encodings the lowest free chunk behind the reserved ones is marked |
| `SlabPool.Pool.SlotEmpty` | nginx-1.5.13/src/core/ngx_slab.c:193-198 | a slot list is empty exactly when every page of its chunk size is full |
| `SlabPool.Pool.OffList` | nginx-1.5.13/src/core/ngx_slab.c:448-459 | a page of chunks is on no list exactly when it is full |
| `SlabPool.Pool.HeaderMeaning` | nginx-1.5.13/src/core/ngx_slab.c:423-430 | what the type bits and the slab word say about a page |
| `SlabPool.ChunkAdds` | nginx-1.5.13/src/core/ngx_slab.c:214-218 | marking a chunk adds exactly its block |
| `SlabPool.ChunkRemoves` | nginx-1.5.13/src/core/ngx_slab.c:461-475 | clearing a chunk of a page that keeps others removes exactly its block |
| `SlabPool.LastChunkRemoves` | nginx-1.5.13/src/core/ngx_slab.c:477-484 | giving back the page of the last chunk removes exactly that block |
| `SlabState.LiveDisjoint` | nginx-1.5.13/src/core/ngx_slab.c:153-396 | distinct live blocks do not overlap |
| `SlabState.LiveInside` | nginx-1.5.13/src/core/ngx_slab.c:153-396 | live blocks lie inside the pool, aligned to their size, and behind the bitmap of their page |
| `SlabState.Conservation` | nginx-1.5.13/src/core/ngx_slab.c:619-695 | lengths of free runs and pages in use sum to the page count in every valid state |
| `SlabState.RunTakenLive` | nginx-1.5.13/src/core/ngx_slab.c:642-656 | handing out pages adds exactly one block |
| `SlabState.RunReturnedLive` | nginx-1.5.13/src/core/ngx_slab.c:671-695 | returning pages leaves all blocks outside them alone |
| `SlabBits.ChooseShift` | nginx-1.5.13/src/core/ngx_slab.c:179-188 | the shift of the smallest chunk that holds the size |
| `SlabBits.TakeSmall` | nginx-1.5.13/src/core/ngx_slab.c:207-241 | the lowest clear bit of a bitmap of several words is set; full exactly when none is left |
| `SlabBits.GiveSmall` | nginx-1.5.13/src/core/ngx_slab.c:461-479 | the bit is cleared; empty exactly when only reserved chunks are marked |
| `SlabBits.FreshBitmap` | nginx-1.5.13/src/core/ngx_slab.c:331-353 | a new bitmap marks the chunks that hold it and the first one behind them |
| `SlabBits.Sizes` | nginx-1.5.13/src/core/ngx_slab.c:331-345 | for every chunk size the reserved chunks cover the bitmap and leave room |
| `SlabRings.RingsUnlink` | nginx-1.5.13/src/core/ngx_slab.c:638-640 | unlinking a page leaves all lists well linked and the page on none |
| `SlabRings.RingsPush` | nginx-1.5.13/src/core/ngx_slab.c:688-694 | pushing an unlisted page leaves all lists well linked |
| `SlabRings.RingsReplace` | nginx-1.5.13/src/core/ngx_slab.c:628-635 | a page takes another's place in its list |
| `FileCache.Cache.Open` | nginx-1.5.13/src/core/ngx_open_file_cache.c:143-486 | a valid entry answers at once with its descriptor, its error or its directory, any other name by what the file system shows; leases already held are kept, an answer with a descriptor adds one on the entry of that name, now most recently used; all invariants hold |
| `FileCache.Cache.Cleanup` | nginx-1.5.13/src/core/ngx_open_file_cache.c:1017-1028 | exactly this lease ends and all invariants hold |
| `FileCache.Cache.Serve` | nginx-1.5.13/src/core/ngx_open_file_cache.c:143-486 | over every run of requests and cleanups with any answers of the system, a descriptor handed out is open, unclosed and the one its only owner keeps until the request's cleanup |
| `FileCache.Cache.OpenAndStat` | nginx-1.5.13/src/core/ngx_open_file_cache.c:839-945 | for every answer of the system: the fields filled in, and that a descriptor opened on the way is returned or closed |
| `FileCache.Cache.Renew` | nginx-1.5.13/src/core/ngx_open_file_cache.c:295-350 | an entry is updated, or closed and updated, or left to its users and replaced, according to what was seen |
| `FileCache.Cache.Recheck` | nginx-1.5.13/src/core/ngx_open_file_cache.c:217-350 | an entry that is not valid is checked: failures drop it, a closed file is opened again, and the answer fits what was seen |
| `FileCache.Cache.Create` | nginx-1.5.13/src/core/ngx_open_file_cache.c:360-391 | a new entry, after a forced expiry when the cache is full; without memory the new descriptor is closed |
| `FileCache.Cache.Update` | nginx-1.5.13/src/core/ngx_open_file_cache.c:397-451 | the entry takes over descriptor, error and data seen and is used once more |
| `FileCache.Cache.Fail` | nginx-1.5.13/src/core/ngx_open_file_cache.c:453-476 | the entry leaves the tree; unused it is closed and freed, used it becomes an orphan |
| `FileCache.Cache.CloseCached` | nginx-1.5.13/src/core/ngx_open_file_cache.c:1031-1074 | an entry moves to the front and is closed if rarely used and unused, an orphan is closed and freed by its last user |
| `FileCache.Cache.Expire` | nginx-1.5.13/src/core/ngx_open_file_cache.c:1094-1142 | a suffix of the queue is evicted: one entry by force if asked for, the others stale, three at most; it stops only at an entry that is not stale |
| `FileCache.Cache.CloseFile` | nginx-1.5.13/src/core/ngx_open_file_cache.c:333-338 | a descriptor is closed only while open and unleased |
| `FileCache.LeasedStaysOpen` | nginx-1.5.13/src/core/ngx_open_file_cache.c:1017-1074 | under the invariant a leased descriptor is open and has exactly one owner |
| `FileCache.BetweenOperations` | nginx-1.5.13/src/core/ngx_open_file_cache.c:200-486 | tree, queue and counter agree, errors and directories have no descriptor and no users, orphans are in use, the queue's last entry is least recently used, and each descriptor issued is owned or closed, not both |
| `FileCache.RecheckExact` | nginx-1.5.13/src/core/ngx_open_file_cache.c:217-451 | checking an entry that holds a descriptor, unless the look fails without an error to cache, leaves every descriptor issued in exactly one entry or closed, and leased ones in their entries, if and only if the answers of the system are plausible |
| `FileCache.PlausibleReport` | nginx-1.5.13/src/core/ngx_open_file_cache.c:839-945 | with plausible answers the fields filled in say what was seen |
| `FileCache.Cache.Supersede` | nginx-1.5.13/src/core/ngx_open_file_cache.c:343-391 | an entry in use that shows another file is left to its users, and a new entry takes its name and place |
| `NameIndex.Index.Find` | nginx-1.5.13/src/core/ngx_open_file_cache.c:1186-1223 | finds an entry by name if and only if there is one |
| `NameIndex.Index.UniqueNames` | nginx-1.5.13/src/core/ngx_open_file_cache.c:1145-1183 | no two entries of the tree have the same name |
| `NameIndex.Index.Add` | nginx-1.5.13/src/core/ngx_open_file_cache.c:1145-1183 | adds a name that is not there and keeps the order |
| `CacheState.CloseInv` | nginx-1.5.13/src/core/ngx_open_file_cache.c:1059-1066 | closing the descriptor of an unused entry keeps the invariant, and no lease has that descriptor |
| `CacheState.ReturnInv` | nginx-1.5.13/src/core/ngx_open_file_cache.c:1022-1022 | ending a lease keeps entry counts equal to leases |
| `Shmtx.MutualExclusion` | nginx-1.5.13/src/core/ngx_shmtx.c:62-132 | in every reachable state at most one process holds the mutex, and the lock word is its pid |
| `Shmtx.OnlyOwnerReleases` | nginx-1.5.13/src/core/ngx_shmtx.c:135-160 | the lock word leaves a holder's pid only by that holder's unlock, or by force after its death |
| `Shmtx.SleepersCovered` | nginx-1.5.13/src/core/ngx_shmtx.c:99-121 | processes committed to sleeping never outnumber wait + semaphore + posts in flight |
| `Shmtx.NoLostWakeup` | nginx-1.5.13/src/core/ngx_shmtx.c:99-195 | with the mutex free and a sleeper without a post, some process is active |
| `Shmtx.NoSleeperStranded` | nginx-1.5.13/src/core/ngx_shmtx.c:62-195 | from every reachable state with a live or replaceable owner, some schedule lets any given sleeper hold the mutex |
| `Shmtx.FairnessIsNotEnough` | nginx-1.5.13/src/core/ngx_shmtx.c:62-195 | with a semaphore, no fairness of the schedule guarantees a sleeper the mutex: a reachable state comes back after any number of rounds in which both processes take steps, the sleeper is woken and always comes too late |
| `Shmtx.CrashInWakeupLosesIt` | nginx-1.5.13/src/core/ngx_shmtx.c:163-195 | with a semaphore, a reachable state from which a holder that dies between clearing the lock word and posting strands a sleeper |
| `Shmtx.RunInv` | nginx-1.5.13/src/core/ngx_shmtx.c:62-195 | every step of every run, for any number of processes, keeps the invariant |
| `Shmtx.NextMoves` | nginx-1.5.13/src/core/ngx_shmtx.c:62-195 | how any single step may change lock word, counters and the place of one process |
| `OutputChain.Output.Call` | nginx-1.5.13/src/core/ngx_output_chain.c:41-216 | the incoming bytes follow those before them in the stream of bytes consumed, held below and waiting; when buffers are left waiting, every own buffer is below and unconsumed and no more may be made |
| `OutputChain.Output.Serve` | nginx-1.5.13/src/core/ngx_output_chain.c:41-216 | over every sequence of calls no byte is lost, repeated or reordered, and the buffers made stay within the limit |
| `OutputChain.Output.Work` | nginx-1.5.13/src/core/ngx_output_chain.c:78-215 | the main loop terminates and keeps the stream |
| `OutputChain.Output.Fill` | nginx-1.5.13/src/core/ngx_output_chain.c:90-196 | waiting buffers move to the output until none is left or no buffer to copy into can be had; something goes out only if less waits |
| `OutputChain.Output.AsIs` | nginx-1.5.13/src/core/ngx_output_chain.c:219-260 | when a buffer needs no copy, and that its bytes are untouched |
| `OutputChain.Output.GetBuf` | nginx-1.5.13/src/core/ngx_output_chain.c:382-455 | a new empty own buffer with room, which no one else has |
| `OutputChain.Output.CopyBuf` | nginx-1.5.13/src/core/ngx_output_chain.c:458-598 | a non-empty prefix of the first waiting buffer goes out in the buffer in hand |
| `OutputChain.Output.AddCopy` | nginx-1.5.13/src/core/ngx_output_chain.c:263-329 | the incoming buffers are appended to the waiting ones |
| `OutputChain.Output.UpdateChains` | nginx-1.5.13/src/core/ngx_buf.c:183-220 | consumed buffers leave the busy chain, own ones reset and freed; bytes held are unchanged and the first busy buffer has bytes left |
| `OutputChain.OnePlace` | nginx-1.5.13/src/core/ngx_output_chain.c:41-216 | each own buffer is in exactly one of hand, free, busy and output, and none that the filter holds is free |
| `ChainState.ConsumeInv` | nginx-1.5.13/src/core/ngx_buf.c:183-220 | consuming any prefix below keeps the invariant and removes just those bytes from the front of the stream |
| `ChainState.CopyInv` | nginx-1.5.13/src/core/ngx_output_chain.c:458-598 | copying moves bytes from the waiting buffer to the output without changing the stream |
| `ChainState.NoneUsedUp` | nginx-1.5.13/src/core/ngx_buf.c:199-219 | once the first busy buffer has bytes left, so has every own one |
| `RadixTree.Tree.Find` | nginx-1.5.13/src/core/ngx_radix_tree.c:236-263 | the value of the longest bound prefix of the key, or none exactly when no prefix is bound |
| `RadixTree.Tree.Insert` | nginx-1.5.13/src/core/ngx_radix_tree.c:108-170 | for all keys, masks and values: BUSY exactly when the prefix is bound; otherwise just this binding is added, or none for NGX_RADIX_NO_VALUE |
| `RadixTree.Tree.Delete` | nginx-1.5.13/src/core/ngx_radix_tree.c:173-233 | for all keys and masks: the null parent of a bare root is followed exactly for the empty prefix of a tree without other nodes; else OK exactly when the prefix is bound, just this binding is removed, and every leaf but the root still carries a value |
| `RadixTree.Tree.ParentOf` | nginx-1.5.13/src/core/ngx_radix_tree.c:206-212 | the node that the delete loop starts on has a parent exactly when it is not the root |
| `RadixTree.ContiguousLength` | nginx-1.5.13/src/core/ngx_radix_tree.c:119-132 | a contiguous mask names the prefix with as many bits as it has ones |
| `RadixTree.Tree.PruneUp` | nginx-1.5.13/src/core/ngx_radix_tree.c:206-230 | the leaf and the ancestors left without children and value leave the tree for the free list |
| `RadixTree.Tree.Alloc` | nginx-1.5.13/src/core/ngx_radix_tree.c:463-488 | a node that is in neither the tree nor the free list |
| `RadixTree.GrowLinked` | nginx-1.5.13/src/core/ngx_radix_tree.c:145-165 | a new leaf keeps the tree well linked |
| `RadixTree.PruneLinked` | nginx-1.5.13/src/core/ngx_radix_tree.c:206-217 | removing a leaf keeps the tree well linked |
| `Calendar.GmTimeIsRight` | nginx-1.5.13/src/core/ngx_times.c:282-372 | for every time, the one Gregorian date whose day count from 1970-01-01 is t / 86400, with the time of day and the day of the week |
| `Calendar.GmTimeIncreases` | nginx-1.5.13/src/core/ngx_times.c:282-372 | later times come out strictly later |
| `Calendar.YearIsRight` | nginx-1.5.13/src/core/ngx_times.c:309-327 | the year estimate is the right year or the one after it, and the correction gives the right year and the day in it |
| `Calendar.MonthIsRight` | nginx-1.5.13/src/core/ngx_times.c:336-363 | the month formula gives a legal day of the right month |
| `Calendar.CountDeterminesDate` | nginx-1.5.13/src/core/ngx_times.c:282-372 | a day count determines its date |
| `Inet6.RoundTrip` | nginx-1.5.13/src/core/ngx_inet.c:58-359 | the printed text has at most 45 characters, and parsing it succeeds and gives the address back exactly when the address does not end in 255.255.255.255 in mixed form |
| `Inet6.PrintedReads` | nginx-1.5.13/src/core/ngx_inet.c:58-359 | parsing what is printed for any choice of a zero run gives the address back, with that exception |
| `Inet6.CollidesExactly` | nginx-1.5.13/src/core/ngx_inet.c:327-334 | which addresses the exception is about, in terms of their bytes |
| `Inet6.Inet6Addr` | nginx-1.5.13/src/core/ngx_inet.c:58-171 | the parser with its in-place shift computes the meaning of the text |
| `Inet6.Ntop` | nginx-1.5.13/src/core/ngx_inet.c:285-359 | the printed form, with the longest run of at least two zero groups left out |
| `Inet6.FindRun` | nginx-1.5.13/src/core/ngx_inet.c:296-322 | a run of zero groups that no other exceeds |
| `Inet6.InetAddr` | nginx-1.5.13/src/core/ngx_inet.c:17-53 | the dotted form, with nothing for INADDR_NONE |
| `Inet6.MoveUp` | nginx-1.5.13/src/core/ngx_inet.c:153-159 | the in-place move of bytes towards the end |
| `Md5.InPieces` | nginx-1.5.13/src/core/ngx_md5.c:22-115 | for every way of cutting the data, the digest of the message padded as in RFC 1321 |
| `Md5.Context.Update` | nginx-1.5.13/src/core/ngx_md5.c:34-62 | the data so far grows by the piece, with whole blocks used up and the rest in the buffer |
| `Md5.Context.Final` | nginx-1.5.13/src/core/ngx_md5.c:65-115 | the digest of the padded data, whichever of one or two last blocks is needed |
| `Md5.Context.Body` | nginx-1.5.13/src/core/ngx_md5.c:173-287 | one or more blocks are fed in order |
| `Md5.PaddedLength` | nginx-1.5.13/src/core/ngx_md5.c:65-90 | the padded message is whole blocks |
| `Md5.BasicFunctions` | nginx-1.5.13/src/core/ngx_md5.c:126-127 | the optimised F and G are those of section 3.4 of RFC 1321 |
| `Crc32.Short` | nginx-1.5.13/src/core/ngx_crc32.h:20-35 | the nibble table computes the CRC defined bit by bit |
| `Crc32.Long` | nginx-1.5.13/src/core/ngx_crc32.h:38-50 | the byte table computes the same |
| `Crc32.Update` | nginx-1.5.13/src/core/ngx_crc32.h:57-69 | continues the division from any remainder |
| `Crc32.InPieces` | nginx-1.5.13/src/core/ngx_crc32.h:53-73 | feeding data in any pieces gives the CRC of the whole |
| `Crc32.RemainderSplit` | nginx-1.5.13/src/core/ngx_crc32.h:57-69 | feeding two pieces is feeding their concatenation |
| `Crc32.Table256Entries` | nginx-1.5.13/src/core/ngx_crc32.c:34-99 | each of the 256 entries is eight shifts of its index |
| `Crc32.Table16Entries` | nginx-1.5.13/src/core/ngx_crc32.c:26-31 | each of the 16 entries is four shifts of its index |
| `DnsName.RoundTrip` | nginx-1.5.13/src/core/ngx_resolver.c:2448-2763 | for every name: the builder takes it exactly when its labels have 1 to 255 bytes and then fills exactly its space; copying gives the name back in lower case exactly when no label has more than 63 bytes and there are at most 127 |
| `DnsName.BuildName` | nginx-1.5.13/src/core/ngx_resolver.c:2513-2544 | the backward loop writes the wire form, and declines exactly names with a label that is empty or over 255 bytes |
| `DnsName.WriteLabels` | nginx-1.5.13/src/core/ngx_resolver.c:2524-2538 | the loop from the last byte to the first turns each dot into the length of the label after it, and stops exactly at a label that is empty or too long |
| `DnsName.EmptyLabel` | nginx-1.5.13/src/core/ngx_resolver.c:2522-2544 | a name with an empty label is declined |
| `DnsName.Copy` | nginx-1.5.13/src/core/ngx_resolver.c:2671-2763 | the text of the labels, or an error, with exactly the length that the first pass allots |
| `DnsName.ExactLength` | nginx-1.5.13/src/core/ngx_resolver.c:2688-2763 | both passes agree on the length |
| `Base64.RoundTrip` | nginx-1.5.13/src/core/ngx_string.c:1122-1263 | decoding undoes encoding for every byte string in both alphabets, padded or not, and the padded length is ((n + 2) / 3) * 4 |
| `Base64.Encode` | nginx-1.5.13/src/core/ngx_string.c:1122-1163 | the loop writes the symbols of all bytes and the padding |
| `Base64.Decode` | nginx-1.5.13/src/core/ngx_string.c:1220-1263 | fails exactly on a byte outside the alphabet before the padding or a lone last symbol, else gives the bytes |
| `Base64.TextIsSound` | nginx-1.5.13/src/core/ngx_string.c:1122-1263 | symbols decode to the bytes they came from |
| `Escape.RoundTripExactly` | nginx-1.5.13/src/core/ngx_string.c:1405-1701 | for every purpose and byte string: unescaping gives the string back if and only if the purpose is not REFRESH or the string has no percent sign |
| `Escape.Decodes` | nginx-1.5.13/src/core/ngx_string.c:1574-1701 | in every mode, unescaping what was escaped by a table with the percent sign gives back the string up to the first question mark where the mode ends there, with bytes kept escaped where a redirect must, and reads exactly that far |
| `Escape.Count` | nginx-1.5.13/src/core/ngx_string.c:1540-1555 | the counting pass predicts the length: size + 2 * count |
| `Escape.EscapeUri` | nginx-1.5.13/src/core/ngx_string.c:1557-1570 | the writing pass escapes just the bytes of its table |
| `Escape.UnescapeUri` | nginx-1.5.13/src/core/ngx_string.c:1574-1701 | the loop, in all its modes, writes the text and reads the length of which `Decodes` and `RoundTripExactly` speak |
| `Escape.PercentInTables` | nginx-1.5.13/src/core/ngx_string.c:1412-1533 | which tables escape the percent sign |

## Left out

- Slab: page sizes other than 4096, debug junk fill, logging, and the mutex calls around the locked functions.
- Tree: the branch for a successor with a left child, which never occurs, is kept out of the model.
- Timers: locking for threads; a handler is the list of timer operations that it performs.
- Open-file cache: vnode events, the path without a cache, symlink-by-symlink opening, read-ahead and direct I/O flags, and the cleanup at process exit, which closes files in use.
- Mutex: the file-lock variant, and systems without a semaphore except as a configuration in which nobody sleeps.
- Output chain: direct and asynchronous I/O, sendfile limits, error returns, and the reuse of chain links; chains are sequences of buffers.
- Radix tree: the 128-bit functions, the preallocation loop (trees that it leaves are covered), and running out of memory in the middle of an insertion, which leaves a leaf without a value.
- `ngx_hash.c`, the resolver's queries and responses, compressed names, configuration, sockets, processes, OpenSSL, printf formatting beyond numbers.
- hot_cache and the getfile module: sessions with external services and scraping of their pages.
- Calendar: `ngx_tm_year_t` is an int, so years above 2^31 - 1 would be cut off; `ngx_time_update` and formatted times.
- Shmtx.NoSleeperStranded: states that some schedule leads there; `FairnessIsNotEnough` shows that fair ones need not.
- RbTree.RbTree.Lookup: reads names as sequences of characters; the end-of-string byte is not modelled.
- RbTree.RbTree.Insert: where the node lands is stated under a condition on the order; the modules that use the tree prove the condition.
- Timers.Timers.Expire: handlers that arm timers already due over and over make the loop run for ever; only finite scripts are stated.
- SlabPool.Pool.FreeLocked: excludes frees that the tests cannot tell from legal ones, which break the lists (`AcceptedExactly` says which), and pointers into the last, incomplete page, whose header would lie behind the others.
- SlabPool.Pool.FreeSmall: excludes aligned pointers into the bitmap, as above.
- SlabPool.Pool.FreeRun: excludes the start of a free run, as above.
- SlabPool.Pool.constructor: excludes memory without room for a page, where `Layout` gives pages outside the memory.
- FileCache.Cache.Open: excludes implausible answers on a new look at a descriptor held, after which descriptors are lost or closed in use; `RecheckExact` says so.
- FileCache.Cache.Recheck: excludes the same answers.
- FileCache.Cache.Renew: excludes what only those answers lead to, a new descriptor with the identity of the one held.
- FileCache.Cache.Serve: passes over requests with such answers.
- OutputChain.Output.AsIs: leaves out the test for files read with direct I/O, which are always copied.
- Md5.Context.Body: the sixty-four steps of a block are a parameter.

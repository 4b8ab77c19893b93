# Verified models of four course projects

Four independent cores of the repository, modelled and proved in Dafny 4.11. `dafny verify dfyconfig.toml`
checks everything.

**The allocator** (`mm.c` on `memlib.c`). The heap is an array of 8-byte words, and addresses are word offsets
with 0 for NULL. Words 0-35 are the free-list heads, 36-45 `slabs16`, 46-59 `slabs32`, word 60 is the reserved
15th word of `slabs32` that free reads as a footer before the first block, and blocks start at word 61. The
methods of `Allocators.Allocator` write this array as the program does: tags, links inside free blocks, bitmaps.
Ghost fields record the tiling by blocks, the contents of the lists and the live pointers, and one invariant,
`Slabs.AllocatorOK`, ties them to the words; every operation keeps it.
`Bits`, `HeapBlocks` and `HeapSteps` hold the block heap, `Slabs` and `SlabSteps` the slabs, `Contents` and
`ReallocSteps` the bytes that realloc moves, `AllocatorSteps` the search and routing, `AllocatorRuns` whole runs,
`LoneSlot` when realloc keeps the contents, `MemLib` the byte-level memory.

**The splay tree** (`stree.c`). `SplayTrees.Tree` rewrites left, right, parent and root pointers of heap nodes.
`SplayShapes` describes a tree as a value: the nodes in key order, the index range of every subtree, and all
pointers. Each operation is shown to make one function of the shape true, and each such function keeps the shape
linked. `SplaySteps` says what a step of splaying does to children and depths.

**The linked list** (`gll.c`): `LinkedLists.List` refines a sequence.

**The paging simulator** (`simulator.c`). `Simulators.Simulator` has the TLB and the frame table as arrays, the
process control blocks and the lists as fields. `PageTables` has the page tables, `Memory` their agreement with frame
table and TLB, `Processes` the lists, the executed instructions and the statistics.

**The message channel** (`que.c`, `buffer.c`, `helper.c`). `ByteRing.Fifo` is the ring, `Messages.Buffer` the framing
and the critical sections. `Channel` is the protocol as a machine whose state has one program counter per thread;
steps are calls, critical sections, signals after the unlock that wake one waiter or nobody, and spurious wakeups.
`ChannelRoom` says when a sender waits for room that it has, `ChannelResults` what every call returns.

Where documentation and code differ, the code is followed. The description of `buffer_close` promises that waiting
calls return, which is proved. The description of `buffer_send`, that it waits until there is room, holds exactly
when the ring holds the same number of every message sent (`ChannelRoom.StrandedExactlyWhenCapacitiesDiffer`): a
receive signals one sender only, and when that one still lacks room nobody tells the others. `realloc` promises to
keep the contents, but frees a slot before it copies it, and the slot may take its slab with it. For `was` and `size`
bytes, both at least 1, contents can be lost if and only if `was` is at most 32 and slots of its kind do not serve
`size` (`LoneSlot.LosesExactly`), in every arena that holds the run which shows it; in the other cases, and while
the slab has another live slot, they are kept. `gll_add` with a negative position appends although its
comment speaks of a position in the list.

## Model

| member | source | states |
|---|---|---|
| `Allocators.Allocator.MmInit` | cmpsc473-project2-473_pa2_lm_sc-master/cmpsc473-project2-473_pa2_lm_sc-master/mm.c:555-581 | after initialization the whole allocator invariant holds, with an empty heap of 61 words, nothing live, and the unused 15th word of slabs32 zero |
| `Allocators.Allocator.GetBlockInfo` | cmpsc473-project2-473_pa2_lm_sc-master/cmpsc473-project2-473_pa2_lm_sc-master/mm.c:151-223 | header or footer alone give a block's status and size, and a free block larger than 16 bytes its two links |
| `Allocators.Allocator.AddTags` | cmpsc473-project2-473_pa2_lm_sc-master/cmpsc473-project2-473_pa2_lm_sc-master/mm.c:236-285 | every combination of arguments writes exactly the tags, the tags and both links, or the one link it stands for; a null block is ignored, and so are other statuses |
| `Allocators.Allocator.ListDeleteAt` | cmpsc473-project2-473_pa2_lm_sc-master/cmpsc473-project2-473_pa2_lm_sc-master/mm.c:95-109 | refines the list surgery whose effect on a whole list UnlinkOne states |
| `Allocators.Allocator.ListAddAt` | cmpsc473-project2-473_pa2_lm_sc-master/cmpsc473-project2-473_pa2_lm_sc-master/mm.c:119-125 | refines the list surgery whose effect on all lists AttachLinks states |
| `HeapBlocks.UnlinkOne` | cmpsc473-project2-473_pa2_lm_sc-master/cmpsc473-project2-473_pa2_lm_sc-master/mm.c:95-109 | unlinking takes exactly one block out of a doubly linked list, also when neighbours of a coalescing block sit next to each other on it |
| `HeapBlocks.AttachLinks` | cmpsc473-project2-473_pa2_lm_sc-master/cmpsc473-project2-473_pa2_lm_sc-master/mm.c:119-125 | linking in puts the block at the head of its list and leaves the other 35 lists linked as they were |
| `HeapBlocks.GetIndexClass` | cmpsc473-project2-473_pa2_lm_sc-master/cmpsc473-project2-473_pa2_lm_sc-master/mm.c:134-137 | list i holds exactly the sizes in (2^(i+4), 2^(i+5)] |
| `HeapBlocks.LaterListLarger` | cmpsc473-project2-473_pa2_lm_sc-master/cmpsc473-project2-473_pa2_lm_sc-master/mm.c:601-602 | every size of a later list is strictly larger than every size of an earlier one, which makes the segregated search a global one |
| `Allocators.Allocator.BestInList` | cmpsc473-project2-473_pa2_lm_sc-master/cmpsc473-project2-473_pa2_lm_sc-master/mm.c:602-640 | the search of one list returns a block of least size among those that fit, with its links, and 0 only if none fits |
| `Allocators.Allocator.Place` | cmpsc473-project2-473_pa2_lm_sc-master/cmpsc473-project2-473_pa2_lm_sc-master/mm.c:642-660 | taking and splitting a free block keeps the heap invariant, adds one allocated block and changes no word of another |
| `Allocators.Allocator.MallocBlock` | cmpsc473-project2-473_pa2_lm_sc-master/cmpsc473-project2-473_pa2_lm_sc-master/mm.c:598-666 | global best fit: the least sufficient free block of the whole heap, and the heap grows only when no free block fits, or for 0 bytes, whose list index wraps around; the heap invariant holds after it |
| `AllocatorSteps.NoFitBelow` | cmpsc473-project2-473_pa2_lm_sc-master/cmpsc473-project2-473_pa2_lm_sc-master/mm.c:599-602 | lists below the starting index hold no block that fits |
| `AllocatorSteps.NextList` | cmpsc473-project2-473_pa2_lm_sc-master/cmpsc473-project2-473_pa2_lm_sc-master/mm.c:602-660 | the first list with a fit has a best fit of the whole heap |
| `AllocatorSteps.NothingFits` | cmpsc473-project2-473_pa2_lm_sc-master/cmpsc473-project2-473_pa2_lm_sc-master/mm.c:663-665 | growing the heap is right when all lists failed: no free block is large enough |
| `HeapSteps.Split` | cmpsc473-project2-473_pa2_lm_sc-master/cmpsc473-project2-473_pa2_lm_sc-master/mm.c:645-658 | splitting leaves tiles, tags, alignment and no two adjacent free blocks |
| `HeapSteps.Coalesce` | cmpsc473-project2-473_pa2_lm_sc-master/cmpsc473-project2-473_pa2_lm_sc-master/mm.c:716-797 | merging a freed block with its free neighbours keeps tiling and never leaves two adjacent free blocks |
| `HeapSteps.Release` | cmpsc473-project2-473_pa2_lm_sc-master/cmpsc473-project2-473_pa2_lm_sc-master/mm.c:716-797 | freeing one block removes it from the allocated ones and leaves every other allocated word alone |
| `Allocators.Allocator.CoalesceWithPrev` | cmpsc473-project2-473_pa2_lm_sc-master/cmpsc473-project2-473_pa2_lm_sc-master/mm.c:732-797 | freeing with a free block before it, or at the start of the heap where the guard word is read as a footer, with or without a free block after it |
| `Allocators.Allocator.CoalesceWithNext` | cmpsc473-project2-473_pa2_lm_sc-master/cmpsc473-project2-473_pa2_lm_sc-master/mm.c:732-797 | freeing with an allocated block before it |
| `Allocators.Allocator.FreeBlock` | cmpsc473-project2-473_pa2_lm_sc-master/cmpsc473-project2-473_pa2_lm_sc-master/mm.c:716-797 | the block path of free keeps the heap invariant in all neighbour cases; a block that is already free is left alone |
| `AllocatorSteps.SpanFacts` | cmpsc473-project2-473_pa2_lm_sc-master/cmpsc473-project2-473_pa2_lm_sc-master/mm.c:720-760 | what free reads from the neighbours' tags is where the merged free block begins and ends |
| `AllocatorSteps.CheckheapHolds` | cmpsc473-project2-473_pa2_lm_sc-master/cmpsc473-project2-473_pa2_lm_sc-master/mm.c:930-1014 | in every state all tests of mm_checkheap pass: alignment, equal tags, no adjacent free blocks, listed exactly when free and larger than 16 bytes, and listed under its own size class |
| `AllocatorSteps.FindFirst0IsLog` | cmpsc473-project2-473_pa2_lm_sc-master/cmpsc473-project2-473_pa2_lm_sc-master/mm.c:294-300 | taking the logarithm in 32-bit halves gives the highest set bit of the 64-bit word |
| `AllocatorSteps.FreeBitIsFirst` | cmpsc473-project2-473_pa2_lm_sc-master/cmpsc473-project2-473_pa2_lm_sc-master/mm.c:338-341 | all-ones minus the map, then findFirst0, selects the first free slot, and adding the bit cannot carry |
| `Allocators.Allocator.TakeSlot` | cmpsc473-project2-473_pa2_lm_sc-master/cmpsc473-project2-473_pa2_lm_sc-master/mm.c:326-344 | the first free slot of a slab in map order is handed out and only its bit changes; 0 exactly when the slab is full |
| `Allocators.Allocator.NewSlab` | cmpsc473-project2-473_pa2_lm_sc-master/cmpsc473-project2-473_pa2_lm_sc-master/mm.c:350-377 | a new slab is a block of the same heap with one slot handed out, and keeps the whole invariant |
| `Allocators.Allocator.SlabAdd` | cmpsc473-project2-473_pa2_lm_sc-master/cmpsc473-project2-473_pa2_lm_sc-master/mm.c:309-449 | the first free slot of the highest slab that has one; else a slab in the lowest missing place; 0 only if all slabs exist and are full |
| `AllocatorSteps.AddressInverse` | cmpsc473-project2-473_pa2_lm_sc-master/cmpsc473-project2-473_pa2_lm_sc-master/mm.c:472-475 | the map and bit that slabDelete computes from an address are those slabAdd computed the address from |
| `Allocators.Allocator.SlabDelete` | cmpsc473-project2-473_pa2_lm_sc-master/cmpsc473-project2-473_pa2_lm_sc-master/mm.c:460-544 | only this pointer stops being live, and the slab's block is freed exactly when this was its last slot |
| `Allocators.Allocator.Dissolve` | cmpsc473-project2-473_pa2_lm_sc-master/cmpsc473-project2-473_pa2_lm_sc-master/mm.c:495-500 | freeing a slab's block from inside slabDelete never routes back to a slab and keeps the whole invariant |
| `Allocators.Allocator.Route` | cmpsc473-project2-473_pa2_lm_sc-master/cmpsc473-project2-473_pa2_lm_sc-master/mm.c:678-715 | the range tests find the slab that a pointer lies in |
| `AllocatorSteps.RouteMeans` | cmpsc473-project2-473_pa2_lm_sc-master/cmpsc473-project2-473_pa2_lm_sc-master/mm.c:678-715 | every live pointer is routed to its own slab, or to the block path exactly when it is a client block |
| `Slabs.SlotInRange` | cmpsc473-project2-473_pa2_lm_sc-master/cmpsc473-project2-473_pa2_lm_sc-master/mm.c:678-715 | a slot passes the range test of its own slab and of no other |
| `Slabs.BlockNotInRange` | cmpsc473-project2-473_pa2_lm_sc-master/cmpsc473-project2-473_pa2_lm_sc-master/mm.c:678-715 | no block payload passes a range test |
| `Slabs.LiveAlone` | cmpsc473-project2-473_pa2_lm_sc-master/cmpsc473-project2-473_pa2_lm_sc-master/mm.c:586-797 | a live payload is 16-byte aligned and inside the heap |
| `Slabs.LiveApart` | cmpsc473-project2-473_pa2_lm_sc-master/cmpsc473-project2-473_pa2_lm_sc-master/mm.c:586-797 | two live payloads, slots or blocks, never overlap |
| `SlabSteps.SlotSet` | cmpsc473-project2-473_pa2_lm_sc-master/cmpsc473-project2-473_pa2_lm_sc-master/mm.c:339-342 | setting a bit makes exactly that slot live |
| `SlabSteps.SlotClear` | cmpsc473-project2-473_pa2_lm_sc-master/cmpsc473-project2-473_pa2_lm_sc-master/mm.c:473-479 | clearing a bit makes exactly that slot dead while the slab has others |
| `SlabSteps.SlabMade` | cmpsc473-project2-473_pa2_lm_sc-master/cmpsc473-project2-473_pa2_lm_sc-master/mm.c:361-376 | a fresh block becomes a slab without disturbing any live payload |
| `SlabSteps.SlabUnmade` | cmpsc473-project2-473_pa2_lm_sc-master/cmpsc473-project2-473_pa2_lm_sc-master/mm.c:495-500 | an empty slab becomes a plain block again |
| `SlabSteps.BlockMalloced` | cmpsc473-project2-473_pa2_lm_sc-master/cmpsc473-project2-473_pa2_lm_sc-master/mm.c:586-666 | a new block does not disturb slabs or live payloads |
| `SlabSteps.BlockFreed` | cmpsc473-project2-473_pa2_lm_sc-master/cmpsc473-project2-473_pa2_lm_sc-master/mm.c:671-797 | freeing a block does not disturb slabs or other live payloads |
| `Allocators.Allocator.Malloc` | cmpsc473-project2-473_pa2_lm_sc-master/cmpsc473-project2-473_pa2_lm_sc-master/mm.c:586-666 | one new live payload at least as large as asked for, aligned and apart from the others, whose contents do not change; small requests are served from slabs as slabAdd promises, the others best fit; memory is asked of mem_sbrk only when no slot and no free block will do |
| `Allocators.Allocator.Free` | cmpsc473-project2-473_pa2_lm_sc-master/cmpsc473-project2-473_pa2_lm_sc-master/mm.c:671-797 | exactly this pointer stops being live, no other live payload changes, NULL is ignored |
| `Allocators.Allocator.Realloc` | cmpsc473-project2-473_pa2_lm_sc-master/cmpsc473-project2-473_pa2_lm_sc-master/mm.c:802-894 | the pointer is replaced by one of the new size, and no other live payload changes; the first min(old payload, size) bytes are kept for every block, for a slot whose slab has another live slot and when nothing moves; nothing moves when the payload stays or shrinks in place, and then no room is needed; NULL gives NULL |
| `Allocators.Allocator.ReallocSlot` | cmpsc473-project2-473_pa2_lm_sc-master/cmpsc473-project2-473_pa2_lm_sc-master/mm.c:809-850 | realloc of a slab pointer: kept, or freed, allocated anew and then copied from where it was |
| `Allocators.Allocator.ReallocBlock` | cmpsc473-project2-473_pa2_lm_sc-master/cmpsc473-project2-473_pa2_lm_sc-master/mm.c:852-894 | realloc of a block through its equal, shrinking and moving cases |
| `Allocators.Allocator.ShrinkBlock` | cmpsc473-project2-473_pa2_lm_sc-master/cmpsc473-project2-473_pa2_lm_sc-master/mm.c:870-880 | shrinking in place keeps the contents although free writes links into the tail |
| `Allocators.Allocator.MoveBlock` | cmpsc473-project2-473_pa2_lm_sc-master/cmpsc473-project2-473_pa2_lm_sc-master/mm.c:885-893 | save, free, malloc and restore keep the contents even when the new block overlaps the old |
| `LoneSlot.LosesExactly` | cmpsc473-project2-473_pa2_lm_sc-master/cmpsc473-project2-473_pa2_lm_sc-master/mm.c:809-850 | the exact condition on all pairs of sizes: some realloc of a payload of `was` bytes to `size` bytes loses a byte if and only if the payload is at most 32 bytes and `size` is not served by slots of its kind |
| `LoneSlot.LossMeans` | cmpsc473-project2-473_pa2_lm_sc-master/cmpsc473-project2-473_pa2_lm_sc-master/mm.c:809-894 | one half, over all states of the heap: realloc loses no byte unless the two sizes belong to different kinds and the first is a slot |
| `LoneSlot.LoseContents` | cmpsc473-project2-473_pa2_lm_sc-master/cmpsc473-project2-473_pa2_lm_sc-master/mm.c:809-850 | the other half: for every such pair of sizes a run from a new heap after which the first byte is 0, whatever was written there |
| `LoneSlot.NothingLeft` | cmpsc473-project2-473_pa2_lm_sc-master/cmpsc473-project2-473_pa2_lm_sc-master/mm.c:823-826 | why: the lone slot frees its slab, malloc takes the front of the merged free block, and the remainder's zero link lies where the slot was |
| `AllocatorSteps.GapIsFree` | cmpsc473-project2-473_pa2_lm_sc-master/cmpsc473-project2-473_pa2_lm_sc-master/mm.c:732-797 | what free leaves: the words that a block and its free neighbours took are one free block, which a following malloc may take |
| `ReallocSteps.SplitAllocated` | cmpsc473-project2-473_pa2_lm_sc-master/cmpsc473-project2-473_pa2_lm_sc-master/mm.c:874-877 | retagging one allocated block as two keeps the whole invariant |
| `ReallocSteps.PayloadWritten` | cmpsc473-project2-473_pa2_lm_sc-master/cmpsc473-project2-473_pa2_lm_sc-master/mm.c:586-797 | a client that writes only into its live payload cannot break the invariant or another payload |
| `AllocatorRuns.Serve` | cmpsc473-project2-473_pa2_lm_sc-master/cmpsc473-project2-473_pa2_lm_sc-master/mm.c:586-894 | over every sequence of malloc, free, realloc and writes of single bytes: the invariant holds, payloads are aligned, inside, apart and as large as asked for, every payload holds what its owner last wrote and realloc kept, memory held by others is unchanged, and with enough memory only improper requests are refused |
| `AllocatorRuns.ServeOne` | cmpsc473-project2-473_pa2_lm_sc-master/cmpsc473-project2-473_pa2_lm_sc-master/mm.c:586-894 | one request: what the client then knows of its payloads is true, and contents can be lost only by a slot that leaves the slots of its size |
| `AllocatorRuns.LastWritten` | cmpsc473-project2-473_pa2_lm_sc-master/cmpsc473-project2-473_pa2_lm_sc-master/mm.c:802-894 | what the client knows of a byte is the last value written, unless a release, a shrinking or a losing realloc came after |
| `Contents.SameBytesAt` | cmpsc473-project2-473_pa2_lm_sc-master/cmpsc473-project2-473_pa2_lm_sc-master/mm.c:870-893 | copies by whole words and masked tails keep every single byte of the prefix |
| `AllocatorRuns.InvariantMeansIntact` | cmpsc473-project2-473_pa2_lm_sc-master/cmpsc473-project2-473_pa2_lm_sc-master/mm.c:586-797 | the invariant implies what clients rely on, for all live payloads at once |
| `MemLib.Memory.Sbrk` | cmpsc473-project2-473_pa2_lm_sc-master/cmpsc473-project2-473_pa2_lm_sc-master/memlib.c:67-86 | the break only grows, by exactly the request, and a negative or too large request changes nothing |
| `MemLib.Memory.Read` | cmpsc473-project2-473_pa2_lm_sc-master/cmpsc473-project2-473_pa2_lm_sc-master/memlib.c:119-128 | a masked eight-byte load has the bytes of the range and zeros above them |
| `MemLib.Memory.Write` | cmpsc473-project2-473_pa2_lm_sc-master/cmpsc473-project2-473_pa2_lm_sc-master/memlib.c:131-137 | exactly the addressed bytes change |
| `MemLib.Memory.Memcpy` | cmpsc473-project2-473_pa2_lm_sc-master/cmpsc473-project2-473_pa2_lm_sc-master/memlib.c:140-155 | the copy word by word and its masked tail, for any ranges; it is the byte-wise copy unless the target lies behind the start of the source and inside it |
| `MemLib.CopyExactlyWhen` | cmpsc473-project2-473_pa2_lm_sc-master/cmpsc473-project2-473_pa2_lm_sc-master/memlib.c:140-155 | exactly when the copy is byte-wise for all contents: unless the target overlaps the source from behind and more than one word is copied |
| `MemLib.Memory.Memset` | cmpsc473-project2-473_pa2_lm_sc-master/cmpsc473-project2-473_pa2_lm_sc-master/memlib.c:158-176 | equals the byte-wise fill for every length and every int value, and changes nothing else |
| `MemLib.BytesOfValue` | cmpsc473-project2-473_pa2_lm_sc-master/cmpsc473-project2-473_pa2_lm_sc-master/memlib.c:119-137 | loading a word and storing its low bytes is the identity on them |
| `MemLib.BytesMasked` | cmpsc473-project2-473_pa2_lm_sc-master/cmpsc473-project2-473_pa2_lm_sc-master/memlib.c:123-126 | the mask keeps the low bytes |
| `SplayTrees.Tree.LeftRotate` | cmpsc473-project2-473_pa2_lm_sc-master/cmpsc473-project2-473_pa2_lm_sc-master/stree.c:164-176 | the pointer assignments amount to the rotation of the shape, with links consistent in both directions |
| `SplayTrees.Tree.RightRotate` | cmpsc473-project2-473_pa2_lm_sc-master/cmpsc473-project2-473_pa2_lm_sc-master/stree.c:178-190 | the mirror image |
| `SplayShapes.LeftRotateKeepsOrder` | cmpsc473-project2-473_pa2_lm_sc-master/cmpsc473-project2-473_pa2_lm_sc-master/stree.c:164-176 | a rotation anywhere keeps the in-order traversal and the link consistency |
| `SplayShapes.RightRotateKeepsOrder` | cmpsc473-project2-473_pa2_lm_sc-master/cmpsc473-project2-473_pa2_lm_sc-master/stree.c:178-190 | the mirror image |
| `SplayShapes.TraversalIsNodes` | cmpsc473-project2-473_pa2_lm_sc-master/cmpsc473-project2-473_pa2_lm_sc-master/stree.c:230-240 | the sequence that the contracts speak of is the in-order traversal along the child pointers |
| `SplayTrees.Tree.SplayStep` | cmpsc473-project2-473_pa2_lm_sc-master/cmpsc473-project2-473_pa2_lm_sc-master/stree.c:192-210 | in each of the five cases: which children x, its parent and its grandparent have afterwards, in terms of those they had, with the grandparent turned first when x and its parent are on the same side; all others keep theirs; the subtree at x grows and the order is kept |
| `SplayTrees.Tree.Splay` | cmpsc473-project2-473_pa2_lm_sc-master/cmpsc473-project2-473_pa2_lm_sc-master/stree.c:192-211 | terminates with x at the root and the in-order sequence unchanged, by such steps and nothing else |
| `SplaySteps.TwoTurnsChildren` | cmpsc473-project2-473_pa2_lm_sc-master/cmpsc473-project2-473_pa2_lm_sc-master/stree.c:197-209 | the children of all nodes after the two rotations of a step, case by case |
| `SplaySteps.DepthIsAbove` | cmpsc473-project2-473_pa2_lm_sc-master/cmpsc473-project2-473_pa2_lm_sc-master/stree.c:192-211 | the depth along the parent pointers is the number of subtrees that a node lies in below their roots |
| `SplaySteps.GrandDepth` | cmpsc473-project2-473_pa2_lm_sc-master/cmpsc473-project2-473_pa2_lm_sc-master/stree.c:197-209 | what one step does to the depth of every node in the tree: x rises by two, its subtree by at least one, nobody sinks by more than two |
| `SplaySteps.SplayHalves` | cmpsc473-project2-473_pa2_lm_sc-master/cmpsc473-project2-473_pa2_lm_sc-master/stree.c:192-211 | what tells splaying from moving to the root by single rotations: every node above x gets at most half as deep as it was, plus 5/2, and no node gets more than 2 deeper, in every tree |
| `SplaySteps.InsertHalves` | cmpsc473-project2-473_pa2_lm_sc-master/cmpsc473-project2-473_pa2_lm_sc-master/stree.c:41-73 | so every insertion halves the search path |
| `SplayTrees.Tree.Insert` | cmpsc473-project2-473_pa2_lm_sc-master/cmpsc473-project2-473_pa2_lm_sc-master/stree.c:41-73 | false exactly when the key is there, and then nothing changes; else one node is added at its place in the order and splayed to the root, and node_count is exact |
| `SplayTrees.Tree.Find` | cmpsc473-project2-473_pa2_lm_sc-master/cmpsc473-project2-473_pa2_lm_sc-master/stree.c:75-88 | the record of the key, or NULL exactly when it is absent |
| `SplayTrees.Tree.FindNearest` | cmpsc473-project2-473_pa2_lm_sc-master/cmpsc473-project2-473_pa2_lm_sc-master/stree.c:90-107 | the record of the largest key that is at most the query, or NULL if all keys are larger |
| `SplayTrees.Tree.Remove` | cmpsc473-project2-473_pa2_lm_sc-master/cmpsc473-project2-473_pa2_lm_sc-master/stree.c:110-140 | exactly one key leaves, splayed to the root first; its record is returned, the rest keeps order and links, and node_count is exact; an absent key changes nothing |
| `SplayTrees.Tree.TakeRoot` | cmpsc473-project2-473_pa2_lm_sc-master/cmpsc473-project2-473_pa2_lm_sc-master/stree.c:122-138 | removing the root in its three cases leaves a consistent tree of the other nodes |
| `SplayTrees.Tree.Replace` | cmpsc473-project2-473_pa2_lm_sc-master/cmpsc473-project2-473_pa2_lm_sc-master/stree.c:213-218 | replaces a node in its parent and in the root |
| `SplayTrees.Tree.Minimum` | cmpsc473-project2-473_pa2_lm_sc-master/cmpsc473-project2-473_pa2_lm_sc-master/stree.c:220-223 | the first node of the subtree |
| `SplayShapes.JoinedLinked` | cmpsc473-project2-473_pa2_lm_sc-master/cmpsc473-project2-473_pa2_lm_sc-master/stree.c:125-135 | moving the minimum of the right subtree to the root gives a consistent tree, adjacent or not |
| `SplayShapes.GrownLinked` | cmpsc473-project2-473_pa2_lm_sc-master/cmpsc473-project2-473_pa2_lm_sc-master/stree.c:58-69 | hanging a node under the end of the search path gives a consistent tree |
| `LinkedLists.List.FindNode` | cmpsc473-project3-473_pa3_lm_sc-master/cmpsc473-project3-473_pa3_lm_sc-master/gll.c:92-120 | walking from either end gives the node at that index, and NULL for every index outside, negative ones and the size included |
| `LinkedLists.List.Add` | cmpsc473-project3-473_pa3_lm_sc-master/cmpsc473-project3-473_pa3_lm_sc-master/gll.c:129-170 | inserts at any position with links consistent; positions below 0 append, positions above the size fail |
| `LinkedLists.List.Remove` | cmpsc473-project3-473_pa3_lm_sc-master/cmpsc473-project3-473_pa3_lm_sc-master/gll.c:246-269 | removes exactly the element at the position, the others stay in order |
| `LinkedLists.List.Push` | cmpsc473-project3-473_pa3_lm_sc-master/cmpsc473-project3-473_pa3_lm_sc-master/gll.c:199-214 | refines adding in front of a sequence |
| `LinkedLists.List.PushBack` | cmpsc473-project3-473_pa3_lm_sc-master/cmpsc473-project3-473_pa3_lm_sc-master/gll.c:222-238 | refines adding at the end |
| `LinkedLists.List.Pop` | cmpsc473-project3-473_pa3_lm_sc-master/cmpsc473-project3-473_pa3_lm_sc-master/gll.c:276-291 | refines taking the first element |
| `LinkedLists.List.PopBack` | cmpsc473-project3-473_pa3_lm_sc-master/cmpsc473-project3-473_pa3_lm_sc-master/gll.c:298-310 | refines taking the last element |
| `LinkedLists.List.Set` | cmpsc473-project3-473_pa3_lm_sc-master/cmpsc473-project3-473_pa3_lm_sc-master/gll.c:180-191 | replaces one element and returns the old one |
| `LinkedLists.List.Get` | cmpsc473-project3-473_pa3_lm_sc-master/cmpsc473-project3-473_pa3_lm_sc-master/gll.c:50-57 | the element at the position, or NULL |
| `LinkedLists.List.Each` | cmpsc473-project3-473_pa3_lm_sc-master/cmpsc473-project3-473_pa3_lm_sc-master/gll.c:320-328 | visits all elements in order |
| `LinkedLists.List.EachReverse` | cmpsc473-project3-473_pa3_lm_sc-master/cmpsc473-project3-473_pa3_lm_sc-master/gll.c:338-346 | visits all elements in reverse order |
| `LinkedLists.ChainInsert` | cmpsc473-project3-473_pa3_lm_sc-master/cmpsc473-project3-473_pa3_lm_sc-master/gll.c:149-169 | linking a node in at any index keeps prev and next mutually inverse |
| `LinkedLists.ChainRemove` | cmpsc473-project3-473_pa3_lm_sc-master/cmpsc473-project3-473_pa3_lm_sc-master/gll.c:256-265 | so does linking one out |
| `PageTables.SplitIsInverse` | cmpsc473-project3-473_pa3_lm_sc-master/cmpsc473-project3-473_pa3_lm_sc-master/simulator.c:496-500 | the three indices of a page number below 2^(N1+N2+N3) are in range and determine it |
| `PageTables.JoinIsInverse` | cmpsc473-project3-473_pa3_lm_sc-master/cmpsc473-project3-473_pa3_lm_sc-master/simulator.c:496-500 | every choice of in-range indices is the split of one page number |
| `PageTables.AddRefinesMap` | cmpsc473-project3-473_pa3_lm_sc-master/cmpsc473-project3-473_pa3_lm_sc-master/simulator.c:664-794 | findPTE after addPTE is the updated map, for 1, 2 and 3 levels and every page, and no lower table is empty |
| `PageTables.DeleteRefinesMap` | cmpsc473-project3-473_pa3_lm_sc-master/cmpsc473-project3-473_pa3_lm_sc-master/simulator.c:846-976 | findPTE after deletePTE is the map without that page, and pruning leaves no empty lower table and loses nothing else |
| `PageTables.FindInsert` | cmpsc473-project3-473_pa3_lm_sc-master/cmpsc473-project3-473_pa3_lm_sc-master/simulator.c:487-549 | one walk after one insertion |
| `PageTables.FindDelete` | cmpsc473-project3-473_pa3_lm_sc-master/cmpsc473-project3-473_pa3_lm_sc-master/simulator.c:915-975 | one walk after one deletion with its pruning and sweep |
| `PageTables.DeletePruned` | cmpsc473-project3-473_pa3_lm_sc-master/cmpsc473-project3-473_pa3_lm_sc-master/simulator.c:935-974 | empty lower tables are freed |
| `Memory.InverseMeans` | cmpsc473-project3-473_pa3_lm_sc-master/cmpsc473-project3-473_pa3_lm_sc-master/simulator.c:599-662 | findPTE(p, v) = f if and only if DRAM[f] records (p, v), for every process that is not finished |
| `Memory.NoSharedFrame` | cmpsc473-project3-473_pa3_lm_sc-master/cmpsc473-project3-473_pa3_lm_sc-master/simulator.c:599-662 | no two pages share a frame |
| `Memory.EvictedIsVacant` | cmpsc473-project3-473_pa3_lm_sc-master/cmpsc473-project3-473_pa3_lm_sc-master/simulator.c:628-629 | evicting a frame leaves no page table entry and no TLB entry for it, also when its owner has finished |
| `Memory.FilledIsOK` | cmpsc473-project3-473_pa3_lm_sc-master/cmpsc473-project3-473_pa3_lm_sc-master/simulator.c:631-635 | recording the page and adding its entry restores the agreement of tables, frames and TLB |
| `Memory.EndedIsOK` | cmpsc473-project3-473_pa3_lm_sc-master/cmpsc473-project3-473_pa3_lm_sc-master/simulator.c:402-444 | agreement survives the end of a process whose frames stay recorded |
| `Memory.TLBAdded` | cmpsc473-project3-473_pa3_lm_sc-master/cmpsc473-project3-473_pa3_lm_sc-master/simulator.c:551-580 | a new TLB entry keeps coherence and distinct page numbers |
| `Memory.Flushed` | cmpsc473-project3-473_pa3_lm_sc-master/cmpsc473-project3-473_pa3_lm_sc-master/simulator.c:474-485 | after a flush the TLB is coherent for whoever runs next |
| `Simulators.HitIsWalk` | cmpsc473-project3-473_pa3_lm_sc-master/cmpsc473-project3-473_pa3_lm_sc-master/simulator.c:257-273 | a valid TLB entry names the frame that a page-table walk of the running process gives |
| `Simulators.Simulator.TLBFlush` | cmpsc473-project3-473_pa3_lm_sc-master/cmpsc473-project3-473_pa3_lm_sc-master/simulator.c:474-485 | all entries become empty |
| `Simulators.Simulator.TLBFind` | cmpsc473-project3-473_pa3_lm_sc-master/cmpsc473-project3-473_pa3_lm_sc-master/simulator.c:183-194 | finds a valid entry for the page if there is one |
| `Simulators.Simulator.TLBAdd` | cmpsc473-project3-473_pa3_lm_sc-master/cmpsc473-project3-473_pa3_lm_sc-master/simulator.c:551-580 | replaces the first invalid entry, else the least recently used one |
| `Simulators.Simulator.TLBDelete` | cmpsc473-project3-473_pa3_lm_sc-master/cmpsc473-project3-473_pa3_lm_sc-master/simulator.c:582-597 | clears exactly the entries for the page |
| `Simulators.Simulator.FindLRU` | cmpsc473-project3-473_pa3_lm_sc-master/cmpsc473-project3-473_pa3_lm_sc-master/simulator.c:605-627 | the first free frame, else the least recently used one |
| `Simulators.Simulator.FindClock` | cmpsc473-project3-473_pa3_lm_sc-master/cmpsc473-project3-473_pa3_lm_sc-master/simulator.c:637-661 | terminates after at most one sweep that clears bits; the first frame with bit 0 in circular order, or the starting frame, and exactly the frames passed lose their bit; the 16-bit hand goes round at most 65536 frames |
| `Simulators.Simulator.DRAMAdd` | cmpsc473-project3-473_pa3_lm_sc-master/cmpsc473-project3-473_pa3_lm_sc-master/simulator.c:599-662 | the frame chosen by the policy is recorded for the page, and its old page leaves its page table and the TLB |
| `Simulators.Simulator.PageIn` | cmpsc473-project3-473_pa3_lm_sc-master/cmpsc473-project3-473_pa3_lm_sc-master/simulator.c:1049-1051 | bringing in a page keeps the whole invariant and makes exactly that page resident |
| `Simulators.Simulator.ReadMem` | cmpsc473-project3-473_pa3_lm_sc-master/cmpsc473-project3-473_pa3_lm_sc-master/simulator.c:171-285 | through the TLB or not, the frame touched is the one a walk gives; exactly when an access is done, stalls or faults, what it costs, how hits, misses and faults are counted, and which TLB entry is used or replaced |
| `Simulators.Simulator.ReadPage` | cmpsc473-project3-473_pa3_lm_sc-master/cmpsc473-project3-473_pa3_lm_sc-master/simulator.c:132-286 | one instruction, by its kind: a memory access is looked up exactly once, leaves the list only with its frame touched, and faults exactly when there is time and the walk finds nothing; others touch neither TLB nor frames; 0 only for an empty trace; the user time, and the bounds that the instruction sets to the time |
| `Simulators.Simulator.RunNonMem` | cmpsc473-project3-473_pa3_lm_sc-master/cmpsc473-project3-473_pa3_lm_sc-master/simulator.c:146-170 | an instruction is executed exactly when its remaining time fits, and otherwise its rest is kept for the next slice |
| `Simulators.Simulator.SkipResident` | cmpsc473-project3-473_pa3_lm_sc-master/cmpsc473-project3-473_pa3_lm_sc-master/simulator.c:1018-1036 | which blocked processes are skipped |
| `Simulators.TimeLeft` | cmpsc473-project3-473_pa3_lm_sc-master/cmpsc473-project3-473_pa3_lm_sc-master/simulator.c:181-200 | the unsigned time available wraps around when it is less than the TLB latency, and then does not count as too little |
| `Simulators.Simulator.SchedulingRR` | cmpsc473-project3-473_pa3_lm_sc-master/cmpsc473-project3-473_pa3_lm_sc-master/simulator.c:288-316 | round robin; the TLB is flushed exactly when another process than the last one runs |
| `Simulators.Simulator.RunUntil` | cmpsc473-project3-473_pa3_lm_sc-master/cmpsc473-project3-473_pa3_lm_sc-master/simulator.c:342-364 | the loop: instructions are executed until time is up, the trace is done or a page is missing, and no longer |
| `Simulators.Simulator.ProcessSimulator` | cmpsc473-project3-473_pa3_lm_sc-master/cmpsc473-project3-473_pa3_lm_sc-master/simulator.c:319-378 | why the processor stops and when; the time that passed is what the executed instructions take, between all accesses fast and all slow, and at most one access that was broken off |
| `Simulators.Simulator.CleanUpProcess` | cmpsc473-project3-473_pa3_lm_sc-master/cmpsc473-project3-473_pa3_lm_sc-master/simulator.c:380-463 | only a process with an empty trace ends; its counters are recorded |
| `Simulators.Simulator.DiskToMemory` | cmpsc473-project3-473_pa3_lm_sc-master/cmpsc473-project3-473_pa3_lm_sc-master/simulator.c:1014-1067 | exactly the leading blocked processes whose page is there become ready, in order and none lost; the next transfer advances by the elapsed time and ends, with the page resident, exactly when nothing is left of it |
| `Simulators.Simulator.FinishTransfer` | cmpsc473-project3-473_pa3_lm_sc-master/cmpsc473-project3-473_pa3_lm_sc-master/simulator.c:1047-1062 | a transfer makes the page resident and charges the blocked time to process and total alike |
| `Simulators.Simulator.ArriveAll` | cmpsc473-project3-473_pa3_lm_sc-master/cmpsc473-project3-473_pa3_lm_sc-master/simulator.c:1093-1112 | exactly the first of processList that are due move to ready, in order, and the next arrival is in the future |
| `Simulators.TransferOvershot` | cmpsc473-project3-473_pa3_lm_sc-master/cmpsc473-project3-473_pa3_lm_sc-master/simulator.c:1038-1048 | a transfer ends exactly when it is looked at on the cycle of its end; later what is left has wrapped around |
| `Simulators.Simulator.LeaveProcessor` | cmpsc473-project3-473_pa3_lm_sc-master/cmpsc473-project3-473_pa3_lm_sc-master/simulator.c:1117-1143 | after the trace is done the process is recorded; after quantum or disk interrupt it goes to the end of the ready list |
| `Simulators.Simulator.RunAndLeave` | cmpsc473-project3-473_pa3_lm_sc-master/cmpsc473-project3-473_pa3_lm_sc-master/simulator.c:1086-1143 | the ready list that the scheduler finds: the old one, those who arrived, those who were unblocked, and the one that was preempted, in this order |
| `Simulators.Simulator.Turn` | cmpsc473-project3-473_pa3_lm_sc-master/cmpsc473-project3-473_pa3_lm_sc-master/simulator.c:1086-1148 | the first of that list runs, and nobody only if it is empty; time then passes by a context switch; everybody else is where the lists say |
| `Simulators.Simulator.Idle` | cmpsc473-project3-473_pa3_lm_sc-master/cmpsc473-project3-473_pa3_lm_sc-master/simulator.c:1150-1257 | an idle processor goes on at the next arrival or at the end of the first transfer, whatever is first, and that process is then ready |
| `Simulators.Simulator.Iterate` | cmpsc473-project3-473_pa3_lm_sc-master/cmpsc473-project3-473_pa3_lm_sc-master/simulator.c:1084-1258 | one iteration keeps the whole invariant (page tables, frames and TLB agree, every process is in exactly one place, executed plus remaining instructions are the trace, totals are sums); the first ready process runs and the others move up; while the loop goes on somebody runs or is ready, and then time passes or a process ends |
| `Simulators.Simulator.constructor` | cmpsc473-project3-473_pa3_lm_sc-master/cmpsc473-project3-473_pa3_lm_sc-master/simulator.c:1070-1082 | the invariant holds when the first process starts |
| `Simulators.Simulator.Simulate` | cmpsc473-project3-473_pa3_lm_sc-master/cmpsc473-project3-473_pa3_lm_sc-master/simulator.c:1070-1259 | over any number of iterations the invariant holds; when the loop ends every process has executed its whole trace and is recorded; no more accesses were executed than the TLB and the walks found |
| `Simulators.RunsSoon` | cmpsc473-project3-473_pa3_lm_sc-master/cmpsc473-project3-473_pa3_lm_sc-master/simulator.c:1084-1258 | nobody starves: in every run the process that is k-th on the ready list has the processor k + 1 iterations later |
| `Processes.AccessesCounted` | cmpsc473-project3-473_pa3_lm_sc-master/cmpsc473-project3-473_pa3_lm_sc-master/simulator.c:196-280 | of every process, and of all together, no more accesses are executed than were found in the TLB or by a walk |
| `Processes.SumUpdate` | cmpsc473-project3-473_pa3_lm_sc-master/cmpsc473-project3-473_pa3_lm_sc-master/simulator.c:150-280 | what is charged to one process is charged to the total |
| `Processes.FinishedRanAll` | cmpsc473-project3-473_pa3_lm_sc-master/cmpsc473-project3-473_pa3_lm_sc-master/simulator.c:137-140 | a finished process has executed exactly its trace |
| `Processes.AllFinished` | cmpsc473-project3-473_pa3_lm_sc-master/cmpsc473-project3-473_pa3_lm_sc-master/simulator.c:1151-1164 | with all lists empty, everyone has |
| `ByteRing.Fifo.StoredLength` | cmpsc473-project4-473_pa4_lm_sc-main/cmpsc473-project4-473_pa4_lm_sc-main/que.c:20-63 | the number of stored bytes is (head - tail) mod size |
| `ByteRing.Fifo.Init` | cmpsc473-project4-473_pa4_lm_sc-main/cmpsc473-project4-473_pa4_lm_sc-main/que.c:9-16 | an empty ring |
| `ByteRing.Fifo.Read` | cmpsc473-project4-473_pa4_lm_sc-main/cmpsc473-project4-473_pa4_lm_sc-main/que.c:20-39 | refines taking bytes off a sequence, across the wrap-around; avilSize changes only by a full read, and by a request below 0, which reads nothing |
| `ByteRing.Fifo.Write` | cmpsc473-project4-473_pa4_lm_sc-main/cmpsc473-project4-473_pa4_lm_sc-main/que.c:41-64 | refines appending bytes to a sequence, as many as leave one cell free |
| `Messages.Buffer.AddQ` | cmpsc473-project4-473_pa4_lm_sc-main/cmpsc473-project4-473_pa4_lm_sc-main/buffer.c:6-16 | a message is added exactly if its frame is smaller than the room, and the ring then holds the frames of the messages in order; neither write is cut short |
| `Messages.Buffer.RemoveQ` | cmpsc473-project4-473_pa4_lm_sc-main/cmpsc473-project4-473_pa4_lm_sc-main/buffer.c:20-29 | takes off the oldest message, or fails on an empty ring |
| `Messages.Buffer.TopMessage` | cmpsc473-project4-473_pa4_lm_sc-main/cmpsc473-project4-473_pa4_lm_sc-main/buffer.c:32-50 | returns the index-th message, or the last one for larger indices, and restores the ring exactly for every index, whatever the uninitialized size holds |
| `Messages.FramesAppend` | cmpsc473-project4-473_pa4_lm_sc-main/cmpsc473-project4-473_pa4_lm_sc-main/buffer.c:8-14 | framing turns appending a message into appending bytes |
| `Messages.IntRoundTrip` | cmpsc473-project4-473_pa4_lm_sc-main/cmpsc473-project4-473_pa4_lm_sc-main/buffer.c:23-25 | the length prefix read back is the length written |
| `Messages.Buffer.SendEnterSection` | cmpsc473-project4-473_pa4_lm_sc-main/cmpsc473-project4-473_pa4_lm_sc-main/helper.c:32-50 | refines the critical section of buffer_send as a step of the protocol |
| `Messages.Buffer.SendResumeSection` | cmpsc473-project4-473_pa4_lm_sc-main/cmpsc473-project4-473_pa4_lm_sc-main/helper.c:41-50 | and after a wakeup |
| `Messages.Buffer.ReceiveEnterSection` | cmpsc473-project4-473_pa4_lm_sc-main/cmpsc473-project4-473_pa4_lm_sc-main/helper.c:67-85 | refines the critical section of buffer_receive |
| `Messages.Buffer.ReceiveResumeSection` | cmpsc473-project4-473_pa4_lm_sc-main/cmpsc473-project4-473_pa4_lm_sc-main/helper.c:76-85 | and after a wakeup |
| `Messages.Buffer.CloseSectionUnderLock` | cmpsc473-project4-473_pa4_lm_sc-main/cmpsc473-project4-473_pa4_lm_sc-main/helper.c:104-113 | refines the critical section of buffer_close |
| `Channel.ReceivedInOrder` | cmpsc473-project4-473_pa4_lm_sc-main/cmpsc473-project4-473_pa4_lm_sc-main/helper.c:28-94 | in every run of any number of threads, received messages are a prefix of the accepted ones in lock order and the ring is never overrun |
| `Channel.ReceiversHeardStep` | cmpsc473-project4-473_pa4_lm_sc-main/cmpsc473-project4-473_pa4_lm_sc-main/helper.c:52-84 | no receiver's wakeup is lost: while one waits, messages are at most woken receivers plus pending signals |
| `Channel.SendersHeardStep` | cmpsc473-project4-473_pa4_lm_sc-main/cmpsc473-project4-473_pa4_lm_sc-main/helper.c:39-87 | no sender's wakeup is lost while the channel is empty |
| `Channel.NoStandoff` | cmpsc473-project4-473_pa4_lm_sc-main/cmpsc473-project4-473_pa4_lm_sc-main/helper.c:28-94 | an open channel where nobody can move never has a waiting receiver with messages, nor, when every message fits an empty ring, a waiting sender without; so both never wait together |
| `Channel.StandoffExactlyWhenTooBig` | cmpsc473-project4-473_pa4_lm_sc-main/cmpsc473-project4-473_pa4_lm_sc-main/helper.c:39-41 | the exact condition: on a ring of given size, runs that send messages of a given set can end in such a standoff if and only if one of these does not fit |
| `Channel.TooBigNeverSent` | cmpsc473-project4-473_pa4_lm_sc-main/cmpsc473-project4-473_pa4_lm_sc-main/helper.c:39-49 | a message that does not fit is never sent while the channel is open |
| `ChannelRoom.NoSenderStranded` | cmpsc473-project4-473_pa4_lm_sc-main/cmpsc473-project4-473_pa4_lm_sc-main/helper.c:39-87 | if the ring holds the same number of every message sent, a sender that waits while nobody can move has no room |
| `ChannelRoom.StrandedWhenCapacitiesDiffer` | cmpsc473-project4-473_pa4_lm_sc-main/cmpsc473-project4-473_pa4_lm_sc-main/helper.c:39-87 | for any two messages of which the ring holds different numbers there is a run that leaves a sender waiting although its message fits |
| `ChannelRoom.StrandedExactlyWhenCapacitiesDiffer` | cmpsc473-project4-473_pa4_lm_sc-main/cmpsc473-project4-473_pa4_lm_sc-main/helper.c:39-87 | the exact condition for the promise of buffer_send: on a ring of given size, messages of a given set can strand a sender if and only if (size - 1) / frame is not the same for all of them |
| `ChannelRoom.SmallSenderStranded` | cmpsc473-project4-473_pa4_lm_sc-main/cmpsc473-project4-473_pa4_lm_sc-main/helper.c:39-87 | an instance: ring of 11 bytes, an empty message and one of one byte |
| `Channel.DrainsStep` | cmpsc473-project4-473_pa4_lm_sc-main/cmpsc473-project4-473_pa4_lm_sc-main/helper.c:42-48 | after a close, while a thread waits somebody will signal its condition |
| `Channel.NobodyStartsWaiting` | cmpsc473-project4-473_pa4_lm_sc-main/cmpsc473-project4-473_pa4_lm_sc-main/helper.c:33-37 | after a close no thread starts to wait |
| `Channel.ClosedRunsEnd` | cmpsc473-project4-473_pa4_lm_sc-main/cmpsc473-project4-473_pa4_lm_sc-main/helper.c:102-118 | after a close a run is bounded by a measure that every step decreases, spurious wakeups included |
| `Channel.ClosedCanMove` | cmpsc473-project4-473_pa4_lm_sc-main/cmpsc473-project4-473_pa4_lm_sc-main/helper.c:102-118 | after a close, while anyone waits some thread can move |
| `Channel.WaitersAreDrained` | cmpsc473-project4-473_pa4_lm_sc-main/cmpsc473-project4-473_pa4_lm_sc-main/helper.c:42-48 | in every run after a close, once nobody can move every thread that waited has returned CLOSED_ERROR |
| `Channel.SafeRun` | cmpsc473-project4-473_pa4_lm_sc-main/cmpsc473-project4-473_pa4_lm_sc-main/helper.c:28-118 | what no step breaks holds in every run |
| `Channel.NoFalseAlarmStep` | cmpsc473-project4-473_pa4_lm_sc-main/cmpsc473-project4-473_pa4_lm_sc-main/helper.c:33-48 | while the channel is open no thread is told that it is closed |
| `ChannelResults.EveryResultIsRight` | cmpsc473-project4-473_pa4_lm_sc-main/cmpsc473-project4-473_pa4_lm_sc-main/helper.c:28-118 | in every run: a send returns success exactly if it put its own message on the ring, and CLOSED_ERROR exactly if it put nothing there and the channel is closed; a receive hands over the message that it took off, with SPECIAL exactly for splmsg, or nothing and CLOSED_ERROR; the first close succeeds and every later one does not |
| `ChannelResults.AgreesStep` | cmpsc473-project4-473_pa4_lm_sc-main/cmpsc473-project4-473_pa4_lm_sc-main/helper.c:28-118 | every step keeps threads, their calls and what these did in agreement, for first entries and after wakeups alike |
| `ChannelResults.OnePerCall` | cmpsc473-project4-473_pa4_lm_sc-main/cmpsc473-project4-473_pa4_lm_sc-main/helper.c:51-87 | what goes onto the ring or comes off it belongs to one call, which had done nothing before |
| `ChannelResults.EveryRunIsKept` | cmpsc473-project4-473_pa4_lm_sc-main/cmpsc473-project4-473_pa4_lm_sc-main/helper.c:28-118 | the ledger restricts nothing: every run has one |

## Left out

- Allocators.Allocator.Malloc: required is what the code needs of `mem_sbrk`, whose failure it does not test: when neither slot nor free block will do, room for the new slab or block.
- Allocators.Allocator.Realloc: when the payload moves, required is what malloc needs on the heap after the free. A size of 0 is left out for the first block of the heap: the block that stays has no payload and its neighbour behind is free, but if that is handed out before the block is freed, free takes the guard word for a free block in front and indexes the lists with 255. It is also left out, while no 16-byte slot can be had, for a 32-byte slot: the code then copies 16 bytes into an empty payload.
- Allocators.Allocator.ReallocSlot: for a slot that is alone in its slab and has to move, the contract says from where and when the words are copied, not that they are the old ones, because they need not be; `LoneSlot.LosesExactly` says for which sizes.
- Allocators.Allocator.ReallocBlock: a size of 0 is left out for the first block of the heap, as for `Realloc`.
- Allocators.Allocator.ShrinkBlock: a size of 0 is left out for the first block of the heap, as for `Realloc`.
- LoneSlot.LoseContents: the arena must hold the run, a slab and a block of `size` bytes beside each other.
- AllocatorRuns.Serve: passes over realloc to 0 bytes, and a request for which `mem_sbrk` might have no room.
- Allocators.Allocator.Route: a null slab entry captures no pointer; in the program the comparison with addresses just above NULL has the same outcome for every heap address.
- The code for 16-byte and for 32-byte slabs is written twice in the program and once in the model, with the slab number as a parameter.
- The allocator's words and the bytes of `MemLib` are separate models; the allocator's stores of whole words and its masked tails are modelled on words.
- Floating-point logarithms of `getIndex` and `findFirst0` are integer logarithms, which agree for all sizes up to 2^40 and for 32-bit halves.
- `calloc`, `mdriver.c` and its range list, timing and trace files of project 2.
- SplayTrees.Tree.LeftRotate: called only with a right child, as splay does; the program's branch without one is never reached.
- SplayTrees.Tree.RightRotate: called only with a left child, in the same way.
- `tree_free`, `tree_show`, `subtree_maximum` and freeing of nodes as memory; list destruction.
- PageTables.AddRefinesMap: page tables are values held in the process control block, not linked heap arrays, so aliasing of tables is not captured; loops that initialize or sweep a table are sequence functions.
- Simulators.Simulator.ReadMem: OS time and the counters of one process beside the totals are left out; latencies are bounded so that TLB latency plus twice the DRAM latency is below 2^64, and at least one of the two is positive; the running clock does not overflow.
- Simulators.Simulator.ReadPage: OS time and the counters of one process beside the totals are left out, as in `ReadMem`.
- Simulators.Simulator.SchedulingRR: context-switch counts and OS time are left out.
- Simulators.Simulator.ProcessSimulator: context-switch, disk-interrupt and OS-time counters are left out.
- Simulators.Simulator.CleanUpProcess: duration, OS time and interrupt counts are not among the recorded statistics.
- Simulators.Simulator.DiskToMemory: the disk-interrupt count and OS time are left out.
- Simulators.Simulator.FinishTransfer: the disk-interrupt count and OS time are left out.
- Simulators.Simulator.Idle: the end of a transfer is `now` plus what is left of it; when that has wrapped around (`TransferOvershot`) the program's sum with the clock overflows, the model's does not.
- Simulators.Simulator.Iterate: OS time, context-switch and disk-interrupt counters are left out; it need not execute an instruction, because a process may find its page gone or its quantum used up, and no bound on that is stated.
- Simulators.Simulator.Simulate: runs a given number of iterations, because nothing bounds the number of iterations of the original loop; the first process must arrive at time 0, as the program dereferences it.
- Simulators.Simulator.constructor: page numbers in traces are below 2^(N1+N2+N3), unused levels have width 0, and process names are distinct, so processes are numbers.
- Parsing of addresses and files, printing, and the ready, blocked and waiting lists as linked nodes (they are sequences, which `LinkedLists` refines).
- Channel.NoStandoff: a critical section is one step, because chmutex is held throughout; the scheduler may otherwise interleave anything. pthread internals are reduced to waiting, waking one waiter, and spurious wakeups.
- Channel.WaitersAreDrained: says what holds when no thread can move; that threads are scheduled at all is an assumption about the system, and `ClosedRunsEnd` bounds the number of steps.
- `buffer_destroy`, the inner lock of the ring, messages whose framed size exceeds an int, and `driver.c`.
- fileIO.c, and project 1's demonstration programs.

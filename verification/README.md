# Avatar OS verification models

Dafny models of the parts of Avatar OS whose correctness rests on protocols, shared tables and
fixed-width arithmetic, with proofs of what they keep over all inputs and all runs.
`dafny verify dfyconfig.toml` checks the project.

The models take the form of the code.  Code that updates tables, rings or memory in place is a class
with arrays and methods, each proved equal to a function on values; the properties are lemmas about
those functions and about runs of them.  A device or another CPU is a set of steps that may come
between any two of the driver's.  What the code cannot see is a parameter: the page allocator's answer,
a network schedule, whether a user copy works, the counter's value.

| modules | part of the system |
|---|---|
| `VirtQueue`, `VirtioTx`, `VirtioRx`, `VirtioNet` | virtio-net queues: 64 descriptors, 16-bit ring indices that wrap, driver and device interleaved |
| `Tftp` | the TFTP server's packetisation and sliding window over a network that loses, duplicates and reorders |
| `FsLock` | the re-entrant file-system lock over the exclusive-access spin lock, load by load and store by store |
| `HeapBlocks`, `HeapBytes`, `KMalloc` | the lwext4 heap: block list, headers as bytes in memory, malloc, free, calloc, realloc |
| `DmaRefs`, `RknpuDrm`, `DrmLedger`, `DrmDevice` | reference counts of dma-bufs shared by GEM objects, descriptors and creators, and what every operation does to them; handles and mmap offsets |
| `NpuMmu` | the NPU's two-level page table as a mirror of the guest's stage-2 map, walked through encoded addresses |
| `CvitekRings`, `CvitekTx`, `CvitekRx` | the Ethernet DMA rings with an OWN bit per descriptor |
| `Memory` | memcpy, memmove and memset with widened accesses |
| `Bitmap` | the packed bitmap, its skip-ahead search and the page allocator's next-fit use of it |
| `Cpio` | building and parsing newc archives |
| `Cache` | cache range maintenance over a write-back cache of any line size |
| `Timer` | tick conversions and the absolute tick base of the riscv64 timer |
| `Printf` | the formatter and atol |
| `Bytes`, `Arith` | shared definitions |

Where a promise does not hold for every input, a lemma shows the input or the run, and another says exactly
when it does hold:

- rounding a heap request (`HeapBlocks.AlignUpIsAdequate`): exactly up to 2^32 - 16 bytes;
- the CPU slots of the file-system lock (`FsLock.TooManyCpusBreakIt`): at most as many CPUs as slots;
- 16-bit TFTP acknowledgements (`Tftp.AckReadRight`, `Tftp.StaleAckOvertakes`);
- the 11-bit length of a transmit descriptor (`CvitekTx.WholeIffFits`): 2048 bytes are accepted, 2047 are sent whole;
- the unaligned cache clean (`Cache.CleanReachesIff`, `Cache.CleanMissesTail`);
- the bitmap search whose start wraps (`Bitmap.FromRightIff`, `Bitmap.WrapFails`);
- the 10-byte network header on a version-2 virtio transport (`VirtioTx.LeavesWholeIff`, `VirtioRx.GivesWholeIff`);
- clearing after a calloc whose product the rounding cuts (`KMalloc.Arena.Calloc`);
- printing the least 64-bit integer (`Printf.SpellableIff`, `Printf.Format`);
- 32-bit handles and 64-bit offsets made from 64-bit ids (`RknpuDrm.HandleFindsObject`, `RknpuDrm.OffsetRoundTrip`);
- the 32-bit page count of a dma buffer (`DmaRefs.EnoughPagesAsked`, `RknpuDrm.HugeBufferOverlaps`);
- newc header numbers (`Cpio.HeaderFixed`): exactly the 32-bit ones keep the header's length;
- 64-bit tick products and elapsed times (`Timer.ToNsExactIff`, `Timer.FromUsExactIff`, `Timer.FromMsExactIff`,
  `Timer.CountRightIff`), and a counter slower than the tick frequency (`Timer.DeadlineAheadIff`).

## Model

| member | source | states |
|---|---|---|
| `VirtQueue.AllocKeeps` | driver/eth/virtio_net.c:250-264 | taking a descriptor pops the list; it fails exactly when the list is empty, and then changes nothing |
| `VirtQueue.FreeKeeps` | driver/eth/virtio_net.c:266-273 | a descriptor nothing else owns goes back on the list without disturbing any chain or ring entry |
| `VirtQueue.FailedPairRestores` | driver/eth/virtio_net.c:540-557 | when the second allocation fails, freeing the first leaves the queue bit for bit as it was |
| `VirtQueue.PushKeeps` | driver/eth/virtio_net.c:287-295 | no available-ring slot the device still has to read is overwritten |
| `VirtQueue.DevicePopKeeps` | driver/eth/virtio_net.c:287-295 | the head the device reads is the oldest one pushed |
| `VirtQueue.NothingPosted` | driver/eth/virtio_net.c:287-295 | equal 16-bit indices mean exactly that nothing is posted, across wrap-around |
| `VirtQueue.DevicePushKeeps` | driver/eth/virtio_net.c:373-397 | no used entry the driver still has to read is overwritten |
| `VirtQueue.NothingUsed` | driver/eth/virtio_net.c:373-397 | the used ring looks empty exactly when nothing waits; otherwise the slot holds the oldest entry |
| `VirtQueue.ReapKeeps` | driver/eth/virtio_net.c:275-285 | walking a used chain puts exactly its descriptors on the free list; none is freed twice |
| `VirtQueue.EveryDescriptorHasOneOwner` | driver/eth/virtio_net.c:232-295 | the 64 descriptors are partitioned without repeats into free list, held, available, in the device, used and second-of-chain; the sizes add up to 64 |
| `VirtioTx.EveryRunIsSafe` | driver/eth/virtio_net.c:532-587 | the invariant holds after every interleaving of any length |
| `VirtioTx.GatherIsFrame` | driver/eth/virtio_net.c:559-575 | what the device gathers from an outstanding chain is the header and the padded frame given to eth_send |
| `VirtioTx.ConsumeReads` | driver/eth/virtio_net.c:287-295 | the device reads submissions in the order they were made |
| `VirtioTx.WireIsPrefix` | driver/eth/virtio_net.c:532-587 | in every run the wire carries the accepted frames in order, up to some point; all of them when the ring is drained |
| `VirtioTx.SubmittedOnceReclaimedOnce` | driver/eth/virtio_net.c:373-397 | every submission is either out under one head or reclaimed exactly once; two that are out share neither buffer nor descriptor |
| `VirtioTx.BusyMeansFull` | driver/eth/virtio_net.c:540-557 | eth_send finds fewer than two free descriptors exactly when 32 frames are out |
| `VirtioRx.EveryRunIsSafe` | driver/eth/virtio_net.c:589-632 | the invariant holds after every interleaving of any length |
| `VirtioRx.BuffersTakePackets` | driver/eth/virtio_net.c:341-371 | every chain the device holds takes a packet exactly if it is no longer than a receive buffer: its descriptor is writable and points at a buffer of that length |
| `VirtioRx.NextArrival` | driver/eth/virtio_net.c:595-617 | the bytes the driver reads from the buffer of the next used entry are those the device stored through the descriptor of that chain, none missing |
| `VirtioRx.ReadsArriveInOrder` | driver/eth/virtio_net.c:589-632 | in every run the k-th packet taken is the k-th the device stored and returned |
| `VirtioRx.GivesWholeIff` | driver/eth/virtio_net.c:604-617 | what is handed on of a packet is the device's frame if and only if its network header has 10 bytes; with 12 two header bytes come first |
| `VirtioRx.RefilledMeansPosted` | driver/eth/virtio_net.c:341-371 | after a refill every descriptor is posted, in the device or waiting in the used ring |
| `VirtioNet.Virtq.FreeChain` | driver/eth/virtio_net.c:275-285 | the loop reads each link before freeing its descriptor and frees the chain, in place |
| `VirtioTx.ReapTakesOldest` | driver/eth/virtio_net.c:383-396 | a turn of the loop reclaims the oldest waiting submission and no other |
| `VirtioTx.LeavesWholeIff` | driver/eth/virtio_net.c:449-450 | the padded frame leaves on a device if and only if its network header has the 10 bytes the driver writes; with 12 it loses its first two bytes |
| `VirtioNet.TxPath.ReclaimTx` | driver/eth/virtio_net.c:373-397 | ends with an empty used ring: every submission returned by then is reclaimed, in the order returned, with the device at work |
| `VirtioNet.TxPath.SubmitFrame` | driver/eth/virtio_net.c:559-578 | with the device at work between any two writes, the frame becomes the last submission |
| `VirtioNet.TxPath.Send` | driver/eth/virtio_net.c:532-587 | 0 appends exactly the frame, -2 exactly for a bad call, -1 only when 32 frames are out after everything returned has been reclaimed; the counters follow; refusal leaves no trace |
| `VirtioNet.RxPath.RefillRx` | driver/eth/virtio_net.c:341-371 | posts exactly the free descriptors, each able to take a packet (`VirtioRx.BuffersTakePackets`); all are posted afterwards |
| `VirtioNet.RxPath.Recv` | driver/eth/virtio_net.c:589-632 | the next arrival without its virtio header, cut to the caller's room; no packet is used up only if none had arrived; one too short for a header is dropped with -1; every buffer is posted again |
| `Tftp.ChunksSpell` | tools/tftp-server.py:95-106 | the payloads concatenate to the file, all but the last are full and the last is short |
| `Tftp.Packetise` | tools/tftp-server.py:95-106 | the packing loop yields exactly those payloads with their 16-bit numbers |
| `Tftp.MapAckFinds` | tools/tftp-server.py:141-146 | an acknowledgement maps to the newest block of the window with that number, or to none |
| `Tftp.AckReadRight` | tools/tftp-server.py:141-146 | a 16-bit acknowledgement is read as the one sent if and only if it is newer than the base, or old by less than a turn minus the window |
| `Tftp.RunKeeps` | tools/tftp-server.py:108-147 | so does every run |
| `Tftp.TransferIsSafe` | tools/tftp-server.py:95-147 | over any losing, duplicating, reordering network: the receiver holds a prefix of the file, base <= taken, base <= nxt <= min(base + window, total), and a finished transfer is the whole file; below 65536 blocks, or with datagrams younger than a turn |
| `Tftp.StaleAckOvertakes` | tools/tftp-server.py:141-146 | from 65536 blocks on a run exists in which a stale acknowledgement moves the sender past a block the receiver lacks |
| `Tftp.SomeRunCompletes` | tools/tftp-server.py:108-147 | every transfer has a run that ends with sender and receiver done and the whole file across |
| `Tftp.TimeoutResends` | tools/tftp-server.py:117-131 | a timeout puts every unacknowledged block of the window back in flight and costs one retry |
| `Tftp.LossIsRepaired` | tools/tftp-server.py:108-147 | from every state of the invariant whose datagrams are all lost, with a retry left, a run exists that ends with the whole file across and the retries back at zero |
| `Tftp.PlayIsRun` | tools/tftp-server.py:108-147 | what a schedule of events makes of the system is a run of it; the sender gives up exactly when its retries are used up; the invariant holds unless a datagram came a full turn late |
| `Tftp.PlayIsSafe` | tools/tftp-server.py:108-147 | for every schedule the receiver has a prefix of the file, and all of it when the sender is done |
| `Tftp.Slide` | tools/tftp-server.py:108-147 | the nested loops do exactly what the schedule, losses included, makes of the system: verdict, bytes received and lateness |
| `Tftp.Transfer` | tools/tftp-server.py:95-147 | packing and sliding together, in terms of the file: the same outcome, a prefix of it, and all of it on success |
| `FsLock.LockKeeps` | fs/lwext4_port/fs_lock.c:65-81 | every load and store of fs_lock keeps the lock invariant |
| `FsLock.SpinKeeps` | include/aarch64/spin_lock_impl.h:22-38 | every step of the exclusive-access loop, with spurious store failures, keeps it |
| `FsLock.UnlockKeeps` | fs/lwext4_port/fs_lock.c:83-95 | every load and store of fs_unlock keeps it |
| `FsLock.StepKeeps` | fs/lwext4_port/fs_lock.c:60-95 | so does every step of any task on any CPU, including switches, migration and interrupt changes |
| `FsLock.EveryRunIsSafe` | fs/lwext4_port/fs_lock.c:60-95 | the invariant holds after every interleaving |
| `FsLock.StepAgrees` | fs/lwext4_port/fs_lock.c:60-95 | the calls a task has seen return and not yet undone are those its CPU counts: fs_lock returns exactly when it has added one |
| `FsLock.MutualExclusion` | fs/lwext4_port/fs_lock.c:60-95 | at most one task is between the return of its fs_lock and its call of the matching fs_unlock; its interrupts are off and the depth of its CPU is the number of its returned calls not undone |
| `FsLock.FreeWhenUnused` | fs/lwext4_port/fs_lock.c:83-95 | while nobody is inside and nobody is in a call the lock word is clear and has no owner |
| `FsLock.CallsAdvance` | fs/lwext4_port/fs_lock.c:60-95 | every access brings a call nearer its end unless the lock word is taken or a store-exclusive fails: fs_unlock always ends, fs_lock waits for nothing else |
| `FsLock.OwnerTestIsExact` | fs/lwext4_port/fs_lock.c:65-72 | the unlocked owner test succeeds exactly when the caller holds the lock |
| `FsLock.UnlockRestoresInterrupts` | fs/lwext4_port/fs_lock.c:83-95 | when the unlock that undoes the outermost lock returns, interrupts are as that lock found them |
| `FsLock.TooManyCpusBreakIt` | fs/lwext4_port/fs_lock.c:65-71 | with more CPUs than slots a run lets two tasks in at once: the bound on the CPU count is exact |
| `HeapBlocks.AlignUpIsAdequate` | fs/lwext4_port/kmalloc.c:25-26 | rounding a request covers it if and only if it is at most 2^32 - 16 |
| `HeapBlocks.LiveAreDisjoint` | fs/lwext4_port/kmalloc.c:49-79 | live allocations are 16-byte aligned and disjoint from each other and from all headers |
| `HeapBlocks.CarveKeeps` | fs/lwext4_port/kmalloc.c:60-76 | allocating keeps the tiling and yields a block of at least the size and less than 32 bytes more |
| `HeapBlocks.CarveTakesNoMore` | fs/lwext4_port/kmalloc.c:60-76 | afterwards there is room for a header and some bytes at an address if and only if there was before and the place does not overlap the new header and its rounded bytes |
| `HeapBlocks.CarveSpares` | fs/lwext4_port/kmalloc.c:60-76 | every live block stays where it is |
| `HeapBlocks.MergeKeeps` | fs/lwext4_port/kmalloc.c:88-100 | merging keeps the tiling and leaves no two free neighbours |
| `HeapBlocks.MergeSpares` | fs/lwext4_port/kmalloc.c:88-100 | merging keeps exactly the live blocks |
| `HeapBlocks.ReleaseKeeps` | fs/lwext4_port/kmalloc.c:81-100 | freeing keeps the layout invariant |
| `HeapBlocks.ReleaseSpares` | fs/lwext4_port/kmalloc.c:81-100 | freeing removes exactly the given block |
| `HeapBlocks.FailsOnlyWhenFull` | fs/lwext4_port/kmalloc.c:49-79 | first fit fails if and only if no stretch clear of live blocks could take header and request |
| `HeapBlocks.AllFreeIsFresh` | fs/lwext4_port/kmalloc.c:40-47 | a heap without live blocks is the one initial block |
| `HeapBlocks.EveryHistoryIsLaidOut` | fs/lwext4_port/kmalloc.c:40-100 | in every reachable state the blocks tile the heap and no two neighbours are free |
| `HeapBlocks.ReleaseAllRestores` | fs/lwext4_port/kmalloc.c:81-100 | freeing all live blocks in any order restores the single initial block |
| `HeapBytes.SplitSpells` | fs/lwext4_port/kmalloc.c:60-76 | the header writes of a split spell the carved block list in memory |
| `HeapBytes.JoinSpells` | fs/lwext4_port/kmalloc.c:88-100 | the header writes of a merge spell the joined block list |
| `KMalloc.Arena.Find` | fs/lwext4_port/kmalloc.c:55-60 | the list walk finds the first fit |
| `KMalloc.Arena.Malloc` | fs/lwext4_port/kmalloc.c:49-79 | 0 for no size or no fit, else the first fitting block, split so that it is less than 32 bytes over the rounded request; the contents of all live allocations are unchanged |
| `KMalloc.Arena.Coalesce` | fs/lwext4_port/kmalloc.c:88-100 | the loop merges all free neighbours and touches no live content |
| `KMalloc.Arena.Free` | fs/lwext4_port/kmalloc.c:81-100 | releases exactly the block; all other live contents unchanged |
| `KMalloc.Arena.Calloc` | fs/lwext4_port/kmalloc.c:103-110 | for every product: the handed-out bytes are zero and live contents unchanged, or the clearing would leave the arena, which is if and only if the wrapped product is above 2^32 - 16 and a block was handed out |
| `KMalloc.Arena.Realloc` | fs/lwext4_port/kmalloc.c:113-135 | same place when it fits; on growth the old contents are preserved and the old block released; on failure everything stays |
| `DmaRefs.PutKeeps` | driver/dma/dma_buf.c:119-147 | one holder fewer and one count fewer restore it; the page run is freed exactly when no holder is left |
| `DmaRefs.NewBufKeeps` | driver/dma/dma_buf.c:67-107 | a new buffer has one holder, for every size, given that the pages really asked for are fresh |
| `DmaRefs.RoundedIsRecorded` | driver/dma/dma_heap.c:32-33 | whenever a page is asked for, the length recorded in 64-bit arithmetic is the rounded size |
| `DmaRefs.EnoughPagesAsked` | driver/dma/dma_heap.c:32-40 | the page count asked of the allocator holds the buffer if and only if it is at most 2^32 - 1 pages |
| `RknpuDrm.StepKeeps` | driver/npu/rknpu_drm.c:288-501 | every operation keeps the invariant and undoes no history |
| `RknpuDrm.RunKeeps` | driver/npu/rknpu_drm.c:288-501 | so does every sequence of operations |
| `RknpuDrm.CountsAreHolders` | driver/dma/dma_buf.c:67-147 | after every sequence a used slot's count is its GEM objects plus open descriptors, at least one; an unused slot has none; the runs given for two slots do not overlap, nor do the recorded buffers if neither is above 2^32 - 1 pages |
| `RknpuDrm.HugeBufferOverlaps` | driver/dma/dma_heap.c:32-53 | above that bound two allocations end with overlapping recorded buffers |
| `RknpuDrm.LiveWhileHeld` | driver/dma/dma_buf.c:119-147 | a page run is out if and only if some used slot with a holder has it |
| `RknpuDrm.FreedOnce` | driver/dma/dma_buf.c:119-147 | over any run of operations a page run is freed at most once and stays in its slot until then |
| `RknpuDrm.NothingLeaks` | driver/npu/rknpu_drm.c:100-120 | with all descriptors closed and all objects gone every page run has been freed |
| `RknpuDrm.FoundByPhys` | driver/dma/dma_buf.c:159-177 | with no buffer above the bound, the search by physical address finds slot i if and only if the address lies in its buffer |
| `RknpuDrm.FoundIffMine` | driver/npu/rknpu_drm.c:72-132 | a lookup through an open file finds an id if and only if the object lives and was created through that file |
| `RknpuDrm.IdsNeverReused` | driver/npu/rknpu_drm.c:134-149 | over any run of operations an id keeps its place and its open file while it lives, and once gone never comes back |
| `RknpuDrm.OffsetRoundTrip` | driver/npu/rknpu_drm.c:449-475 | the MEM_MAP offset decodes to its id if and only if the id is below 2^52 - 2^28 |
| `RknpuDrm.OffsetStaysGood` | driver/npu/rknpu_drm.c:578-601 | at every later moment the offset resolves to the same address and size while the object lives, and to nothing afterwards |
| `RknpuDrm.HandleFindsObject` | driver/npu/rknpu_drm.c:437-438 | the 32-bit handle finds the object if and only if the id is below 2^32 |
| `RknpuDrm.ExportImport` | driver/npu/rknpu_drm.c:288-348 | exporting and importing yields an object for the same run, visible through the importing file alone |
| `RknpuDrm.CloseEndsExactlyItsObjects` | driver/npu/rknpu_drm.c:100-120 | closing ends every object created through the file and no other |
| `DrmLedger.HeapAllocServes` | kernel/fs/pseudofs/dev.c:56-101 | with a slot, a descriptor and the copy: the lowest free descriptor refers to the new run; otherwise no descriptor changes |
| `DrmLedger.MemCreateServes` | driver/npu/rknpu_drm.c:400-447 | with a slot and a table entry: a never used id names the new run through this file; otherwise no object changes; nothing at all unless contiguous and of some size |
| `DrmLedger.MemDestroyServes` | driver/npu/rknpu_drm.c:477-501 | succeeds if and only if the object, by its handle, or by its id if the handle is 0, lives and is this file's; it and no other ends |
| `DrmLedger.HandleToFdServes` | driver/npu/rknpu_drm.c:288-318 | succeeds if and only if the object lives, is this file's and a descriptor is free; the lowest free one then refers to the object's run, and nothing else changes |
| `DrmLedger.FdToHandleServes` | driver/npu/rknpu_drm.c:320-348 | succeeds if and only if the descriptor is open and the file has a table entry left; a never used id then names the same run through this file, and nothing else changes |
| `DrmLedger.DupFdServes` | driver/dma/dma_buf.c:274-278 | succeeds if and only if the descriptor is open and another is free; the lowest free one then refers to the same run, and nothing else changes |
| `DrmLedger.CloseFdServes` | driver/dma/dma_buf.c:280-283 | succeeds if and only if the descriptor is open; it and no other is then closed |
| `DrmLedger.CloseFileServes` | driver/npu/rknpu_drm.c:100-120 | exactly the objects created through the file end |
| `DrmLedger.TablesServe` | driver/npu/rknpu_drm.c:288-501 | every operation does to the ledger of objects, descriptors and runs what it is for, whatever the tables look like |
| `DrmLedger.OutWhileReferred` | driver/dma/dma_buf.c:119-147 | a page run is out if and only if an object or an open descriptor refers to it |
| `DrmLedger.RunsServe` | driver/npu/rknpu_drm.c:288-501 | both over every sequence of operations |
| `DrmDevice.Device.PutIndex` | driver/dma/dma_buf.c:184-187 | in place, equal to the function |
| `DrmDevice.Device.AllocBuf` | driver/dma/dma_buf.c:67-107 | the slot search loop and its failure paths, in place |
| `DrmDevice.Device.FindGem` | driver/npu/rknpu_drm.c:124-132 | the search loop finds the object |
| `DrmDevice.Device.HeapAlloc` | kernel/fs/pseudofs/dev.c:56-101 | a run and a descriptor for it, or neither and the run goes back (`DrmLedger.Serves`); invariant and history kept |
| `DrmDevice.Device.MemCreate` | driver/npu/rknpu_drm.c:400-447 | a run and an object for it, or neither and the run goes back (`DrmLedger.Serves`); invariant and history kept |
| `DrmDevice.Device.MemDestroy` | driver/npu/rknpu_drm.c:477-501 | ends the named object of this file and no other, or fails without effect (`DrmLedger.Serves`); invariant and history kept |
| `DrmDevice.Device.HandleToFd` | driver/npu/rknpu_drm.c:288-318 | one more descriptor for the object's run, or fails without effect (`DrmLedger.Serves`); invariant and history kept |
| `DrmDevice.Device.FdToHandle` | driver/npu/rknpu_drm.c:320-348 | one more object for the descriptor's run, or fails without effect (`DrmLedger.Serves`); invariant and history kept |
| `DrmDevice.Device.DupFd` | driver/dma/dma_buf.c:274-278 | one more descriptor for the same run, or fails without effect (`DrmLedger.Serves`); invariant and history kept |
| `DrmDevice.Device.CloseFd` | driver/dma/dma_buf.c:280-283 | closes the descriptor and no other, or fails without effect (`DrmLedger.Serves`); invariant and history kept |
| `DrmDevice.Device.CloseFile` | driver/npu/rknpu_drm.c:100-120 | the loop over the objects and the wipe end exactly the file's objects (`DrmLedger.Serves`); invariant and history kept |
| `DrmDevice.Device.MmapLookup` | driver/npu/rknpu_drm.c:578-601 | address and size of the slot the offset resolves to |
| `NpuMmu.EntryRoundTrip` | include/npu/npu_mmu.h:105-120 | directory and page entries decode to their address if and only if it is a 40-bit page address; they are valid, zero is not; page entries let the device read and write |
| `NpuMmu.WalkIsStage2` | driver/npu/npu_mmu.c:141-173 | whatever the device's walk through memory returns is the stage-2 translation of that page |
| `NpuMmu.Mmu.DropTables` | driver/npu/npu_mmu.c:183-189 | the free pages become exactly the free pages and the table pages, each once |
| `NpuMmu.Mmu.Enable` | driver/npu/npu_mmu.c:175-212 | a new range starts from empty tables with every table page back with the allocator; paging follows the readback |
| `NpuMmu.Mmu.Disable` | driver/npu/npu_mmu.c:264-284 | paging off and every table page back with the allocator; nothing when no range was set |
| `NpuMmu.Mmu.SetPte` | driver/npu/npu_mmu.c:166-173 | the page translates to its stage-2 page, no other page changes, an existing entry is not rewritten |
| `NpuMmu.Mmu.SyncPage` | driver/npu/npu_mmu.c:304-356 | the page is reached, or the allocator has run out before it had mapping and table; each page taken fills one that was missing |
| `NpuMmu.Mmu.Sync` | driver/npu/npu_mmu.c:295-356 | the whole range translates if and only if the allocator had a page for every missing mapping and table; no other page is taken, nothing outside changes, nothing reachable is lost, and a count of zero means unchanged tables |
| `CvitekTx.WholeIffFits` | driver/eth/cvitek_eth.c:546-568 | of the accepted lengths exactly those below 2048 leave whole: the length field keeps 11 bits |
| `CvitekTx.OwnedInterval` | driver/eth/cvitek_eth.c:542-583 | the owned descriptors are the cyclic interval from the engine to the head, full ring included |
| `CvitekTx.RoomIffFree` | driver/eth/cvitek_eth.c:550-556 | the head descriptor is owned exactly when 64 frames are in flight |
| `CvitekTx.TransmitKeeps` | driver/eth/cvitek_eth.c:542-583 | the engine can serve every descriptor the driver posts: while a frame is with it, its step sends the oldest one |
| `CvitekTx.FramesLeaveInOrder` | driver/eth/cvitek_eth.c:542-583 | in every interleaving the frames leave in order, padded to 60, and the owned interval is exact |
| `CvitekTx.TxRing.Reclaim` | driver/eth/cvitek_eth.c:421-432 | the tail moves towards the head over descriptors that have come back and no others, and stops at the head or at an owned one |
| `CvitekTx.TxRing.Send` | driver/eth/cvitek_eth.c:542-583 | accepted whenever the ring was not full and the length at most 2048; exactly the frame is appended, or nothing |
| `CvitekRx.OwnedInterval` | driver/eth/cvitek_eth.c:381-398 | the engine owns the cyclic interval from its position round to the driver's |
| `CvitekRx.ReleaseKeeps` | driver/eth/cvitek_eth.c:400-413 | giving a slot back keeps every waiting frame, and what was read from it is its frame, or nothing if bad |
| `CvitekRx.WaitingIffNotOwned` | driver/eth/cvitek_eth.c:593-601 | the descriptor at the driver's position is owned exactly when no frame waits |
| `CvitekRx.FramesArriveInOrder` | driver/eth/cvitek_eth.c:588-632 | in every interleaving what the driver has read for its callers is exactly the error-free frames among those taken, in arrival order |
| `CvitekRx.RxRing.ReadSlot` | driver/eth/cvitek_eth.c:603-627 | nothing for a bad frame, else its bytes without the check sequence, cut to the caller's room |
| `CvitekRx.RxRing.Recv` | driver/eth/cvitek_eth.c:588-632 | each call uses up the oldest waiting frame; what it returns is the frame it added to those given, cut to the caller's room |
| `Memory.CopyWord` | include/string_internal.h:74-80 | a wide access reads all before writing any, at aligned addresses |
| `Memory.MemCpy` | include/string_internal.h:53-107 | the destination becomes the old source, also when it overlaps it from below |
| `Memory.MemMove` | include/string_internal.h:156-173 | for all addresses, lengths and overlaps the destination becomes the old source and nothing else changes |
| `Memory.RepeatedBytes` | include/string_internal.h:128-146 | a word of repeated bytes lies in memory as that byte throughout |
| `Memory.MemSet` | include/string_internal.h:112-152 | equals the bytewise fill; c is cut to a byte |
| `Bitmap.Least` | lib/bitmap.c:74-92 | the first start at or after i of a clear run, or none: the naive search |
| `Bitmap.FromIsLeast` | lib/bitmap.c:50-72 | so does the whole search, where start + count does not wrap |
| `Bitmap.WrappedFrom` | lib/bitmap.c:50-72 | what it returns where start + count wraps |
| `Bitmap.FromRightIff` | lib/bitmap.c:50-72 | the search is right on every bitmap of a size if and only if start + count does not wrap, or start is 2^64 - 1 and one bit or all are asked for |
| `Bitmap.WrapFails` | lib/bitmap.c:50-72 | a concrete call that returns an index past the end |
| `Bitmap.BitSet.Put` | include/bitmap.h:54-92 | changes exactly the one bit of the packed bytes, or nothing past the end |
| `Bitmap.BitSet.PutRange` | include/bitmap.h:69-107 | changes exactly the bits of the range, wrapped indices included; nothing if the end is past the size |
| `Bitmap.BitSet.FindFrom` | lib/bitmap.c:50-72 | equals the search; the bits looked at strictly increase, so none is looked at twice |
| `Bitmap.BitSet.Find` | lib/bitmap.c:74-92 | the least start of a clear run, or none |
| `Bitmap.BitSet.NextFit` | kernel/mm/pmm.c:90-105 | the first run from the hint on, else the first from the bottom: fails if and only if no run exists anywhere; marks exactly a run that was clear |
| `Cpio.HeaderFixed` | tools/guest-initrd.py:96-102 | a header is 110 bytes if and only if all its numbers are below 2^32 |
| `Cpio.HeaderPlaces` | tools/guest-initrd.py:96-102 | every field of a header stands, in eight digits, where the newc format puts it |
| `Cpio.EntryRoundTrip` | tools/guest-initrd.py:75-106 | an entry built on a multiple of four is read back whole, with its raw bytes, and the parser stands behind it |
| `Cpio.ArchiveRoundTrip` | tools/guest-initrd.py:75-106 | any built entries come back exactly up to the first trailer, whatever follows it |
| `Cpio.InitrdRoundTrip` | tools/guest-initrd.py:75-106 | entries followed by the trailer come back exactly |
| `Cpio.Parse` | tools/guest-initrd.py:75-93 | the loop equals the recursive parser, errors and size fields of cut streams included |
| `Cache.NothingStale` | include/cache.h:127-154 | no line with a byte of the range stays cached |
| `Cache.OutsideKept` | include/cache.h:134-148 | a byte outside the range keeps what was written to it |
| `Cache.DeviceDataSeen` | include/cache.h:150-151 | bytes of wholly covered lines read as memory; of partial ones too, unless the line was dirty |
| `Cache.CleanReachesIff` | include/cache.h:110-122 | cleaning reaches every line of the range if and only if (addr mod L) + ((n - 1) mod L) < L |
| `Cache.CleanMissesTail` | include/cache.h:110-122 | a concrete range whose last line is missed |
| `Cache.CleanedIsSeen` | include/cache.h:110-122 | cleaning changes nothing the CPU reads and puts dirty visited lines in memory |
| `Cache.DCache.Clean` | include/cache.h:110-122 | the loop visits exactly those lines |
| `Cache.DCache.Invalidate` | include/cache.h:127-154 | for every line size and alignment, the range is invalidated |
| `Timer.ToNsExactIff` | driver/timer/timer.c:173-185 | exact nanoseconds if and only if they fit in 64 bits, up to 18.4 GHz |
| `Timer.FromUsExactIff` | driver/timer/timer.c:217-217 | exact ticks if and only if they fit, up to 2^64 / 10^6 microseconds |
| `Timer.FromMsExactIff` | driver/timer/timer.c:258-258 | the unsplit product is exact if and only if it fits |
| `Timer.DelayIsExact` | driver/timer/timer.c:275-280 | the delay loop goes on exactly while the delay has not passed, across counter wrap-around |
| `Timer.TimeoutIsExact` | driver/timer/timer.c:219-223 | the unsigned comparison is exact for less than a counter turn |
| `Timer.TicksKeepTime` | driver/timer/timer_riscv64_impl.h:94-203 | over any run of late interrupts and re-enables the count never decreases, is within one period of elapsed time, and the deadline is ahead by at most one period |
| `Timer.CountRightIff` | driver/timer/timer_riscv64_impl.h:198-203 | the computed count is the elapsed periods if and only if the elapsed time fits in 64 bits |
| `Timer.DeadlineAheadIff` | driver/timer/timer_riscv64_impl.h:94-146 | enabling sets a deadline in the future if and only if the counter is at least as fast as the tick frequency |
| `Timer.TickTimer.SetNext` | driver/timer/timer_riscv64_impl.h:129-146 | the absolute deadline by the stored or the asked period, or now when neither is known |
| `Timer.TickTimer.TurnOn` | driver/timer/timer_riscv64_impl.h:94-117 | equal to the step; on time when the counter is fast enough |
| `Timer.TickTimer.OnInterrupt` | driver/timer/timer_riscv64_impl.h:198-213 | equal to the step; on time and not counting back |
| `Printf.DigitsFit` | lib/vsnprintf.c:65-101 | 64-bit numbers have at most 20 decimal or 16 hexadecimal digits: the digit buffers suffice |
| `Printf.AtolRoundTrip` | include/string.h:127-152 | atol undoes the decimal rendering of every number |
| `Printf.DigitsSpell` | lib/vsnprintf.c:65-101 | in every base up to 16 the digits belong to the base, have no zero in front and spell the number |
| `Printf.LettersSpell` | lib/vsnprintf.c:207-246 | d, u, x and p spell their argument in base 10, 10, 16 and 16, the last two behind 0x on demand |
| `Printf.ZeroPaddedHex` | lib/vsnprintf.c:99-135 | zeros between 0x and the digits fill the width, prefix included, and leave the number alone |
| `Printf.JustifiedLength` | lib/vsnprintf.c:39-63 | a justified string is as long as the longer of width and text, and holds the text at its side |
| `Printf.SpellableIff` | lib/vsnprintf.c:70-78 | the digit lookup stays in its table if and only if the number is above the least 64-bit integer |
| `Printf.PlainText` | lib/vsnprintf.c:167-172 | text without a percent sign stands for itself |
| `Printf.WidthPads` | lib/vsnprintf.c:188-198 | a percent sign, a width and a letter print the value padded to that width |
| `Printf.SpellInt` | lib/vsnprintf.c:65-94 | sign and digits in order for every 64-bit number above the least one; no text for that one |
| `Printf.Stream.PrintStr` | lib/vsnprintf.c:39-63 | the padded string |
| `Printf.Stream.PrintInt` | lib/vsnprintf.c:65-97 | the justified number, defined if and only if it is above the least 64-bit integer |
| `Printf.Stream.PrintUnsigned` | lib/vsnprintf.c:99-135 | the padded number with its prefix before or inside the padding |
| `Printf.Convert` | lib/vsnprintf.c:169-255 | flags, width, modifiers and letter, ending for every format |
| `Printf.Format` | lib/vsnprintf.c:153-260 | returns the length of the unbounded rendering; the buffer holds its first min(size - 1, length) characters and a NUL, nothing behind changes; defined if and only if no least integer is printed in decimal |

## Left out

- VirtioNet.TxPath.Send: does not model the doorbell, memory barriers and the write-only arrays `tx_busy` and `tx_head_to_buf`; the two queues of a NIC are two objects.
- Tftp.Transfer: starts after the options are agreed (block size at least 1, window 1 to 128); the negotiation and its retries are socket I/O.
- FsLock.EveryRunIsSafe: memory is sequentially consistent; preemption counts, the trylock and the irqsave variants add no state to the lock.
- KMalloc.Arena.Calloc: does not perform the clearing that would leave the arena; it reports it.
- RknpuDrm.StepKeeps: treats each ioctl as one operation; two ioctls on the same buffer are not interleaved between their locks.
- RknpuDrm.ExportImport: the descriptor table is the dma-buf part of the shared pool; other descriptor kinds and per-task numbers are one yes-or-no parameter.
- DrmDevice.Device.DupFd: models the dup callback and its new pool entry, not the dup system call around it.
- RknpuDrm.RunKeeps: the per-file object counter n_gems is not modelled; nothing reads it.
- NpuMmu.Mmu.Sync: covers ranges below 4 GiB that start on a page, as the table index demands; a stage-2 mapping takes one page, without the pages of stage 2's own tables; cache cleaning and TLB commands are not modelled.
- NpuMmu.Mmu.Enable: the register banks are one readback answer; the status poll only logs.
- CvitekRx.RxRing.Recv: frames fit one buffer with their check sequence; frames over several descriptors do not occur at standard sizes.
- CvitekTx.TxRing.Send: the engine sees descriptor writes in program order; cache maintenance and barriers are not modelled.
- Bitmap.BitSet.FindFrom: bitmaps have fewer than 2^63 bits.
- Cpio.Parse: names are bytes, so the UTF-8 coding is not modelled; a field is eight hexadecimal digits, without the blanks and underscores Python would also read.
- Printf.Format: arguments have the type their conversion reads and widths fit an int; what printing the least 64-bit integer leaves in the buffer is not modelled.
- Timer.TickTimer.OnInterrupt: only the tick variables; seconds, statistics and callbacks follow from them or are hooks.
- Scheduler, stage-2 page tables, VMM, system calls, boot and trap code, interrupt controllers, PHY and clock bring-up: assembly, register programming or polling.
- driver/npu/rknpu.c job submission: depends on device interrupt timing.
- driver/ion/ion.c: the same reference-count table as dma_buf.c.
- UART buffers, lists, qsort, log masks and driver dispatch: easier than the parts above.
- DRM version, unique, action, sync and submit ioctls: constants and cache maintenance over a lookup that is modelled.
- clean_and_invalidate_dcache_range: the same loop as the clean.

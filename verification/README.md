# OPAE C library: proofs about its list, reference and enumeration algorithms

A Dafny model of the parts of the OPAE SDK that keep state in linked structures, and proofs of what they promise over
whole runs. Dafny 4.11 checks everything with `dafny verify dfyconfig.toml`.

Each imperative part has two layers. A *specification* layer says as functions on values (sequences of blocks, maps of
tokens, sequences of rows) what one call does, branch by branch, with the answers of malloc, mmap, ioctl, adapters and
the file system as arguments; the results over runs are proved there. A *heap* layer holds the same objects as the C
code (ring and list nodes, fields, arrays), relinks them in place, and is proved to compute those functions. The ghost
field `heap`, `live` or `members` of a class says which allocations exist, so that freeing requires a live one.

What those functions mean is stated apart from them. The modules whose names end in Effects, and MetadataText,
PluginStarts and the lemmas beside the other specifications, say in terms of holders, addresses, adapters, candidates
and JSON fields what a call changes, what it leaves alone and exactly when it succeeds.

| files | part of the SDK |
|---|---|
| Word, Lists, Results | 32- and 64-bit wrap-around, sequence edits, return codes |
| Rings, Chains | circular doubly linked lists with a sentinel; singly linked lists ending in null |
| Blocks, AllocSpec, AllocProofs, AllocRuns, MemAlloc | the logical address allocator of libopaemem |
| Masks, BufferSizes | bitwise masks, and the roundings that the plugin and the reservation apply to a buffer size |
| VfioSpec, VfioRuns, VfioPages, VfioEffects, Vfio | DMA buffers of one VFIO device on top of that allocator |
| PluginBuffers, PluginEffects, VfioPlugin | the VFIO plugin's list of buffers by workspace id, over any number of devices |
| TokenSpec, TokenProofs, TokenRuns, TokenEffects, Tokens, ApiShell | wrapped tokens, handles and properties with a parent, and the API calls on them |
| EnumerateSpec, EnumerateEffects, EnumerateWraps, Enumerate | fpgaEnumerate over several adapters, with its filters unwrapped for a while |
| XfpgaSpec, XfpgaEffects, Xfpga | enumeration in the native plugin, with and without ports |
| ErrorListSpec, ErrorList | the recursive error-list builder |
| MetadataSpec, MetadataText, Metadata | parsing and releasing bitstream metadata, and reading back what was written |
| PluginSpec, PluginStarts, Plugins | platform detection and loading of native plugins |
| PathScan | the search of a path for ".." |

## Reading the results

Where the code does not keep a promise on every input, the model keeps the code's behaviour and the condition under
which the promise holds is proved, in both directions:

- `mem_alloc_add_free` compares with the first free block only, so a second free is not noticed in general; a region is
  taken in correctly if and only if it is disjoint from free space and does not complete the whole 64-bit space
  (`AllocProofs.AddFreeExact`). In the second case the size of the single remaining block wraps to zero
  (`AllocProofs.WholeSpaceIsLost`). The results over runs therefore speak of one address, `hole`, that is never handed
  to the allocator; a block may still end at 2^64. What callers owe can be read off the calls alone
  (`AllocRuns.Orderly`, `AllocRuns.OrderlyIsAllowed`).
- A get of size zero succeeds and hands the same address out again (`AllocRuns.GetKeepsIffPositive`).
- A put whose inner malloc fails loses the range (`AllocRuns.PutLosesRangeWithoutMalloc`).
- A buffer size whose rounding passes 2^64 is reserved as zero (`BufferSizes.ReservedSizeIsLeastMultiple`,
  `VfioRuns.AllocateKeepsIffRoundable`), and the plugin's rounding is zero above 2^64 - 2^30
  (`BufferSizes.PreparedSizeFits`).
- An allocation that fails behind its reservation keeps the IOVA range (`VfioRuns.AllocateKeepsAllIff`); the space is
  still tracked (`VfioRuns.RunConservesSpace`).
- Workspace ids start again at 0 behind 2^64 - 1, and then no longer decrease along the list (`PluginRuns.PrepareDecreasingIff`).
- A buffer released through another device stays with its own (`PluginRuns.ReleaseAgreesIff`), and entries that outlive
  a closed device disturb one that is opened in its place (`PluginRuns.OpenAgreesIff`).
- The 32-bit count of a token wraps behind 2^32 - 1 references (`TokenProofs.UprefLive`).
- Setting a parent drops the old one first, which may be the last reference to the new one
  (`TokenProofs.NewParentSurvivesIff`).
- The match count of `fpgaEnumerate` with a token array can fall short of the total (`EnumerateSpec.EnumerateCounts`,
  `EnumerateSpec.CountFallsShort`).
- A filter that is listed twice with a wrapped parent is refused, because it holds an adapter's token by then; it still
  ends with its own parent (`Enumeration.Unwrapping`, `Enumeration.FpgaEnumerate`).

## Model

| member | source | states |
|---|---|---|
| Rings.RelinkBefore | libopaemem/mem_alloc.c:100-106 | Linking a node in front of another makes a ring that runs once through the same nodes with the new one inserted, in both directions |
| Rings.RelinkAround | libopaemem/mem_alloc.c:108-112 | Unlinking a node makes a ring that runs once through the others, in both directions |
| MemAllocator.MemAlloc.constructor | libopaemem/mem_alloc.c:55-65 | A new allocator has two empty rings and holds no node |
| MemAllocator.MemAlloc.JoinPrevious | libopaemem/mem_alloc.c:123-130 | The block takes over its left neighbour exactly when that one ends, in 64-bit arithmetic, where it begins; the neighbour is freed |
| MemAllocator.MemAlloc.JoinNext | libopaemem/mem_alloc.c:132-140 | The right neighbour takes over the block under the same condition; the block is freed |
| MemAllocator.MemAlloc.Coalesce | libopaemem/mem_alloc.c:114-141 | Relinking in place computes the two-sided join on the sequence of free blocks and leaves the other ring alone |
| MemAllocator.MemAlloc.Walk | libopaemem/mem_alloc.c:154-173 | The walk stops at the first free block that does not begin below the address |
| MemAllocator.MemAlloc.AddFree | libopaemem/mem_alloc.c:143-179 | Return code and free ring are what AllocSpec.AddFree says of the old ring, for every region and every answer of malloc; both rings stay well formed and hold exactly the live nodes |
| MemAllocator.MemAlloc.Recycle | libopaemem/mem_alloc.c:186-192 | On an exact fit the node itself moves from the free ring to the end of the other |
| MemAllocator.MemAlloc.Split | libopaemem/mem_alloc.c:194-210 | Otherwise the free block loses its front and a new node for that front goes to the end of the ring in use |
| MemAllocator.MemAlloc.AllocateNode | libopaemem/mem_alloc.c:181-211 | Either of the two, or failure without any change when malloc refuses the node of a split |
| MemAllocator.MemAlloc.Get | libopaemem/mem_alloc.c:213-225 | Code, address and both rings are what AllocSpec.Get says of the old rings |
| MemAllocator.MemAlloc.FreeNode | libopaemem/mem_alloc.c:227-240 | The node leaves the ring in use and is freed before its range is added to the free ring |
| MemAllocator.MemAlloc.Put | libopaemem/mem_alloc.c:242-254 | Code and both rings are what AllocSpec.Put says of the old rings |
| MemAllocator.MemAlloc.Destroy | libopaemem/mem_alloc.c:67-85 | Both rings end empty and every node that malloc gave out has been freed |
| AllocProofs.AddFreeKeeps | libopaemem/mem_alloc.c:143-179 | A region disjoint from free space, the two leaving some address out, is taken in exactly and the list stays ascending with no two blocks touching |
| AllocProofs.AddFreeExact | libopaemem/mem_alloc.c:143-179 | Add-free does its job if and only if the region is disjoint from the free blocks and does not complete the whole 64-bit space |
| AllocProofs.OverlapNotCanonical | libopaemem/mem_alloc.c:154-176 | A region that overlaps free space is refused or leaves a list that is no longer in order |
| AllocProofs.WholeSpaceIsLost | libopaemem/mem_alloc.c:121-139 | Counterexample: the whole space added in two halves coalesces into one block whose size has wrapped to zero |
| AllocProofs.CoalesceKeeps | libopaemem/mem_alloc.c:114-141 | Joining on both sides restores the canonical form and covers the same addresses |
| Blocks.CanonicalUnique | libopaemem/mem_alloc.c:114-179 | A set of addresses has only one canonical list, that of its maximal runs |
| AllocProofs.FitIffAvailable | libopaemem/mem_alloc.c:216-222 | First fit finds a block if and only if that many consecutive addresses are free |
| AllocProofs.GetLowestFit | libopaemem/mem_alloc.c:213-225 | With memory, get succeeds if and only if a long enough run of free addresses exists, and returns the lowest base of any |
| AllocProofs.FailedGetChangesNothing | libopaemem/mem_alloc.c:181-225 | A get that fails, for want of space or of memory, leaves both lists as they were |
| AllocProofs.CutFrontKeeps | libopaemem/mem_alloc.c:186-210 | Cutting the front off a free block removes exactly those addresses and keeps the list canonical |
| AllocRuns.StepKeeps | libopaemem/mem_alloc.c:143-254 | Every call keeps the invariant whatever malloc answers, and with malloc changes the tracked addresses by the added region only |
| AllocRuns.RunKeeps | libopaemem/mem_alloc.c:143-254 | Over every run whose calls are allowed where they are made: free list canonical, all free and allocated blocks pairwise disjoint and within the space |
| AllocRuns.RunConserves | libopaemem/mem_alloc.c:143-254 | Over every run without a refused malloc, free and allocated addresses together are exactly the regions added |
| AllocRuns.AllReturnedRestores | libopaemem/mem_alloc.c:143-254 | A run of orderly calls that returns every allocation, in any order, leaves exactly the free list that adding its regions alone gives |
| AllocRuns.GetThenPut | libopaemem/mem_alloc.c:213-254 | A get followed by the put of its result restores both lists |
| AllocRuns.PutExactlyLiveBases | libopaemem/mem_alloc.c:227-254 | Put succeeds exactly on bases of live allocations and never meets the double-free return |
| AllocRuns.GetKeepsIffPositive | libopaemem/mem_alloc.c:181-225 | A successful get keeps the state sound if and only if the size is positive; a size of zero hands the same address out again |
| AllocRuns.PutLosesRangeWithoutMalloc | libopaemem/mem_alloc.c:236-239 | When malloc fails inside put the range is neither free nor allocated afterwards |
| Masks.MaskClearsLow | libopaevfio/opaevfio.c:600-601 | And with the ones from bit k up clears exactly the bits below k, bit by bit |
| BufferSizes.ReservedSizeIsLeastMultiple | libopaevfio/opaevfio.c:594-606 | For every power-of-two page the masked size is the least multiple of it that is at least size, if and only if that fits in 64 bits; otherwise it is zero |
| BufferSizes.WholePagesKept | libopaevfio/opaevfio.c:600-601 | A size in whole 4 KiB pages is not changed by the reservation |
| BufferSizes.PreparedSizeFits | plugins/vfio/opae_vfio.c:1193-1215 | For every length the plugin asks for a size that the reservation leaves alone and that is a multiple of the page mmap then uses; it holds the request if and only if the length is at most 2^64 - 2^30, with less than one page to spare; the page is 4 KiB, 2 MiB or 1 GiB by the tier of the length |
| Chains.Chain.PushFront | libopaevfio/opaevfio.c:745-746 | A cell at the head, the rest of the list unchanged |
| Chains.Chain.Unlink | libopaevfio/opaevfio.c:788-795 | The cell at a position leaves the list, wherever it stands |
| VfioDevice.OpaeVfio.IovaDiscover | libopaevfio/opaevfio.c:562-580 | The add-free loop leaves what adding the reported ranges in turn gives; ranges without a list node are skipped |
| VfioDevice.OpaeVfio.IovaReserve | libopaevfio/opaevfio.c:594-606 | Code, rounded size, address and allocator are those of a get of the rounded size |
| VfioDevice.OpaeVfio.BufferAllocate | libopaevfio/opaevfio.c:675-769 | Code, size, addresses, buffer list and allocator on every path, with mmap, the ioctl and malloc failing |
| VfioDevice.OpaeVfio.DestroyBuffer | libopaevfio/opaevfio.c:625-653 | Every buffer of a list is given back to the allocator in turn and its node is freed once |
| VfioDevice.OpaeVfio.FindBuffer | libopaevfio/opaevfio.c:788-789 | The search finds the first buffer mapped at the address |
| VfioDevice.OpaeVfio.BufferFree | libopaevfio/opaevfio.c:771-808 | The buffer found leaves the list and its IOVA range goes back; an unknown address changes nothing |
| VfioDevice.OpaeVfio.Destroy | libopaevfio/opaevfio.c:472-483 | No buffer node and no allocator node is left live |
| VfioRuns.RunKeeps | libopaevfio/opaevfio.c:594-808 | Over every run, failing steps included, each recorded buffer owns one allocated IOVA block of its base and size |
| VfioRuns.RunOwnsAll | libopaevfio/opaevfio.c:675-808 | Over every run in which no allocation fails behind its reservation, buffers and allocated blocks correspond one to one, malloc failing at will inside the allocator |
| VfioRuns.BuffersDisjoint | libopaevfio/opaevfio.c:675-808 | Two recorded buffers never share an IOVA address |
| VfioRuns.FreeKeeps | libopaevfio/opaevfio.c:771-808 | A free keeps both the ownership and the one-to-one correspondence |
| VfioRuns.AllocateThenFree | libopaevfio/opaevfio.c:675-808 | Freeing the buffer just allocated restores the device |
| VfioRuns.AllocateKeepsIffRoundable | libopaevfio/opaevfio.c:594-606 | An allocation that got an address keeps the device sound if and only if the size, rounded to pages, stays below 2^64 |
| VfioRuns.AllocateKeepsAllIff | libopaevfio/opaevfio.c:717-768 | An allocation keeps the correspondence if and only if its size is zero, or no range can be reserved, or mmap, ioctl and node behind the reservation work: the range is not given back |
| VfioRuns.CloseRestoresDiscovered | libopaevfio/opaevfio.c:472-483 | If no allocation failed behind its reservation and no free was refused a node, giving back the buffers leaves exactly the discovered free list |
| VfioPages.DiscoverIsRun | libopaevfio/opaevfio.c:562-580 | Discovery is a run of add-free calls, so all results about allocator runs apply |
| VfioPages.DiscoverSound | libopaevfio/opaevfio.c:562-580 | Ranges that are not empty, pairwise disjoint and leave out some address set up a sound device, which is page-aligned if they are |
| VfioPages.RunOnPages | libopaevfio/opaevfio.c:594-808 | From page-aligned ranges every run keeps all free and allocated blocks on page boundaries |
| VfioPages.BuffersOnPages | libopaevfio/opaevfio.c:675-769 | IOVA and size of every recorded buffer are multiples of the page |
| VfioPluginState.VfioPlugin.Push | plugins/vfio/opae_vfio.c:1234-1243 | A new entry at the head, under the id after that of the old head |
| VfioPluginState.VfioPlugin.PrepareBuffer | plugins/vfio/opae_vfio.c:1197-1259 | Result, id, entry list and device on every path, with the buffer given back when the entry cannot be allocated |
| VfioPluginState.VfioPlugin.Find | plugins/vfio/opae_vfio.c:1278-1295 | The walk finds the first entry with the id and the entry before it |
| VfioPluginState.VfioPlugin.ReleaseBuffer | plugins/vfio/opae_vfio.c:1261-1300 | The entry found is unlinked and its address freed through the device of the handle; an unknown id changes nothing |
| VfioPluginState.VfioPlugin.GetIOAddress | plugins/vfio/opae_vfio.c:1302-1326 | The address of the first entry with the id, or not found |
| PluginRuns.PrepareDecreasingIff | plugins/vfio/opae_vfio.c:1239-1241 | A prepare keeps the ids strictly decreasing if and only if the newest one is not the last 64-bit id |
| PluginRuns.RunDecreasing | plugins/vfio/opae_vfio.c:1197-1300 | After every run of opens, closes, prepares and releases with no more prepares than ids are left, 2^64 of them from an empty list, the ids strictly decrease along the list, so none repeats |
| PluginRuns.AddressUntilReleased | plugins/vfio/opae_vfio.c:1302-1326 | Over every such run that does not release an id, its IO address stays what it was |
| PluginRuns.PreparedAddress | plugins/vfio/opae_vfio.c:1197-1326 | Right after a prepare, the IO address of its id is the IOVA of the device's new buffer |
| PluginRuns.RunAgrees | plugins/vfio/opae_vfio.c:1197-1300 | Over every run, devices coming and going, that releases through the preparing handle and opens no device of which entries are left, each open device's own list is the plugin's list restricted to it, in order |
| PluginRuns.ReleaseAgreesIff | plugins/vfio/opae_vfio.c:1265-1282 | A release keeps the lists in agreement if and only if it goes through the device that prepared the buffer |
| TokenRing.TokenList.Upref | libopae-c/api-shell.c:71-92 | One reference more, with 32-bit wrap; the first puts the wrapper at the head of the ring |
| TokenRing.TokenList.Allocate | libopae-c/api-shell.c:51-69 | A wrapper with one reference on the ring, or nothing without memory |
| TokenRing.TokenList.Unlink | libopae-c/api-shell.c:104-105 | A live wrapper leaves the ring and the others keep their order |
| TokenRing.TokenList.Dispose | libopae-c/api-shell.c:102-114 | The end of a wrapper: off the ring, its token handed to the adapter's destroy if there is one, itself gone |
| TokenRing.TokenList.Downref | libopae-c/api-shell.c:94-131 | One reference less; the last one disposes of the wrapper and returns what destroy returns |
| TokenRing.TokenList.GetParentToken | libopae-c/api-shell.c:310-397 | The parent found for a child is what ParentOf says of the ring |
| TokenRing.TokenList.Scan | libopae-c/api-shell.c:351-388 | The walk over the ring finds what FindParent says |
| TokenProofs.UprefLive | libopae-c/api-shell.c:71-92 | Taking a reference together with its new holder keeps the reference-count equation if and only if the count is below 2^32 - 1 |
| TokenProofs.DownrefLive | libopae-c/api-shell.c:94-131 | Dropping one together with its holder keeps it, and the wrapper survives if and only if another holder is left |
| TokenProofs.FindParentNewest | libopae-c/api-shell.c:351-388 | The scan succeeds if and only if some device on the ring has the child's address and no newer wrapper fails to answer, and then returns the newest such device |
| TokenProofs.ParentIsLiveDevice | libopae-c/api-shell.c:310-397 | A parent is a live wrapper of a device at the child's address |
| TokenProofs.NewParentSurvivesIff | libopae-c/props.c:219-229 | The token passed to SetParent outlives the drop of the old parent if and only if it was not the old parent with its last reference; a reference of the caller's is enough |
| TokenProofs.NewTokenKeeps | libopae-c/api-shell.c:51-69 | A fresh wrapper of the client's keeps the invariant |
| TokenProofs.OpenKeeps | libopae-c/api-shell.c:242-277 | Opening keeps the invariant if and only if the token is held less than 2^32 - 1 times |
| TokenProofs.CloseKeeps | libopae-c/api-shell.c:279-295 | Closing keeps the invariant |
| TokenProofs.DestroyTokenKeeps | libopae-c/api-shell.c:880-893 | Destroying a token reference keeps the invariant |
| TokenProofs.AttachKeeps | libopae-c/props.c:219-229 | Giving properties a parent keeps the invariant if and only if the parent is held less than 2^32 - 1 times |
| TokenProofs.DetachKeeps | libopae-c/props.c:159-179 | Taking the parent away keeps it, and every other token survives |
| TokenRuns.StepKeeps | libopae-c/api-shell.c:242-532 | Every API call keeps the invariant |
| TokenRuns.RunCountsExactly | libopae-c/api-shell.c:51-131 | After every run, ref_count of each wrapper is the number of client references, open handles and properties that hold it, and the ring holds exactly the wrappers for which that number is positive |
| TokenRuns.DestroyedOnceAndNeverWhileOpen | libopae-c/api-shell.c:94-131 | Over every run the adapter destroys each of its tokens at most once, and never one with a handle open on it |
| TokenRuns.AllReturnedLeavesNothing | libopae-c/api-shell.c:94-131 | When everything is given back the ring is empty and no wrapper is left |
| TokenRuns.OwnedOrOpenIsLive | libopae-c/opae_int.h:115-122 | A token the client owns or has a handle open on is live and on the ring |
| ApiShellState.ApiShell.Validate | libopae-c/opae_int.h:115-122 | Exactly the live wrappers pass the magic test |
| ApiShellState.ApiShell.FpgaOpen | libopae-c/api-shell.c:242-277 | Result code on every path; on success the handle holds one more reference to the token and uses its adapter |
| ApiShellState.ApiShell.NewHandle | libopae-c/api-shell.c:155-172 | A wrapped handle takes a reference |
| ApiShellState.ApiShell.FpgaClose | libopae-c/api-shell.c:279-295 | Result code on every path; the handle's reference is dropped even if the adapter's close fails |
| ApiShellState.ApiShell.DestroyHandle | libopae-c/opae_int.h:163-168 | The handle's reference is dropped and the handle is gone |
| ApiShellState.ApiShell.FpgaCloneToken | libopae-c/api-shell.c:843-878 | Result code on every path; without memory for a wrapper the clone is destroyed again |
| ApiShellState.ApiShell.FpgaDestroyToken | libopae-c/api-shell.c:880-893 | Result code; one of the client's references is dropped |
| ApiShellState.ApiShell.ReleaseOwned | libopae-c/opae_int.h:128-132 | Dropping a client reference changes the state as DestroyToken says |
| ApiShellState.ApiShell.FpgaGetProperties | libopae-c/api-shell.c:434-483 | Result code on every path; the new properties hold a reference to the parent that is found, if any |
| ApiShellState.ApiShell.FpgaGetPropertiesFromHandle | libopae-c/api-shell.c:399-432 | The same for the token of a handle, under the adapter's own entry for handles |
| ApiShellState.ApiShell.FpgaUpdateProperties | libopae-c/api-shell.c:485-532 | The old parent is dropped before the adapter is asked, the new one attached only if it succeeds |
| ApiShellState.ApiShell.CreateProperties | libopae-c/props.c:43-84 | New properties without a parent |
| ApiShellState.ApiShell.FpgaDestroyProperties | libopae-c/props.c:86-118 | The parent's reference is dropped and the object is gone |
| ApiShellState.ApiShell.FpgaCloneProperties | libopae-c/props.c:120-157 | The clone has the same parent and a reference of its own to it |
| ApiShellState.ApiShell.FpgaClearProperties | libopae-c/props.c:159-179 | The parent's reference is dropped and no parent is left |
| ApiShellState.ApiShell.FpgaPropertiesSetParent | libopae-c/props.c:206-237 | Drops the old parent and then takes the new one; a null parent is refused |
| Enumeration.EnumContext.StoreAll | libopae-c/api-shell.c:682-702 | As many of an adapter's tokens as fit are wrapped, put on the ring and stored; slots behind are untouched |
| Enumeration.EnumContext.Visit | libopae-c/api-shell.c:645-703 | What visiting one adapter does to array, match count and error count, and whether the walk stops |
| Enumeration.EnumContext.ForEachAdapter | libopae-c/pluginmgr.c:789-812 | The walk over the adapters until one visit stops it |
| Enumeration.UnwrapOne | libopae-c/api-shell.c:766-812 | One filter: refused, left alone, or its wrapped parent replaced and remembered |
| Enumeration.Unwrap | libopae-c/api-shell.c:764-813 | Result of the loop over the filters, also for one that occurs twice; what was changed is exactly what the fixups remember |
| Enumeration.Restore | libopae-c/api-shell.c:824-838 | Every remembered filter gets its parent back |
| Enumeration.FpgaEnumerate | libopae-c/api-shell.c:705-841 | Result and match count on every path; on every path each filter ends with the parent it began with; the array begins with the new wrappers on the ring, one reference each, one for each token written |
| EnumerateSpec.WritesFirstTokens | libopae-c/api-shell.c:645-703 | With memory, exactly the first max tokens of all adapters together are written, in adapter order and each with its adapter |
| EnumerateSpec.EnumerateCounts | libopae-c/api-shell.c:645-703 | Written are min(max, total) tokens, which is also min(max, match count); the count falls short of the total if and only if some adapter behind adapters whose matches fill the array has a match |
| EnumerateSpec.CountOnlyIsTotal | libopae-c/api-shell.c:675-680 | Without a token array the match count is the total over all adapters, modulo 2^32 |
| EnumerateSpec.NeverPastMax | libopae-c/api-shell.c:653-656 | Whatever fails, no slot past max is written |
| Xfpga.MatchesFilter | plugins/xfpga/enum.c:72-277 | True exactly when the device agrees with every field the filter states, the shared union included |
| Xfpga.MatchesFilters | plugins/xfpga/enum.c:279-293 | True exactly when there is no filter or some filter matches |
| Xfpga.IncludeAfu | plugins/xfpga/enum.c:583-600 | True exactly when some filter leaves room for an accelerator |
| Xfpga.DevList.AddDev | plugins/xfpga/enum.c:295-319 | A zeroed node with its two paths, spliced in behind its parent wherever that stands |
| Xfpga.DevList.EnumFme | plugins/xfpga/enum.c:321-351 | An FME node behind its region, with the region's address, itself as FME |
| Xfpga.DevList.EnumAfu | plugins/xfpga/enum.c:482-517 | An AFU node behind its FME, or behind its region if there is none, with the same FME pointer |
| Xfpga.DevList.EnumRegions | plugins/xfpga/enum.c:519-566 | Region, FME and AFU of a device at the end of the list in this order, each only if it exists; fails exactly when one of the nodes it needs is refused |
| Xfpga.DevList.EnumDevices | plugins/xfpga/enum.c:568-574 | The whole list, in the order of the devices |
| Xfpga.DevList.SyncFme | plugins/xfpga/enum.c:353-415 | An FME that answers carries its attributes, and its socket id is known from then on |
| Xfpga.DevList.SyncAfu | plugins/xfpga/enum.c:417-480 | An AFU that answers carries its attributes and the socket id of its own device's FME |
| Xfpga.DevList.Visit | plugins/xfpga/enum.c:735-745 | Containers and resources that do not answer are passed over |
| Xfpga.Collect | plugins/xfpga/enum.c:733-767 | The walk counts the matches in the list and makes tokens for the first of them; a token that cannot be made ends it with a count of zero |
| Xfpga.XfpgaEnumerate | plugins/xfpga/enum.c:688-777 | Result, count and array on every path, stated over all candidates with ports, although ports may have been left out; every node of the device list is freed once the list is built |
| XfpgaSpec.SkippingPortsIsSafe | plugins/xfpga/enum.c:583-600 | Leaving out ports when include_afu says so changes neither the matches nor their order, for any devices and filters |
| XfpgaSpec.GroupsOrdered | plugins/xfpga/enum.c:519-566 | In the list each AFU directly follows the FME of its own device, if that has one |
| XfpgaSpec.GroupsAttrs | plugins/xfpga/enum.c:519-574 | The list stands for exactly the candidates of the devices |
| ErrorList.BuildErrorList | plugins/xfpga/error.c:221-368 | Through the moving slot pointer and the recursion: the old list stays as a prefix, exactly the entries of Build follow, and their number modulo 2^32 is returned; without a list only the number |
| ErrorList.CloneErrorList | plugins/xfpga/error.c:375-405 | A copy of all entries, or an empty list if one malloc fails; the source is untouched |
| ErrorList.LastSlot | plugins/xfpga/error.c:357-358 | Walking on from any slot of the list ends at its last one |
| ErrorListSpec.BuildIsEligibleFiles | plugins/xfpga/error.c:233-366 | On any directory tree, with memory, the entries are exactly those of the eligible files in the order of a depth-first walk |
| ErrorListSpec.CountModeAgrees | plugins/xfpga/error.c:370-373 | Counting without a list gives the number that building one would append |
| Metadata.ParseCluster | libbitstream/metadatav1.c:38-70 | Result of the first step that fails; then nothing it allocated is left; on success the two strings are |
| Metadata.ParseClusters | libbitstream/metadatav1.c:186-194 | How many clusters are filled at the end, each from its own object, none sharing a string |
| Metadata.FreeStrings | libbitstream/metadatav1.c:204-208 | The strings of the filled clusters are freed, each once |
| Metadata.AfuImage.ParseHeader | libbitstream/metadatav1.c:82-158 | Quantities in either notation with 0 when missing, magic number, interface and its id; the result of the first step that fails |
| Metadata.AfuImage.Parse | libbitstream/metadatav1.c:72-214 | Fails leaving the live allocations as they were, or adds exactly those of the image |
| Metadata.ParseMetadata | libbitstream/metadatav1.c:216-261 | Succeeds if and only if the tree is well formed and memory suffices; a failed parse leaves the live allocations as they were; a successful one adds exactly what the metadata owns, carries what the tree says and returns the interface id |
| Metadata.ReleaseMetadata | libbitstream/metadatav1.c:263-289 | Frees exactly what the metadata owns, each allocation once |
| Metadata.ParseAndRelease | libbitstream/metadatav1.c:216-289 | Parsing and, if that worked, releasing leaves the live allocations as they were, on every tree and every heap |
| MetadataSpec.ImageParsesIff | libbitstream/metadatav1.c:134-194 | An image parses if and only if its tree is well formed and its two mallocs and two per cluster are granted |
| MetadataSpec.ParsesIff | libbitstream/metadatav1.c:216-253 | Metadata parses if and only if its own allocation is granted and its image parses; a refused platform name does not matter |
| MetadataSpec.ClustersResultOk | libbitstream/metadatav1.c:38-70 | All clusters parse if and only if each is well formed and two mallocs for each are granted |
| Plugins.PluginMgr.DetectPlatform | libopae-c/pluginmgr.c:526-542 | Exactly the rows of the device are flagged |
| Plugins.PluginMgr.DetectPlatforms | libopae-c/pluginmgr.c:544-632 | The rows of all devices read before the scan ended are flagged; one error if it ended badly |
| Plugins.PluginMgr.RegisterAdapter | libopae-c/pluginmgr.c:506-524 | The adapter becomes the last entry of the list |
| Plugins.PluginMgr.AlreadyLoaded | libopae-c/pluginmgr.c:699-708 | True exactly when some row with the same plugin is flagged as loaded |
| Plugins.PluginMgr.LoadDetected | libopae-c/pluginmgr.c:676-741 | Flags, adapter list, errors and platform count of the loading loop |
| Plugins.PluginMgr.Initialize | libopae-c/pluginmgr.c:743-787 | New state and errors on every path, a second start being ignored |
| Plugins.PluginMgr.FinalizeAll | libopae-c/pluginmgr.c:287-333 | No adapter, no flag, not initialized; the errors are the finalizers and the closings that fail |
| PluginSpec.LoadRowsKeeps | libopae-c/pluginmgr.c:676-741 | Loading keeps the list to the plugins of loaded rows, each once; without errors every detected row is served |
| PluginSpec.InitializeKeeps | libopae-c/pluginmgr.c:743-787 | A start keeps the invariant whether it fails or not |
| PluginSpec.RunKeeps | libopae-c/pluginmgr.c:287-333 | Over every run of starts and stops, failed starts included, no plugin is listed twice and none without a device that was seen |
| PluginSpec.ErrorFreeStartIsExact | libopae-c/pluginmgr.c:676-787 | After any run, a start without errors leaves exactly the distinct plugins of the devices seen since the last stop |
| PathScan.ContainsDotDot | libbitstream/bits_utils.c:156-194 | True exactly when splitting the path at its slashes yields a component ".." |
| PathScan.JoinSplit | libbitstream/bits_utils.c:156-194 | Joining the components with slashes gives the path back, so splitting loses nothing |
| PathScan.NoSlashes | libbitstream/bits_utils.c:156-194 | No component has a slash in it, so splitting is complete |
| Plugins.PluginMgr.InitializeAll | libopae-c/pluginmgr.c:266-285 | The errors are the adapters of the list whose initialization fails |
| BufferSizes.RoundedUp | plugins/vfio/opae_vfio.c:1195 | ROUND_UP with either unit gives the least multiple that holds the length, or zero once the sum has wrapped |
| Xfpga.EnumerateDevices | plugins/xfpga/enum.c:724-767 | Building the list and walking it gives the matches among all candidates, ports included, in order |
| Xfpga.MatchesInList | plugins/xfpga/enum.c:724-767 | The matches among the nodes of the list are the matches among all candidates, although ports may be missing in it |
| VfioPluginState.VfioPlugin.Enter | plugins/vfio/opae_vfio.c:1220-1258 | An entry for a mapped buffer, or the buffer given back when there is no memory for one |
| VfioDevice.OpaeVfio.AddRange | libopaevfio/opaevfio.c:565-579 | One reported range is added to the free space; without its list node it is skipped |
| VfioDevice.OpaeVfio.Record | libopaevfio/opaevfio.c:738-746 | A node for the new buffer at the head of the list |
| AllocProofs.TryMergeStep | libopaemem/mem_alloc.c:123-140 | Each single join closes one gap and covers the same addresses |
| TokenProofs.FailedCloneKeeps | libopae-c/api-shell.c:866-876 | Destroying a clone that never got a wrapper keeps the invariant |
| Rings.Ring.LinkBefore | libopaemem/mem_alloc.c:100-106 | The ring gains the node at that position and keeps all others and their data |
| Rings.Ring.LinkUnlink | libopaemem/mem_alloc.c:108-112 | The ring loses exactly that node |
| Chains.Chain.Append | plugins/xfpga/error.c:356-362 | A cell in the empty slot at the end of the list |
| MemAllocator.MemAlloc.NewLink | libopaemem/mem_alloc.c:87-98 | A fresh node that carries the address and size and counts as live |
| MemAllocator.MemAlloc.Absorb | libopaemem/mem_alloc.c:124-129 | One block takes over the other, whose node leaves the ring and is freed |
| MemAllocator.MemAlloc.LinkFree | libopaemem/mem_alloc.c:172-176 | The new node goes in front of the one found and is joined with its neighbours |
| AllocRuns.AddRegionKeeps | libopaemem/mem_alloc.c:143-179 | Adding a region off everything tracked keeps the invariant, and with malloc tracks exactly the region more |
| AllocRuns.TakeKeeps | libopaemem/mem_alloc.c:181-225 | A get of a positive size keeps the invariant and the tracked addresses |
| AllocRuns.ReturnKeeps | libopaemem/mem_alloc.c:227-254 | A put keeps the invariant, and with malloc the tracked addresses |
| VfioPages.AddFreeOnPages | libopaemem/mem_alloc.c:143-179 | Adding a page-aligned region to page-aligned blocks leaves page-aligned blocks, also where sums wrap |
| VfioPages.GetOnPages | libopaemem/mem_alloc.c:181-225 | Taking whole pages from page-aligned blocks leaves page-aligned blocks |
| VfioPages.PutOnPages | libopaemem/mem_alloc.c:227-254 | So does giving them back |
| VfioRuns.StepKeeps | libopaevfio/opaevfio.c:675-808 | Each allocate or free keeps ownership; the correspondence if nothing fails behind a reservation; the tracked addresses if no free is refused a node |
| VfioDevice.OpaeVfio.TakeOut | libopaevfio/opaevfio.c:788-795 | The buffer found leaves the list and ends no other |
| TokenProofs.UprefCore | libopae-c/api-shell.c:71-92 | A reference more changes that wrapper's count and nothing else |
| TokenProofs.DownrefCore | libopae-c/api-shell.c:94-131 | A reference less removes the wrapper exactly when it was the last, and touches no other |
| TokenProofs.AllocateCore | libopae-c/api-shell.c:51-69 | A new wrapper has one reference, is first on the ring, and touches no other |
| TokenRing.TokenList.LinkFirst | libopae-c/api-shell.c:78-83 | Linked right behind the sentinel |
| ApiShellState.ApiShell.WrapNew | libopae-c/api-shell.c:51-69 | A wrapper for a token the adapter gave to the client, or nothing without memory |
| ApiShellState.ApiShell.AttachParentOf | libopae-c/api-shell.c:473-477 | Properties without a parent get the one that is found and a reference to it |
| ApiShellState.ApiShell.NewPropertiesOf | libopae-c/api-shell.c:415-428 | New properties with the parent that is found for the token |
| ApiShellState.ApiShell.DetachParent | libopae-c/props.c:167-175 | The parent is gone, and with it the reference of a wrapped one |
| ApiShellState.ApiShell.CopyParent | libopae-c/props.c:140-152 | The clone gets the same parent and its own reference if that is wrapped |
| Enumeration.EnumerateFiltered | libopae-c/api-shell.c:761-840 | From unwrapping to restoring, on every path each filter ends with the parent it began with |
| EnumerateSpec.CountsVisited | libopae-c/api-shell.c:675-680 | The match count is, modulo 2^32, the number of tokens of the adapters visited before the walk stopped |
| Plugins.PluginMgr.LoadPlugin | libopae-c/pluginmgr.c:713-738 | Only a plugin that was allocated and configured is registered and its row flagged |
| Plugins.PluginMgr.LastEntry | libopae-c/pluginmgr.c:518-519 | The walk ends at the last adapter |
| Plugins.PluginMgr.FreeAdapters | libopae-c/pluginmgr.c:302-320 | Every adapter is finalized, leaves the list and is closed; failures of both are counted |
| PluginSpec.DetectKeeps | libopae-c/pluginmgr.c:526-542 | Detection adds exactly the devices read to those flagged and loads nothing |
| PluginSpec.FinalizeKeeps | libopae-c/pluginmgr.c:287-333 | Stopping forgets all devices and plugins |
| PluginSpec.ServedIsExact | libopae-c/pluginmgr.c:676-741 | If every detected row is served, the list is exactly the plugins of the devices seen |
| Metadata.AfuImage.ParseList | libbitstream/metadatav1.c:160-194 | The clusters up to the first that fails, and how many those are |
| Metadata.AfuImage.FreeAll | libbitstream/metadatav1.c:198-212 | Interface, clusters and their strings are freed, each once |
| ErrorList.FreeAll | plugins/xfpga/error.c:398-403 | The partial clone is taken apart |
| Xfpga.DevList.AddRegion | plugins/xfpga/enum.c:524-538 | A container node with the device's address at the end of the list |
| Xfpga.StoreToken | plugins/xfpga/enum.c:748-765 | One more match: stored if there is room, or the end of it if its token cannot be made |
| Xfpga.Examine | plugins/xfpga/enum.c:735-747 | One node of the list: a match or not |
| Xfpga.MatchesParent | plugins/xfpga/enum.c:84-112 | Only an accelerator below the device that the filter names as parent agrees with a stated parent |
| Xfpga.MatchesFields | plugins/xfpga/enum.c:114-217 | Agreement with every stated field outside the union |
| Xfpga.MatchesUnion | plugins/xfpga/enum.c:219-270 | Agreement with the stated fields of the union, read as the filter's object type says |
| ErrorList.Skips | plugins/xfpga/error.c:260-279 | True exactly for hidden names, excluded names and paths that would grow too long |
| ErrorList.MakeInfo | plugins/xfpga/error.c:315-353 | The entry of a file: its name and path cut to their buffers, and the file that clears it if that exists |
| ErrorListSpec.ClearFileIsThere | plugins/xfpga/error.c:324-353 | An entry can be cleared exactly when it names a file for that, and that file exists |
| EnumerateSpec.CountFallsShort | libopae-c/api-shell.c:653-656 | Witness: two adapters with one match each and room for one token, and the count is one |
| EnumerateSpec.NotYetFull | libopae-c/api-shell.c:653-702 | The walk reaches an adapter only while those before it have not filled the array |
| EnumerateWraps.WrapAllKeeps | libopae-c/api-shell.c:685-694 | The new wrappers are first on the ring, newest first, each with one reference, its token and its adapter; no other wrapper changes |
| EnumerateWraps.EnumeratedKeeps | libopae-c/api-shell.c:685-694 | An enumeration keeps the reference-count equation of the whole shell |
| Enumeration.EnumContext.StoreOne | libopae-c/api-shell.c:686-694 | One wrapper allocated, put on the ring and stored, or one more error without memory |
| Enumeration.EnumerateAccepted | libopae-c/api-shell.c:740-840 | The call with accepted parameters: filters as before, new wrappers on the ring and in the array |
| VfioRuns.RunConservesSpace | libopaevfio/opaevfio.c:675-808 | Over every run whose frees are not refused a node no IOVA address is lost, whatever fails in the allocations |
| AllocProofs.GetSucceedsIff | libopaemem/mem_alloc.c:181-225 | Get succeeds if and only if a long enough run of addresses is free, and malloc works or the first fit is exact |
| AllocRuns.OrderlyIsAllowed | libopaemem/mem_alloc.c:143-254 | Calls with positive sizes and well-formed, pairwise disjoint regions that leave out one address are allowed in every state they lead to |
| AllocRuns.OrderlyRunKeeps | libopaemem/mem_alloc.c:143-254 | Every run of such calls from the empty allocator keeps the invariant, malloc failing at will |
| VfioPages.RangeOpsOrderly | libopaevfio/opaevfio.c:562-580 | Discovery of separate ranges is a run of orderly calls |
| PluginRuns.OpenAgreesIff | plugins/vfio/opae_vfio.c:1261-1300 | A newly opened device agrees with the list if and only if no entry of an earlier device with its handle is left in it |
| PluginRuns.StepAgrees | plugins/vfio/opae_vfio.c:1197-1300 | Every proper step, opening and closing included, keeps the lists in agreement |
| VfioPluginState.VfioPlugin.TakeOut | plugins/vfio/opae_vfio.c:1283-1289 | The entry leaves the list; no device changes |
| MemAllocator.MemAlloc.FindFit | libopaemem/mem_alloc.c:217-222 | The walk stops at the first free block that is large enough |
| Xfpga.DevList.FreeNodes | plugins/xfpga/enum.c:769-774 | Every node behind the head is freed, each once |
| Chains.SpliceAfter | plugins/xfpga/enum.c:313-314 | Linking a cell behind another makes a path through the same cells with the new one inserted |
| ErrorList.VisitEntry | plugins/xfpga/error.c:256-363 | One name: passed over, searched below, or appended; without memory the directory ends |
| ErrorList.AppendFile | plugins/xfpga/error.c:310-362 | The entry of one file at the end of the list, and its cell as the place to go on from |
| TokenEffects.DropMoves | libopae-c/api-shell.c:94-131 | A reference given up with its holder: one less for that wrapper only; if it was the last, the wrapper is off the ring and destroyed exactly if its adapter can; every other wrapper keeps its place and data |
| TokenEffects.TakeMoves | libopae-c/api-shell.c:71-92 | A reference taken with its holder: one more for that wrapper only, and nothing else about any wrapper, the ring or what was destroyed changes |
| TokenEffects.CloseDoes | libopae-c/api-shell.c:279-295 | A close removes the handle and no other holder; its token is held once less and is live afterwards if and only if it was held more than once; if it is not, it is off the ring and destroyed exactly if its adapter can |
| TokenEffects.OpenDoes | libopae-c/api-shell.c:242-277 | An open adds the handle and no other holder; its token is held once more; nothing else changes |
| TokenEffects.OpenThenClose | libopae-c/api-shell.c:242-295 | Closing the handle just opened gives back the whole state |
| TokenEffects.DestroyTokenDoes | libopae-c/api-shell.c:880-893 | The client owns one reference less to that token only, handles and parents stay, and the wrapper goes with its last reference |
| TokenEffects.DownrefTells | libopae-c/api-shell.c:94-131 | A release returns Ok while the token is held otherwise, and at the end what the destroy of the adapter answers, or not-supported without one |
| TokenEffects.NewTokenDoes | libopae-c/api-shell.c:645-703 | A new token is owned and held once, is first on the ring with its own data, and no other count changes |
| TokenEffects.FailedCloneDoes | libopae-c/api-shell.c:865-873 | A clone that gets no wrapper is destroyed, and nothing else changes |
| TokenEffects.AttachDoes | libopae-c/api-shell.c:423-427 | The parent is set to the token given, or to none, with one reference to it |
| TokenEffects.DetachDoes | libopae-c/props.c:159-179 | The object has no parent afterwards, and one reference to the old one is given up |
| TokenEffects.SetParentDoes | libopae-c/props.c:206-237 | The object has exactly the parent given; one reference moves from the old to the new one |
| TokenEffects.UpdatePropertiesDoes | libopae-c/api-shell.c:485-532 | The old parent is given up, and the one that is found is taken if and only if the adapter succeeds |
| TokenEffects.ClonePropertiesDoes | libopae-c/props.c:120-157 | Source and clone have the same parent, with one reference more to it |
| TokenEffects.DestroyPropertiesDoes | libopae-c/props.c:86-118 | The object is gone, and one reference to its parent is given up |
| TokenEffects.NewPropertiesDoes | libopae-c/props.c:43-84 | A new object without a parent, and no reference |
| TokenEffects.ParentIff | libopae-c/api-shell.c:310-397 | A token has a parent if and only if its adapter can answer, there is memory for the scan, it is an accelerator, and some device on the ring has its address with no newer wrapper failing to answer; the parent is the newest such device |
| VfioEffects.AllocateCode | libopaevfio/opaevfio.c:675-769 | Every code of an allocation as an if-and-only-if over size, free space and the answers of malloc, mmap and ioctl |
| VfioEffects.AllocateDoes | libopaevfio/opaevfio.c:675-769 | An allocation that works returns the address of the mapping, the least page multiple of the size and the lowest IOVA with that many free addresses; it records just that, newest first, and takes just that range |
| VfioEffects.FailedAllocateDoes | libopaevfio/opaevfio.c:675-769 | An allocation that fails leaves the buffers alone, and also the allocator if no range was reserved; otherwise the range stays taken |
| VfioEffects.FreeCode | libopaevfio/opaevfio.c:771-808 | A free succeeds if and only if a buffer is recorded at the address; otherwise nothing changes |
| VfioEffects.FreeDoes | libopaevfio/opaevfio.c:771-808 | A free of any recorded buffer takes it off the list, its block out of use, and frees its range exactly, or loses it if malloc fails |
| VfioPages.DiscoverCovers | libopaevfio/opaevfio.c:562-580 | After discovery exactly the addresses of the reported ranges are free, both ends included, but for ranges that were refused memory |
| PluginEffects.PrepareCode | plugins/vfio/opae_vfio.c:1197-1259 | Every code of a prepare as an if-and-only-if over the length, free space, mmap, ioctl and the mallocs |
| PluginEffects.PrepareDoes | plugins/vfio/opae_vfio.c:1217-1259 | A prepare that works returns the address of the mapping and the id after the newest; newest buffer and newest entry are that mapping with one IOVA and size, which is also what the id gives as IO address |
| PluginEffects.FailedPrepareDoes | plugins/vfio/opae_vfio.c:1217-1259 | A prepare that fails leaves the list of entries and the buffers of the device as they were |
| PluginEffects.PrepareThenRelease | plugins/vfio/opae_vfio.c:1197-1300 | Releasing the id just returned answers Ok and restores list and device; so does a prepare whose entry gets no memory |
| PluginEffects.ReleaseCode | plugins/vfio/opae_vfio.c:1261-1326 | A release, and the query of an IO address, answer Ok if and only if the id is listed; otherwise not-found without any change |
| PluginEffects.ReleaseDoes | plugins/vfio/opae_vfio.c:1261-1300 | Releasing any listed id takes that entry off the list and exactly its buffer off the device |
| PluginEffects.IOAddressDoes | plugins/vfio/opae_vfio.c:1302-1326 | The IO address of any listed id is the IOVA of its own entry |
| EnumerateEffects.ErrorsAreFailures | libopae-c/api-shell.c:645-841 | With memory, the errors are exactly the adapters that can enumerate and fail among those reached before the array is full, so the call returns Ok if and only if there is none |
| EnumerateEffects.OutOfMemory | libopae-c/api-shell.c:685-691 | When the wrapper of token n is refused, exactly the tokens before it are written, and the errors are that one and the adapters that fail before |
| EnumerateEffects.WrittenInOrder | libopae-c/api-shell.c:645-703 | Match j of adapter i is written behind all matches of the adapters before it, under its own adapter, as far as the array goes |
| Enumeration.UnwrappingOkIff | libopae-c/api-shell.c:764-813 | Unwrapping succeeds if and only if each filter is valid, none has a foreign parent or a wrapped one a second time, and each wrapped parent gets its fixup |
| Results.CheckParamsIff | libopae-c/api-shell.c:725-738 | Parameters are accepted if and only if there is an array for the tokens asked for, and filters exactly if some are announced |
| XfpgaEffects.FiltersUnite | plugins/xfpga/enum.c:279-293 | The matches of two lists of filters together are the candidates that one of them alone selects, in candidate order |
| XfpgaEffects.NoFilterSelectsAll | plugins/xfpga/enum.c:284-285 | Without filters every candidate matches |
| XfpgaEffects.MoreFiltersLoseNothing | plugins/xfpga/enum.c:287-291 | A filter appended to others loses no match |
| XfpgaEffects.WrittenIffOneFilter | plugins/xfpga/enum.c:287-291 | A candidate matches if and only if some single filter taken alone selects it |
| XfpgaEffects.OneFilterSelects | plugins/xfpga/enum.c:72-277 | A single filter selects exactly the candidates it matches |
| XfpgaEffects.FieldsUnite | plugins/xfpga/enum.c:72-277 | A filter matches if and only if each of its fields, stated alone, does |
| XfpgaEffects.OneFieldMeans | plugins/xfpga/enum.c:114-217 | Which attribute of the device each field is compared with |
| XfpgaEffects.ParentMeans | plugins/xfpga/enum.c:84-112 | A stated parent selects accelerators whose FME path is the real path of the parent, and nothing if that is null |
| XfpgaEffects.UnionMeans | plugins/xfpga/enum.c:219-270 | Which attribute each bit of the union is compared with for devices and for accelerators; without a type none is read |
| XfpgaEffects.OwnFilterSelects | plugins/xfpga/enum.c:72-277 | A filter made of all that a candidate says selects it, and just those that agree with it in every field |
| XfpgaEffects.PortsReadIff | plugins/xfpga/enum.c:583-600 | Ports are left out if and only if there are filters and all of them ask for devices |
| XfpgaEffects.CandidatesOfOne | plugins/xfpga/enum.c:353-480 | What FME and AFU of one device say, from sysfs and PCI data up: slots in 32 bits, socket in 8, three digits of the version, the state by whether the port opens, and for the AFU the socket of its own FME |
| MetadataText.CStringIff | libbitstream/bits_utils.c:43-78 | A string is read up to its first zero byte |
| MetadataText.SaturateNearest | libbitstream/bits_utils.c:80-98 | A number that fits an int is read as it is, any other as the nearest end of the range |
| MetadataText.ImageRoundTrip | libbitstream/metadatav1.c:72-214 | Reading a written image gives back exactly its quantities in either notation, its interface and each cluster with contexts, name and id |
| MetadataText.MetadataRoundTrip | libbitstream/metadatav1.c:216-261 | The same for whole metadata with its platform name; it parses if and only if the interface is a uuid and the mallocs are granted, but for that of the platform name |
| MetadataText.ImageOkIff | libbitstream/metadatav1.c:38-214 | Any tree is an image if and only if it has the magic number, an interface whose text is a uuid, and a list of clusters each with an int and two strings |
| PluginStarts.DetectedIff | libopae-c/pluginmgr.c:526-632 | Flagged are the rows flagged before and those whose vendor and device are the low 16 bits of a device that was read; nothing else changes |
| PluginStarts.LoadWorksIff | libopae-c/pluginmgr.c:676-741 | Loading ends without errors if and only if each distinct plugin still to be loaded gets a configured adapter; then exactly those are added |
| PluginStarts.FailuresCount | libopae-c/pluginmgr.c:266-285 | The errors of a round over the adapters are the number of those that fail |
| PluginStarts.StartWorksIff | libopae-c/pluginmgr.c:743-787 | A start is without errors if and only if the scan ends well, each new plugin gets a configured adapter and all adapters start; it is done if and only if besides some row was seen |
| ErrorListSpec.EntryNamesFile | plugins/xfpga/error.c:315-322 | An entry has the name and the path of its file, whole if they fit |
| ErrorListSpec.CanClearIff | plugins/xfpga/error.c:324-353 | An error can be cleared if and only if its file is one of six and there, or it is the errors file of the Intel class with a clear file beside it; that file is the one named |
| ErrorListSpec.SkippedIff | plugins/xfpga/error.c:260-279 | Passed over are names with a leading dot, four others, and those that make the path too long, and no more |
| ErrorListSpec.RefusalEndsDirectory | plugins/xfpga/error.c:307-313 | In a directory of files the first refused malloc ends the search, and the entries before it stay |
| ErrorListSpec.RefusalBelowStaysBelow | plugins/xfpga/error.c:296-300 | Whatever is refused below a directory, the search goes on behind it |
| Enumeration.EnumContext.StoreNew | libopae-c/api-shell.c:693-694 | The wrapper goes into the next slot of the array and the count of tokens written rises by one |
| ErrorListSpec.TooLongIff | plugins/xfpga/error.c:231-240 | A directory is left alone if and only if no name at all would leave its path shorter than the limit |

## Left out

- TokenRuns.RunCountsExactly: a run asks for room for each new reference; beyond 2^32 - 1 of them the count wraps and the equation fails (`TokenProofs.UprefLive`).
- Locks and the results of pthread calls: each locked call is one step. That a failing unlock sends some functions down their cleanup path is not modelled.
- Null out-parameters and the checks for them, where they only guard the call.
- malloc, calloc, mmap, munmap, the VFIO ioctls, dlopen, dlclose, readdir, lstat, sysfs reads and adapter calls: their answers are arguments, and nothing else is known of them. mmap is asked for an address that is not mapped yet where that matters.
- The capability walk in front of the IOVA ranges, the list cont_ranges that is kept beside the allocator, groups, regions and interrupts of a VFIO device.
- Handles of the VFIO plugin: a device is open or not, and several handles of one device are one. Enumeration in that plugin, which tests PCI and token fields by independent loops, is not modelled.
- fpgaPropertiesGetParent hands out the parent without taking a reference; it changes no count and is no step.
- Event handles, objects, MMIO, errors, metrics, user clocks and partial reconfiguration in the API shell: they touch no token reference.
- EnumerateSpec.EnumerateCounts: compares the counter with a total below 2^32; behind that it counts modulo 2^32 (`EnumerateSpec.CountsVisited`).
- Xfpga.XfpgaEnumerate: the match counter does not wrap, and device paths are not cut to their buffers; how many nodes leak when the list cannot be built is not stated.
- The error list inside a token made by the native plugin, and how token_add takes instance numbers from the path: whether a token can be made is an argument.
- ErrorList.BuildErrorList: directories are finite trees of named entries, read in the order given; SYSFS_PATH_MAX, FILENAME_MAX and the name length are parameters of the build.
- Metadata.ParseMetadata: json-c trees are a datatype and uuid_parse is a partial function on strings; the number of clusters is not cut to an int.
- The configuration-file path of the plugin manager, and finalize called from within a plugin while finalizing: only default detection is modelled.
- Which file a path names, its other checks, and character encodings: PathScan is about the component ".." alone.

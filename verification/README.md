# Verified models of the Cact kernel's stateful cores

Dafny models of the parts of the Cact kernel (an i686 hobby kernel in C, with a Rust
shim and Python build tools) whose correctness rests on invariants spread over many
functions, and proofs of those invariants for every input and every run.
`dafny verify dfyconfig.toml` checks the whole project.

| component | files |
|---|---|
| page cache: value, thread protocol, safety, coherence and its exact rules, callers' discipline, races, linked index | `PageCacheModel`, `PageCacheProtocol`, `PageCacheSafety`, `PageCacheCoherence`, `PageCacheExact`, `PageCacheDiscipline`, `PageCacheRaces`, `PageIndex` |
| xHCI transfer and event rings | `XhciRing`, `XhciEvents` |
| module loader: layout, relocation, load, 32-bit sums | `ModuleLayout`, `Relocation`, `ModuleLoader`, `ModuleWraps` |
| cctkfs archive: format, signer, signing again, kernel reader, both together | `Cctkfs`, `CctkfsSigner`, `CctkfsResign`, `CctkfsReader`, `CctkfsEndToEnd`, `CctkfsChecksum` |
| CRC-32: shift register, table, both as checksums | `Crc32Register`, `Crc32Table`, `Crc32`, `Checksums` |
| block devices: sector and byte I/O, device table, partition scan, whole runs, the layer updated in place | `PartitionIo`, `BlockTable`, `PartitionScan`, `BlockRuns`, `BlockLayer` |
| pipes: ring and counts, threads | `Pipe`, `PipeRuns` |
| paths: mounts, walking, canonical form | `MountTable`, `VfsWalk`, `PathCanon` |
| executable loader, framebuffer shadow, PCI bus walk, spin locks | `ElfLoader`, `Framebuffer`, `PciEnum`, `SpinLocks` |
| shared: machine integers, byte images | `MachineInts`, `ImageBytes` |

State that the source updates in place is a class, or a value stepped by a transition
function where the point is what other threads may do in between. Every method is tied
by its postcondition to a specification function or to the property itself, and the laws
are proved about those.

## What was found

These properties one would expect turn out not to hold of the code as it stands. Each is
shown by inputs or runs for which it fails, with the condition under which the code does
meet it.

- **Page cache coherence.** With overlapping calls a published clean page can differ from
  its device. A block read before an eviction or invalidation can be published after it
  (`PageCacheRaces.StaleFill`), and of two clients marking the same page dirty the second
  can be skipped because the first has cleared the flag (`PageCacheRaces.LostEdit`). Two
  rules a caller can keep are enough in every run: no get of a block while another get of
  it is in flight, and no edit of a page that is being written back
  (`PageCacheDiscipline.DisciplinedRunIsCoherent`). The rules behind them are exact step
  by step (`PageCacheExact.RulesAreExact`), and a step that breaks one can be continued to
  a stale page (`PageCacheExact.BrokenRuleShows`).
- **xHCI ring capacity.** A ring of `n` slots has `n - 1` that can hold a TRB, but with
  `n - 1` outstanding the driver can toggle the link TRB twice before the controller has
  followed it once. `XhciRing.BoundIsExact`: it never sticks exactly when at most `n - 2`
  may be outstanding.
- **Unique device names.** Registration compares the full name but stores 14 characters.
  `BlockTable.LongNamesCollide` gives two colliding names, and a disk whose name fills the
  field shares it with its partitions (`BlockRuns.FullNameIsShared`).
  `BlockTable.RegisterAndNames` and `BlockTable.AddPartitionAndNames` say exactly when
  names stay unique, and `BlockRuns.EveryTableHasUniqueNames` carries that over every run.
  A disk is found again by the name it was registered under exactly when that name fits
  (`BlockTable.UnregisterUndoesRegister`).
- **Unique mounts.** A mount is looked for by its full name and stored under 127
  characters of it, so two long names, even equal ones, can be mounted twice and not be
  found again (`MountTable.LongNamesCollide`, `MountTable.FoundAgain`); `MountAt` says
  exactly when keys stay unique.
- **GPT entry size.** The header check accepts entries of 1 to 127 bytes while every entry
  is copied with 128. `PartitionScan.CopiesStayInside`: the copies stay inside the buffer
  exactly when entries have at least 128 bytes; `PartitionScan.SmallEntryReadsPast` is a
  disk whose partition is made of the memory behind it.
- **Rows and pitch.** `fb_init` accepts any pitch. Where it does not hold a row of pixels,
  drawing changes a row that is not marked (`Framebuffer.PixelNeedsPitch`).
- **Initial break.** A segment ending in the last page of the address space is not mapped
  but still counted, and rounding up wraps to 0 (`ElfLoader.TopSegmentLosesTheBreak`).
  `ElfLoader.BreakIsAbove` says exactly when the break is above every mapped page.
- **Sums in 32 bits.** The module loader's layout holds together exactly when the image
  ends below 2^32 (`ModuleWraps.LayoutIsExact`), and its bounds checks exactly when no sum
  comes round to a place inside (`ModuleWraps.CheckIsExact`); `ModuleWraps.TwoHalvesWrap`
  and `ModuleWraps.LastWordPasses` are inputs. A page of an executable whose place in the
  file is at or past 4 GiB is filled from 4 GiB before that place (`ElfLoader.OffsetWraps`);
  a segment is loaded as prescribed from every file exactly when it has no such page
  (`ElfLoader.OffsetsAreExact`).
- **Signing a damaged archive.** Where the end of the file cut the name blob short, the
  signer announces the old size. The signed blobs read back exactly when that size ends
  before the data (`CctkfsResign.BlobsReadBack`).
- **Loading an archive twice.** A second image that fails the checks leaves the staging
  area marked ready with no image in it (`CctkfsEndToEnd.SecondLoadSpoils`;
  `CctkfsReader.ModBlob.Load` says exactly when).
- **Reader flags.** Read guards share one cell for saved interrupt flags, so a reader can
  leave with another's (`RwLockSteps.SecondReadersFlags`); `RwLockSteps.ReaderFlags` says
  whose it gets.

## Assumptions

- Page cache: one block size per device, block ranges inside the device without 32-bit
  wrap, a fixed device table, no sector reachable through two device ids, every put
  matching a get, and the unlocked release of a duplicate page (pagecache.c:262-263) as
  one step.
- Module loader: sums of sizes and offsets do not wrap (`ModuleLoader.NoWrap`).
- Framebuffer: the pitch holds a whole row of pixels; without that tracking fails, as said
  above.
- Pipe: each open and close of a node is one step.
- GPT: what follows the entry buffer in memory is an arbitrary function.
- HMAC-SHA-256, kernel symbol lookup and configuration space are arbitrary functions; the
  tag has 32 bytes. The signer's CRC-32 is the bit-serial one of section 8 of RFC 1952,
  which its library documents; the kernel's is its table.

## Model

| member | source | states |
|---|---|---|
| PageCacheModel.WithoutMembers | Cact/drivers/block/pagecache/pagecache.c:86-92 | Taking a page off the recency list removes it and nothing else, and repeats nothing. |
| PageCacheModel.TouchMembers | Cact/drivers/block/pagecache/pagecache.c:95-104 | Moving a page to the front keeps the members of the list, adds the page if absent, and repeats nothing. |
| PageCacheModel.VictimIsUnpinned | Cact/drivers/block/pagecache/pagecache.c:139-155 | The page chosen for eviction is on the recency list and unpinned; none is chosen exactly when every listed page is pinned. |
| PageCacheModel.FirstFreeIsFree | Cact/drivers/block/pagecache/pagecache.c:158-162 | The slot found is unused; none is found exactly when every slot is used. |
| PageCacheModel.AllocSlotIsFree | Cact/drivers/block/pagecache/pagecache.c:158-164 | An allocated slot is in the pool and unused once its eviction has been carried out. |
| PageCacheModel.PinAndTouchKeeps | Cact/drivers/block/pagecache/pagecache.c:184-190 | A hit keeps: VALID exactly if indexed under its own key exactly if once on the recency list, keys unique. |
| PageCacheModel.UnpublishKeeps | Cact/drivers/block/pagecache/pagecache.c:145-148 | Eviction keeps the index and the recency list well formed and in agreement. |
| PageCacheModel.DropKeeps | Cact/drivers/block/pagecache/pagecache.c:325-330 | Invalidation keeps the index and the recency list well formed and in agreement. |
| PageCacheModel.PublishKeeps | Cact/drivers/block/pagecache/pagecache.c:266-268 | Publishing a filled page whose key is not indexed keeps the index and the recency list well formed and in agreement. |
| PageCacheProtocol.TotalPinsUpdate | Cact/drivers/block/pagecache/pagecache.c:130-136 | How the pins all threads own together change when one thread changes: the accounting behind every pin count. |
| PageCacheSafety.ApplyKeeps | Cact/drivers/block/pagecache/pagecache.c:107-359 | Every step of every thread, in any state, keeps the whole invariant: index, recency list, buffers, pin counts equal to pins owned, holds and private pages. |
| PageCacheSafety.EveryRunIsSafe | Cact/drivers/block/pagecache/pagecache.c:139-164 | After any interleaving of get, edit, mark dirty, put, flush and invalidate, index and recency list are well formed, every pin count is the number of pins owned, and a dirty page is pinned. |
| PageCacheSafety.DirtyBranchesNeverTaken | Cact/drivers/block/pagecache/pagecache.c:139-155 | In every run the write-back branches of eviction and block invalidation are dead: an unpinned page is never dirty and no thread is ever writing back in order to remove. |
| PageCacheSafety.HoldSurvives | Cact/drivers/block/pagecache/pagecache.c:181-298 | Over any run in which a client does not put it back, a held page keeps its buffer and its key. |
| PageCacheCoherence.WriteSyncs | Cact/drivers/block/pagecache/pagecache.c:119-122 | Writing one sector of a page brings that sector in step with the device and disturbs no sector of any other block. |
| PageCacheCoherence.ApplyCoheres | Cact/drivers/block/pagecache/pagecache.c:107-359 | Every step that keeps the edit and removal rules keeps every clean unedited page, every page being filled and every page being written in agreement with the devices. |
| PageCacheCoherence.CacheAgreesWithDevice | Cact/drivers/block/pagecache/pagecache.c:181-272 | In every run that keeps the two rules, every published page that is clean and not being edited holds what a direct sector-by-sector read of its device returns, across evictions and reloads. |
| PageCacheExact.RulesAreExact | Cact/drivers/block/pagecache/pagecache.c:107-359 | From a coherent state, a step leads to a coherent state exactly when it keeps both rules: no edit that leaves behind what a write-back has already written of the page, and no removal of a block of which a fill has read what is no longer on the device. |
| PageCacheExact.BrokenRuleShows | Cact/drivers/block/pagecache/pagecache.c:107-359 | A step that breaks a rule has a continuation, itself keeping the rules, that ends with a clean published page differing from its device. |
| PageCacheDiscipline.FlightsStayApart | Cact/drivers/block/pagecache/pagecache.c:181-272 | While no get of a block starts with another get of it in flight, a block in flight is in no other call and not in the index. |
| PageCacheDiscipline.DisciplinedRunIsCoherent | Cact/drivers/block/pagecache/pagecache.c:181-359 | If no get of a block starts while another get of it is in flight, and no page is edited while it is being written back, then in every run every clean published page is what its device holds, whatever is evicted, reloaded, invalidated or flushed meanwhile. |
| PageCacheCoherence.SerialRunObeys | Cact/drivers/block/pagecache/pagecache.c:181-359 | Runs of calls that do not overlap keep the rules. |
| PageCacheCoherence.SerialReadsAgree | Cact/drivers/block/pagecache/pagecache.c:181-298 | After any run of calls that do not overlap, a client reads from a held page what a direct read of the device returns. |
| PageCacheRaces.StaleFill | Cact/drivers/block/pagecache/pagecache.c:250-271 | A run that breaks only the rule on gets ends with a clean published page that differs from its device. |
| PageCacheRaces.LostEdit | Cact/drivers/block/pagecache/pagecache.c:107-136 | A run that breaks only the edit rule ends with a clean published page whose second edit never reached the device. |
| PageIndex.BucketOf | Cact/drivers/block/pagecache/pagecache.c:47-54 | The source's mixing hash gives every key a bucket inside the table of 64 that the index is built with. |
| PageIndex.UnlinkKeeps | Cact/drivers/block/pagecache/pagecache.c:86-92 | The pointer changes of removal turn a doubly linked list of `s` into one of `s` without that element, head and tail included. |
| PageIndex.PushKeeps | Cact/drivers/block/pagecache/pagecache.c:99-103 | The pointer changes of insertion at the head turn a doubly linked list of `s` into one of the element followed by `s`. |
| PageIndex.InsertKeeps | Cact/drivers/block/pagecache/pagecache.c:67-71 | Inserting at the head of one chain keeps every chain acyclic, disjoint and complete. |
| PageIndex.RemoveKeeps | Cact/drivers/block/pagecache/pagecache.c:57-64 | Bypassing an element of one chain removes it from that chain and leaves every other chain alone. |
| PageIndex.PageIndex.LruRemove | Cact/drivers/block/pagecache/pagecache.c:86-92 | The linked list after removal is the recency list without the page. |
| PageIndex.PageIndex.LruTouch | Cact/drivers/block/pagecache/pagecache.c:95-104 | The linked list after a touch is the recency list with the page first. |
| PageIndex.PageIndex.HashInsert | Cact/drivers/block/pagecache/pagecache.c:67-71 | The chains gain the page in its own bucket and nothing else. |
| PageIndex.PageIndex.HashRemove | Cact/drivers/block/pagecache/pagecache.c:57-64 | The chains lose the page and nothing else. |
| PageIndex.PageIndex.HashFind | Cact/drivers/block/pagecache/pagecache.c:74-83 | The search of one chain finds exactly the page the index maps the key to, or nothing if there is none. |
| PageIndex.PageIndex.PinHit | Cact/drivers/block/pagecache/pagecache.c:181-190 | A hit pins and touches the indexed page; a miss changes nothing. |
| PageIndex.PageIndex.Detach | Cact/drivers/block/pagecache/pagecache.c:145-147 | Unlinking from list and chain removes the page's key from the index and the page from the recency list. |
| PageIndex.PageIndex.EvictOne | Cact/drivers/block/pagecache/pagecache.c:139-155 | The backward walk takes the least recently used unpinned page, and none exactly if all are pinned. |
| PageIndex.PageIndex.AllocPage | Cact/drivers/block/pagecache/pagecache.c:158-164 | The first unused slot, or the eviction victim. |
| PageIndex.PageIndex.ClaimSlot | Cact/drivers/block/pagecache/pagecache.c:223-235 | The claimed slot has the new key, one pin, and is in neither list nor chain. |
| PageIndex.PageIndex.PublishOrShare | Cact/drivers/block/pagecache/pagecache.c:255-271 | A filled page is published unless its key is already indexed, in which case the existing page is pinned and touched. |
| PageIndex.PageIndex.MarkAndPin | Cact/drivers/block/pagecache/pagecache.c:276-281 | The indexed page becomes dirty with one more pin; a missing key changes nothing. |
| PageIndex.PageIndex.PutPage | Cact/drivers/block/pagecache/pagecache.c:286-298 | One pin fewer on the indexed page, and nothing on a missing key or an unpinned page. |
| PageIndex.PageIndex.DropPage | Cact/drivers/block/pagecache/pagecache.c:325-330 | A clean unpinned page leaves index and recency list, and gives its buffer up. |
| PageIndex.PageIndex.InvalidateBlock | Cact/drivers/block/pagecache/pagecache.c:317-335 | Missing and pinned pages are left alone, a dirty one is pinned for write-back, any other is dropped. |
| XhciRing.StepKeeps | Cact/drivers/usb/xhci/xhci_ring.c:25-48 | Every single store of the driver and every step of the controller keeps: a slot has the expected cycle bit exactly if it holds an outstanding TRB, whole. |
| XhciRing.ControllerReceivesWhatWasSent | Cact/drivers/usb/xhci/xhci_ring.c:25-48 | In every interleaving with at most size-2 outstanding, over any number of wraps, what the controller received is a prefix of what was sent; while any is outstanding between calls it can move, and with none outstanding it takes nothing. |
| XhciRing.NextTrbArrives | Cact/drivers/usb/xhci/xhci_ring.c:38-47 | At most one link TRB stands between the controller and the next TRB in order. |
| XhciRing.EnqueueIsRun | Cact/drivers/usb/xhci/xhci_ring.c:25-48 | The stores of one call, uninterrupted, have the effect of the call. |
| XhciRing.BoundIsExact | Cact/drivers/usb/xhci/xhci_ring.c:39-47 | A ring of n slots never gets stuck if and only if at most n-2 TRBs may be outstanding. |
| XhciRing.DriverRing.constructor | Cact/drivers/usb/xhci/xhci_ring.c:12-23 | The fresh ring is zero with a toggling link TRB last, cycle 1 and nothing sent. |
| XhciRing.DriverRing.Enqueue | Cact/drivers/usb/xhci/xhci_ring.c:25-48 | The ring in memory changes as the one-step call says, link and cycle included. |
| XhciEvents.EventRing.Post | Cact/drivers/usb/xhci/xhci_ring.c:52-75 | The controller's side of the event ring: an event is posted unless the next slot is the one the driver last told the controller. |
| XhciEvents.EventRing.HandleOne | Cact/drivers/usb/xhci/xhci_ring.c:55-67 | One round of the drain handles the oldest unhandled event, or stops exactly at the first slot not posted. |
| XhciEvents.EventRing.Drain | Cact/drivers/usb/xhci/xhci_ring.c:52-75 | With events posted between any rounds, the drain handles every posted event once, in order, leaves none pending, and then releases the slots of all of them to the controller. |
| ModuleLayout.LayoutIsDisjoint | Cact/fs/vfs/fs_mod.c:195-205 | Sections that take memory lie in order, without overlap, each aligned to its effective alignment. |
| ModuleLayout.SectionInside | Cact/fs/vfs/fs_mod.c:195-205 | Every section that takes memory, a single one too, is aligned and inside the image. |
| ModuleLayout.AssignAddresses | Cact/fs/vfs/fs_mod.c:195-205 | The first pass assigns every section the address, and the image the size, of the layout. |
| ModuleWraps.LayoutIsExact | Cact/fs/vfs/fs_mod.c:195-205 | In 32-bit sums the sections lie in order, disjoint and inside the image if and only if the image ends below 2^32. |
| ModuleWraps.TwoHalvesWrap | Cact/fs/vfs/fs_mod.c:195-205 | Two sections of 2 GiB are laid out over each other in an image of no bytes. |
| ModuleWraps.CheckIsExact | Cact/fs/vfs/fs_mod.c:215-288 | A 32-bit bounds check means what it says if and only if the end of the stretch does not come round past 2^32 to a place inside. |
| ModuleWraps.LastWordPasses | Cact/fs/vfs/fs_mod.c:287-291 | A relocation at the last word of the address space passes the check for a section of any size. |
| Relocation.PatchesCommute | Cact/fs/vfs/fs_mod.c:292-294 | Two patches whose sites do not overlap can be applied in either order. |
| Relocation.PatchTakesEffect | Cact/fs/vfs/fs_mod.c:292-294 | With sites apart, every patched word is its old value plus its own addend modulo 2^32, whatever else was patched. |
| Relocation.OtherByteKept | Cact/fs/vfs/fs_mod.c:292-294 | A byte no patch covers is unchanged. |
| Relocation.OrderDoesNotMatter | Cact/fs/vfs/fs_mod.c:252-296 | With sites apart, any order of the same patches gives the same image. |
| ModuleLoader.CopiedByte | Cact/fs/vfs/fs_mod.c:211-221 | A byte of a copied section is the file's byte at that place. |
| ModuleLoader.OtherByteZero | Cact/fs/vfs/fs_mod.c:207-221 | A byte of no copied section is zero. |
| ModuleLoader.ResolveStops | Cact/fs/vfs/fs_mod.c:260-295 | A relocation stops the load exactly when its symbol is missing, unknown to the kernel and not weak, or in a section not loaded, or its site leaves its section; one that patches stays inside that section. |
| ModuleLoader.LoadedImageIsPatchedOnce | Cact/fs/vfs/fs_mod.c:195-296 | A loaded image is the laid-out file with each site patched once, by S or S minus its own address, nothing else changed, and the same whatever the order of the entries. |
| ModuleLoader.EveryEntryIsRelocated | Cact/fs/vfs/fs_mod.c:257-295 | Every entry of a loaded module had a symbol value S and a site inside its section, and with sites apart the word at site P is A + S for R_386_32 and A + S - P for R_386_PC32, modulo 2^32. |
| ModuleLoader.LoadedByte | Cact/fs/vfs/fs_mod.c:207-221 | An unpatched byte of a loaded image is the file's byte where a section was copied and zero elsewhere. |
| ModuleLoader.AddendIsInFile | Cact/fs/vfs/fs_mod.c:292-294 | The addend of a site in a copied section is the word the file has there. |
| ModuleLoader.CopySections | Cact/fs/vfs/fs_mod.c:211-221 | The copy loop leaves the laid-out file in the image, and fails exactly if a section to copy is not inside the file. |
| ModuleLoader.RelocateSection | Cact/fs/vfs/fs_mod.c:257-296 | The loop over one relocation section has the effect of its patches, or stops where one cannot be resolved. |
| ModuleLoader.Relocate | Cact/fs/vfs/fs_mod.c:251-296 | The loop over all sections has the effect of all patches, or stops where one cannot be resolved. |
| ModuleLoader.FindEntry | Cact/fs/vfs/fs_mod.c:301-314 | The address of the last global function of that name defined in a section, 0 if there is none. |
| ModuleLoader.LoadModule | Cact/fs/vfs/fs_mod.c:195-327 | The whole load, with its error codes in their order, gives the image and entry points of the specification. |
| ImageBytes.WordRoundTrip | tools/cact_sign_cctkfs.py:135-144 | A 32-bit word written little-endian reads back. |
| Cctkfs.BlobAt | tools/cact_sign_cctkfs.py:139-155 | The offset announced for each blob is where its bytes are. |
| Cctkfs.HeaderReadsBack | tools/cact_sign_cctkfs.py:135-137 | The header words of a laid-out image read back, total size and checksum included. |
| Cctkfs.EntryReadsBack | tools/cact_sign_cctkfs.py:140-146 | The directory words of every entry read back. |
| Cctkfs.NamesReadBack | tools/cact_sign_cctkfs.py:148-150 | The name blob is where the header says. |
| Cctkfs.BlobReadsBack | tools/cact_sign_cctkfs.py:152-155 | Every blob is where its directory entry says. |
| Cctkfs.LayoutRoundTrip | tools/cact_sign_cctkfs.py:76-103 | Reading a laid-out image gives exactly the archive it was laid out from. |
| CctkfsSigner.AppendDirectory | tools/cact_sign_cctkfs.py:139-146 | The directory loop writes the entries with running aligned offsets, and fails exactly where a word does not fit 32 bits. |
| CctkfsSigner.AppendBlobs | tools/cact_sign_cctkfs.py:152-155 | The data loop appends every blob padded to 16 bytes. |
| CctkfsSigner.SignBlobs | tools/cact_sign_cctkfs.py:119-132 | Every blob gets its tag appended unless it already ends in its own. |
| CctkfsSigner.Rebuild | tools/cact_sign_cctkfs.py:134-160 | Appending the parts and patching size and checksum into the header gives the sealed layout of the archive. |
| CctkfsSigner.SignImage | tools/cact_sign_cctkfs.py:62-163 | For every file the program writes the sealed layout of the signed archive, or stops with an error exactly when the file is too small, has another magic, ends before its directory, or something does not fit 32 bits. |
| CctkfsSigner.SignBlobTwice | tools/cact_sign_cctkfs.py:120-131 | Signing a signed blob leaves it as it is. |
| CctkfsSigner.SignedArchiveReadsBack | tools/cact_sign_cctkfs.py:62-163 | A signed image holds the signed archive at the offsets it announces. |
| CctkfsResign.SigningTwiceIsSigningOnce | tools/cact_sign_cctkfs.py:62-163 | Signing a signed file again is byte-identical as long as the announced name blob ends before the data, also for a name blob the end of the file cut short. |
| CctkfsResign.BlobsReadBack | tools/cact_sign_cctkfs.py:62-163 | The blobs of a signed file read back as they were signed if and only if the announced name blob of the input ends before the data. |
| CctkfsResign.LastBlobIsCut | tools/cact_sign_cctkfs.py:62-163 | Where the announced name blob reaches into the data, the last blob reads back shorter than it was laid out. |
| CctkfsSigner.OnlySizeStopsIt | tools/cact_sign_cctkfs.py:134-158 | For an archive with a true name-blob size, only an image of 4 GiB or more stops the signer. |
| Checksums.ImageCrc | Cact/drivers/initfs/initfs_modblob.c:93-102 | The loop that treats the checksum field as zero computes the checksum of the image with that field zeroed. |
| Crc32Register.LowByteDecides | Cact/drivers/initfs/initfs_modblob.c:84-102 | Eight steps of the shift register are eight steps of its low byte, combined with the register shifted down by a byte. |
| Crc32Table.TableIsComputed | Cact/drivers/initfs/initfs_modblob.c:17-82 | At every index the kernel's constant is what eight steps of the shift register for 0xEDB88320 make of that index (section 8 of RFC 1952). |
| Crc32.TableCrcIsSerialCrc | Cact/drivers/initfs/initfs_modblob.c:93-102 | The kernel's table CRC is the bit-serial CRC-32 of every byte string. |
| Crc32.ComputeImageCrc32 | Cact/drivers/initfs/initfs_modblob.c:93-102 | The kernel's loop with its constants is the bit-serial CRC-32 over the image with its checksum field zeroed. |
| CctkfsReader.ValidateIsExact | Cact/drivers/initfs/initfs_modblob.c:121-152 | The wrapping header checks accept exactly the images whose true sums are in range and whose checksum is 0 or right. |
| CctkfsReader.NameEq | Cact/drivers/initfs/initfs_modblob.c:189-196 | True exactly if the bytes of the name are the wanted string. |
| CctkfsReader.BasenameStart | Cact/drivers/initfs/initfs_modblob.c:202-214 | The scan finds the start of the last path component. |
| CctkfsReader.BasenameEq | Cact/drivers/initfs/initfs_modblob.c:209-216 | True exactly if the base name of the stored name is the wanted string. |
| CctkfsReader.Get | Cact/drivers/initfs/initfs_modblob.c:218-249 | The first entry with the whole name decides, else the first with the same non-empty base name, else nothing; a payload outside the image is refused. |
| CctkfsReader.ModBlob.Load | Cact/drivers/initfs/initfs_modblob.c:154-187 | The result codes of loading, the first or a later one, and what stays in the buffer; what is marked ready is an accepted image except exactly after a later load whose image fails the checks. |
| CctkfsReader.ModBlob.Find | Cact/drivers/initfs/initfs_modblob.c:218-249 | Nothing before a successful load, the lookup on the staged image after it. |
| CctkfsEndToEnd.ChecksumFieldAlone | Cact/drivers/initfs/initfs_modblob.c:91-102 | Zeroing the checksum field of a sealed image gives what the writer summed. |
| CctkfsEndToEnd.BuiltPasses | Cact/drivers/initfs/initfs_modblob.c:121-152 | A kernel whose checksum agrees with the signer's on what was summed accepts the built image. |
| CctkfsEndToEnd.SecondLoadSpoils | Cact/drivers/initfs/initfs_modblob.c:154-187 | Loading an accepted image and then one byte leaves the staging area marked ready with no image in it. |
| CctkfsEndToEnd.LookupDeliversBlob | Cact/drivers/initfs/initfs_modblob.c:218-234 | In a built image with distinct names, looking a name up gives exactly that entry's bytes. |
| CctkfsEndToEnd.BaseLookupDeliversBlob | Cact/drivers/initfs/initfs_modblob.c:198-249 | With distinct base names, every path with the same base name gives those bytes too. |
| CctkfsChecksum.BuiltIsAccepted | Cact/drivers/initfs/initfs_modblob.c:121-152 | The kernel's header check and table checksum accept every image the signer builds with the bit-serial CRC-32. |
| CctkfsChecksum.WrongChecksumIsRefused | Cact/drivers/initfs/initfs_modblob.c:136-150 | A laid-out image with a nonzero checksum word passes exactly when that word is the CRC-32 the signer computes. |
| CctkfsChecksum.SignedImageServesSignedBlobs | tools/cact_sign_cctkfs.py:105-160 | From any well-formed archive with distinct names the signer makes an image the kernel accepts, checksum included, in which every module's name leads to its blob with its tag. |
| PartitionIo.WriteThenRead | Cact/drivers/block/blkdev/part.c:89-131 | On a flat array, what was written is read back as far as it fits. |
| PartitionIo.WriteKeepsOthers | Cact/drivers/block/blkdev/part.c:89-131 | On a flat array, a write changes no byte outside its range. |
| PartitionIo.Disk.Read | Cact/drivers/block/blkdev/blkdev.c:195-212 | A read fails exactly on a sector outside the device, otherwise it gives that sector of the device's flat array; the 32-bit overflow guard never fires. |
| PartitionIo.Disk.Write | Cact/drivers/block/blkdev/blkdev.c:214-231 | A write fails exactly on a sector outside the device, otherwise it replaces that sector of the disk and no other byte. |
| PartitionIo.Disk.ReadBytes | Cact/drivers/block/blkdev/part.c:99-131 | At any offset and size, exactly the in-range bytes of the flat array. |
| PartitionIo.Disk.WritePart | Cact/drivers/block/blkdev/part.c:106-119 | Writing part of a sector by reading, changing and writing it back changes that part and no other byte. |
| PartitionIo.Disk.WriteBytes | Cact/drivers/block/blkdev/part.c:99-131 | At any offset and size the device becomes its flat array written at that offset, as far as the request lies in it, and no other byte of the disk changes. |
| PartitionIo.DeviceWriteIsFlat | Cact/drivers/block/blkdev/part.c:89-131 | Seen through a partition the write is a flat-array write, and every parent byte outside the partition is unchanged. |
| BlockTable.RegisterKeeps | Cact/drivers/block/blkdev/blkdev.c:43-88 | Registration keeps the table well formed. |
| BlockTable.UnregisterKeeps | Cact/drivers/block/blkdev/blkdev.c:90-111 | Unregistration, partitions and boot choice included, keeps the table well formed. |
| BlockTable.AddPartitionKeeps | Cact/drivers/block/blkdev/blkdev.c:283-337 | Adding a partition keeps the table well formed. |
| BlockTable.ClearKeeps | Cact/drivers/block/blkdev/blkdev.c:339-354 | Clearing keeps the table well formed and leaves the disk without partitions. |
| BlockRuns.EveryReachableTableIsOk | Cact/drivers/block/blkdev/blkdev.c:43-111 | After any sequence of registrations, with or without the scan they set off, unregistrations, scans, additions and clearings, id is slot, the count is the number of used slots, every partition lies inside a live disk with at most 16 of them, and the boot device is a live disk that exists exactly if any disk does. |
| BlockRuns.DoKeeps | Cact/drivers/block/blkdev/blkdev.c:43-354 | Each of these operations keeps the table well formed. |
| BlockRuns.DoKeepsNames | Cact/drivers/block/blkdev/blkdev.c:43-354 | Each of them keeps names unique if it stores no cut name. |
| BlockRuns.EveryTableHasUniqueNames | Cact/drivers/block/blkdev/blkdev.c:43-111 | Over every such run in which no stored name is cut, no two live devices have the same name. |
| BlockRuns.ShortNamesStayUnique | Cact/drivers/block/blkdev/blkdev.c:43-111 | Disk names of at most 11 characters and partition numbers below 100 are enough for that. |
| BlockRuns.FullNameIsShared | Cact/drivers/block/blkdev/blkdev.c:297-313 | A disk whose name fills its field shares it with every partition it gets. |
| BlockTable.RegisterAndNames | Cact/drivers/block/blkdev/blkdev.c:48-58 | Names stay unique exactly when the name as cut was free, in particular for names that fit. |
| BlockTable.AddPartitionAndNames | Cact/drivers/block/blkdev/blkdev.c:297-313 | The same for partition names. |
| BlockTable.UnregisterUndoesRegister | Cact/drivers/block/blkdev/blkdev.c:43-111 | Unregistering by the name of registration restores slots and count exactly when the name fits; a longer name is not found and nothing changes. |
| BlockTable.LongNamesCollide | Cact/drivers/block/blkdev/blkdev.c:57-58 | Two names that differ only past the cut are stored the same. |
| PartitionScan.ScanKeeps | Cact/drivers/block/blkdev/part.c:317-378 | A scan keeps the table well formed and the disk what it is. |
| PartitionScan.ScanCreatesOnlyLabelled | Cact/drivers/block/blkdev/part.c:217-378 | After a scan every partition of the disk is one its label describes, with that number and extent; every other live device is as it was, and a slot that was free is free or holds such a partition. |
| PartitionScan.ScanCreatesEveryLabelled | Cact/drivers/block/blkdev/part.c:217-378 | Every extent the label describes is a partition after the scan, unless it leaves the disk or 32 bits, its name is taken, the disk has 16 partitions, or no slot is free. |
| PartitionScan.CopiesStayInside | Cact/drivers/block/blkdev/part.c:266-298 | Every 128-byte entry copy stays inside the entry buffer if and only if entries are at least 128 bytes, while smaller sizes are accepted. |
| PartitionScan.LabelIgnoresPast | Cact/drivers/block/blkdev/part.c:266-298 | A label with entries of at least 128 bytes says the same whatever follows the buffer in memory. |
| PartitionScan.SmallEntryReadsPast | Cact/drivers/block/blkdev/part.c:257-313 | On a disk of three sectors whose label announces one entry of one byte, the partition found is made of what follows the entry buffer. |
| PartitionScan.RescanChangesNothing | Cact/drivers/block/blkdev/part.c:204-378 | Scanning an unchanged disk again gives the very same table: numbers, extents, names and slots; what follows the entry buffer may differ if entries have at least 128 bytes. |
| BlockLayer.BlockLayer.AllocSlot | Cact/drivers/block/blkdev/blkdev.c:21-26 | The first free slot. |
| BlockLayer.BlockLayer.FindDevice | Cact/drivers/block/blkdev/blkdev.c:129-136 | The first device of that name. |
| BlockLayer.BlockLayer.PickBootDevice | Cact/drivers/block/blkdev/blkdev.c:28-36 | The first whole disk, if any. |
| BlockLayer.BlockLayer.RegisterDisk | Cact/drivers/block/blkdev/blkdev.c:43-88 | The table changes as registration says, and the result code says why not. |
| BlockLayer.BlockLayer.UnregisterDisk | Cact/drivers/block/blkdev/blkdev.c:90-111 | The table changes as unregistration says. |
| BlockLayer.BlockLayer.ClearPartitions | Cact/drivers/block/blkdev/blkdev.c:339-354 | Every partition of the disk is gone, nothing else is, and the count of them is returned. |
| BlockLayer.BlockLayer.AddPart | Cact/drivers/block/blkdev/blkdev.c:283-337 | The table changes as adding says, and the result says whether it did. |
| BlockLayer.BlockLayer.ParseMbr | Cact/drivers/block/blkdev/part.c:233-253 | Every usable entry of the four is created, in order. |
| BlockLayer.BlockLayer.ParseGpt | Cact/drivers/block/blkdev/part.c:257-313 | Every usable entry of the array is created, in order, for any entry size the header check lets through; a header out of range creates none. |
| BlockLayer.ReadEntryArray | Cact/drivers/block/blkdev/part.c:281-294 | The sector loop gathers the bytes of the entry array, zero past the end of the disk. |
| BlockLayer.BlockLayer.ScanDisk | Cact/drivers/block/blkdev/part.c:317-378 | The table changes as a scan says. |
| BlockLayer.BlockLayer.PlugDisk | Cact/drivers/block/blkdev/blkdev.c:43-88 | Registration with the partition layer armed changes the table as registering and scanning say. |
| Pipe.RingFront | Cact/fs/pipe/pipe.c:138-144 | The first bytes of a ring are one slice, or two when they go round the end. |
| Pipe.WriteBehind | Cact/fs/pipe/pipe.c:196-203 | Copying at the write position, round the end if need be, appends to the ring and moves the position with it. |
| Pipe.Pipe.constructor | Cact/fs/pipe/pipe.c:73-107 | A fresh pipe is empty, with its counts in agreement with its one or two nodes. |
| Pipe.Pipe.ReadChunk | Cact/fs/pipe/pipe.c:132-147 | One round delivers the front of the contents and leaves the rest; write_pos stays (read_pos + len) mod 4096. |
| Pipe.Pipe.WriteChunk | Cact/fs/pipe/pipe.c:190-205 | One round appends as much as fits, and len never exceeds 4096. |
| Pipe.Pipe.Open | Cact/fs/pipe/pipe.c:248-264 | The pipe's count stays the sum of its nodes' counts, and read_open and write_open stay the matching node's count (for a FIFO, one less). |
| Pipe.Pipe.Close | Cact/fs/pipe/pipe.c:267-305 | The same for close, and the pipe is freed exactly when its last node is. |
| PipeRuns.ApplyConserves | Cact/fs/pipe/pipe.c:110-210 | Every round of every reader and writer on the ring buffer keeps the law of its positions, loses, invents and reorders nothing, accounts every chunk to its thread, and ends a call only with its due result. |
| PipeRuns.EndingRound | Cact/fs/pipe/pipe.c:117-129 | A round ends a call only with the result due for what was moved, and short only where it may not go on. |
| PipeRuns.EveryRunConserves | Cact/fs/pipe/pipe.c:110-210 | In every interleaving write_pos is (read_pos + len) mod 4096 with len at most 4096, and bytes delivered followed by bytes in the ring are the bytes accepted. |
| PipeRuns.ReaderGetsWhatWriterSent | Cact/fs/pipe/pipe.c:110-210 | With one writer and one reader, what the reader received followed by what is buffered is what the writer sent. |
| PipeRuns.EveryEndedCall | Cact/fs/pipe/pipe.c:110-210 | In every interleaving every ended call reported the bytes the log shows it moved since it began; a waiting call with good pointers is short only where a read found the pipe empty without writers, or a write found no reader. |
| MountTable.MountIsInsert | Cact/fs/vfs/vfs.c:61-64 | Appending an entry for a free host and name adds one binding to the map. |
| MountTable.AppendAndKeys | Cact/fs/vfs/vfs.c:52-64 | Keys stay unique exactly when the new entry's key, as stored, was free. |
| MountTable.FoundAgain | Cact/fs/vfs/vfs.c:21-67 | A mount is found again under its name exactly when the name fits. |
| MountTable.UmountIsRemove | Cact/fs/vfs/vfs.c:72-78 | Moving the last entry into the place of a removed one removes one binding from the map. |
| MountTable.Mounts.Lookup | Cact/fs/vfs/vfs.c:21-26 | The scan is lookup in the map. |
| MountTable.Mounts.MountAt | Cact/fs/vfs/vfs.c:52-67 | Refused exactly when the table is full or the name is taken; keys stay unique, and the map gains one binding, exactly when the name as stored was free; the mount is found again under its name exactly when that fits 127 characters. |
| MountTable.LongNamesCollide | Cact/fs/vfs/vfs.c:52-67 | Any two names with the same first 127 characters and more, even equal ones, can both be mounted, and then one key is there twice. |
| MountTable.Mounts.Umount | Cact/fs/vfs/vfs.c:70-81 | Refused exactly when there is no such mount; otherwise one binding fewer. |
| VfsWalk.OneFollow | Cact/fs/vfs/vfs.c:159-179 | Following one segment never lowers the link counter and never takes it past the budget. |
| VfsWalk.NeverEndsAtLink | Cact/fs/vfs/vfs.c:159-204 | A walk that starts at no link, under a root that is none, does not end at one. |
| VfsWalk.FollowIsPlainWithoutLinks | Cact/fs/vfs/vfs.c:84-104 | Where no link is met, following is the plain walk and uses none of the budget. |
| VfsWalk.LoopMeansBudgetUsed | Cact/fs/vfs/vfs.c:164-169 | A loop is reported only with the whole budget used. |
| VfsWalk.BudgetOnlyStopsLoops | Cact/fs/vfs/vfs.c:164-169 | A walk that reports no loop gives the answer it would give under any larger budget. |
| VfsWalk.FollowJoined | Cact/fs/vfs/vfs.c:182-204 | Walking a joined path is walking its parts one after the other, counter and errors included. |
| VfsWalk.LinkIsItsTarget | Cact/fs/vfs/vfs.c:159-179 | A path through a link is the path with the link's target in its place, from the root or from the link's directory, at the price of one link. |
| VfsWalk.TakeSegment | Cact/fs/vfs/vfs.c:193-197 | The character loop takes the segment up to the next slash, and finds it too long exactly past 127 characters. |
| VfsWalk.WalkPath | Cact/fs/vfs/vfs.c:84-104 | The plain walk, cursor loop against recursion over segments. |
| VfsWalk.WalkPathFollow | Cact/fs/vfs/vfs.c:182-204 | The following walk with its shared counter and error, cursor loop against recursion; it terminates by remaining budget, then remaining path. |
| VfsWalk.Resolve | Cact/fs/vfs/vfs.c:207-213 | At most 8 links per call, never ending at a link, and the plain walk where no link is met. |
| PathCanon.SplitUndoesSpell | Cact/fs/vfs/vfs_file.c:85-91 | The segments of a written-out path are the stack it was written from. |
| PathCanon.CanonIsClean | Cact/fs/vfs/vfs_file.c:61-93 | For an absolute working directory the result has no empty, `.` or `..` segment, at most 128 segments, and fits the buffer, whatever the path. |
| PathCanon.CanonIsIdempotent | Cact/fs/vfs/vfs_file.c:61-93 | Canonicalising twice is canonicalising once. |
| PathCanon.CanonIsStackInterpretation | Cact/fs/vfs/vfs_file.c:47-93 | A relative path whose joined form fits the buffer means what the unlimited stack machine says of the joined path. |
| PathCanon.JoinKeepsSegments | Cact/fs/vfs/vfs_file.c:47-57 | Joining keeps every segment of a path that fits, also at the very end of the buffer. |
| PathCanon.CanonOfAbsolute | Cact/fs/vfs/vfs_file.c:61-93 | An absolute path that fits means what the unlimited stack machine says of it. |
| PathCanon.MakeAbs | Cact/fs/vfs/vfs_file.c:47-57 | The bounded copies give the joined path cut to the buffer. |
| PathCanon.Collect | Cact/fs/vfs/vfs_file.c:68-83 | The loop keeps the positions of the stack's segments, stopping at the 129th. |
| PathCanon.CanonAbs | Cact/fs/vfs/vfs_file.c:61-93 | The whole routine; its output bounds never cut the result. |
| PathCanon.SplitParent | Cact/fs/vfs/vfs_file.c:102-135 | Parent path and last segment rebuild the canonical path; with the base name cut to the caller's buffer they do exactly when it fits. |
| ElfLoader.FillPage | Cact/kernel/elf/elf_loader.c:210-243 | One page gets the file's bytes, read at an offset summed in 32 bits, where the segment has them and zeros elsewhere; it fails only where the file is shorter than the segment. |
| ElfLoader.AddressSpace.LoadSegment | Cact/kernel/elf/elf_loader.c:206-264 | Every page of the segment is mapped with what it prescribes, and no other page changes. |
| ElfLoader.AddressSpace.Load | Cact/kernel/elf/elf_loader.c:190-268 | Every page holds what the last segment covering it prescribes, and no other page is mapped; failure leaves none, and with a complete file means frames ran out. |
| ElfLoader.EverySegmentIsLoaded | Cact/kernel/elf/elf_loader.c:190-265 | With page-disjoint segments every byte of every segment page is the one read for it, and that is the byte its header prescribes wherever the page's file offset fits 32 bits. |
| ElfLoader.OffsetsAreExact | Cact/kernel/elf/elf_loader.c:210-243 | A segment is loaded as its header prescribes from every file if and only if none of its pages has a file offset past 32 bits. |
| ElfLoader.LoadedAsPrescribed | Cact/kernel/elf/elf_loader.c:231-236 | A page whose file offset fits 32 bits is loaded as its header prescribes. |
| ElfLoader.OverflowShows | Cact/kernel/elf/elf_loader.c:231-236 | For every page whose offset overflows there is a file from which something else is loaded. |
| ElfLoader.EndPastFourGiB | Cact/kernel/elf/elf_loader.c:231-236 | A segment that ends past 4 GiB in its file with its only page beginning below is still loaded as prescribed. |
| ElfLoader.OffsetWraps | Cact/kernel/elf/elf_loader.c:231-236 | A page whose place in the file is at or past 4 GiB gets what lies 4 GiB before it instead. |
| ElfLoader.BreakStart | Cact/kernel/elf/elf_loader.c:356-369 | The loop finds the highest end and rounds it up in 32 bits. |
| ElfLoader.BreakIsAbove | Cact/kernel/elf/elf_loader.c:345-370 | The break is page-aligned, and at or above the end of every mapped page exactly when rounding up does not wrap or nothing is mapped. |
| ElfLoader.TopSegmentLosesTheBreak | Cact/kernel/elf/elf_loader.c:363-369 | A segment ending in the last page puts the break at 0, below a mapped page. |
| Framebuffer.DrawAndMark | Cact/drivers/video/fb/fb.c:50-62 | Drawing in some rows and marking them keeps: a row that differs is marked, a marked row is in the envelope. |
| Framebuffer.PixelNeedsPitch | Cact/drivers/video/fb/fb.c:118-128 | On a clean shadow, drawing a pixel in a new colour keeps track exactly when it lies inside its own row of the pitch. |
| Framebuffer.FastFillIsDrawn | Cact/drivers/video/fb/fb.c:144-150 | One fill over contiguous rows draws the rectangle. |
| Framebuffer.DrawnIsUnique | Cact/drivers/video/fb/fb.c:144-160 | Two buffers with the same rectangle drawn over the same picture are equal, so the fast path is the row-by-row fill. |
| Framebuffer.FillByRows | Cact/drivers/video/fb/fb.c:152-159 | The row loop draws the rectangle and nothing else. |
| Framebuffer.Ship | Cact/drivers/video/fb/fb.c:228-253 | The run-by-run copy makes the framebuffer equal to the shadow, with nothing marked. |
| Framebuffer.Framebuffer.EnableShadow | Cact/drivers/video/fb/fb.c:179-218 | The shadow starts equal to the screen with no row marked. |
| Framebuffer.Framebuffer.FillRect | Cact/drivers/video/fb/fb.c:130-162 | The rectangle cut to the screen is drawn, whichever path is taken, and tracking is kept. |
| Framebuffer.Framebuffer.PutPixel | Cact/drivers/video/fb/fb.c:118-128 | One pixel is drawn if on the screen, and tracking is kept. |
| Framebuffer.Framebuffer.Clear | Cact/drivers/video/fb/fb.c:164-173 | Every word has the colour, and tracking is kept. |
| Framebuffer.Framebuffer.Scroll | Cact/drivers/video/fb/fb_text.c:89-109 | Rows move up, the text area of the last ones is blacked, and tracking is kept. |
| Framebuffer.Framebuffer.Flush | Cact/drivers/video/fb/fb.c:220-254 | The framebuffer shows what was drawn, and nothing is marked. |
| PciEnum.RoomForOneMore | Cact/drivers/pci/enum/pci_enum.c:19-24 | A list without repetition inside a set leaves room for one more of the set, so the pool is not exhausted before its functions are listed. |
| PciEnum.Enumerator.ProbeFn | Cact/drivers/pci/enum/pci_enum.c:101-157 | A function is listed once and the bus behind it scanned; nothing of a bus already scanned is listed again. |
| PciEnum.Enumerator.ScanDev | Cact/drivers/pci/enum/pci_enum.c:172-188 | Function 0 and, on a multi-function device, the others are probed, each once. |
| PciEnum.Enumerator.ScanBus | Cact/drivers/pci/enum/pci_enum.c:160-191 | Ends for any topology; lists nothing twice; and leaves every newly scanned bus done where no path of bridges that enters no bus twice is longer than 16 and the pool has space, bridges leading back included. |
| PciEnum.Enumerator.Enumerate | Cact/drivers/pci/enum/pci_enum.c:194-206 | From bus 0 or the host bridge's functions, the walk is complete in such a region. |
| PciEnum.EveryReachableFunctionIsListed | Cact/drivers/pci/enum/pci_enum.c:160-206 | After a complete walk every visible function of every bus reachable through bridges is listed exactly once. |
| MutexSteps.ApplyKeeps | Cact/crypto/cact_shim/src/sync.rs:111-148 | Every atomic step keeps one holder exactly while the lock is taken, with its flags kept for it. |
| MutexSteps.MutualExclusion | Cact/crypto/cact_shim/src/sync.rs:111-148 | In every interleaving at most one processor holds the mutex, and a release restores the flags its own lock saved. |
| RwLockSteps.ApplyKeeps | Cact/crypto/cact_shim/src/sync.rs:183-258 | Every atomic step keeps the word in agreement with who is inside. |
| RwLockSteps.WritersExclude | Cact/crypto/cact_shim/src/sync.rs:183-258 | In every interleaving of fewer than 2^31 processors a writer excludes readers and other writers, the word otherwise counts the live read guards, and a write guard restores the flags its own lock saved. |
| RwLockSteps.ReaderFlags | Cact/crypto/cact_shim/src/sync.rs:183-233 | A read guard restores the flags of the last reader to enter while it was held, and its own exactly when there was none or they were the same. |
| RwLockSteps.SecondReadersFlags | Cact/crypto/cact_shim/src/sync.rs:183-233 | Of two readers the first leaves with the flags of the second. |

## Left out

- Rust memory manager, scheduler, network and cryptography crates, and the drivers around the modelled cores (ACPI, APIC, HPET, USB enumeration, HID): plumbing, or code this model does not reach.
- `pci_loader.c`: a twin of the module loader; only `fs_mod.c` is modelled.
- `fs_mod.c`: the bytes of ELF headers, section headers, symbols and relocation entries are taken as records already read; the HMAC check, slots and mount bookkeeping around the load are not modelled.
- `elf_loader.c`: the header checks of lines 150-188, the interpreter path and the page holding the program headers are not modelled; program headers are taken as records already read.
- devfs nodes of partitions, `/proc` and `/dev` text, printk and statistics counters.
- `vfs.c`: node reference counts and the symbolic-link pool; a walk takes references that are not dropped, so no exact count is kept.
- `pipe.c`: failed allocations in `pipe_create`, `poll`, and the logical close helpers that bypass nodes.
- `pci_enum.c`: BAR decoding and the descriptor fields besides bus, device and function.
- `sync.rs`: `Once` and `OnceLock`.
- `klog.c`, the scheduler queue, `font.c` and the PM timer: they would only add easier members.
- XhciEvents.EventRing.Post: the controller's cycle-bit protocol is modelled from the xHCI specification (sections 4.9.2 to 4.9.4), not from code in the repository.
- ModuleLoader.LoadModule: requires that sums do not wrap; `ModuleWraps` says exactly when the layout and the checks survive 32-bit sums, but what the code then does to memory outside the image is not modelled.
- CctkfsResign.SigningTwiceIsSigningOnce: one direction; where the announced name blob reaches into the data, `BlobsReadBack` shows that the signed blobs are lost, but not that a second signing changes the file, which depends on the hash.
- PageIndex.BucketOf: nothing is said of how keys spread over the buckets; the laws of the index hold for every placement.

# PS2 DriveForge storage stack: a Dafny model

DriveForge reads PlayStation 2 hard disks without ever writing to them: APA partition chains, the
PFS filesystem, HDL game metadata. Because the source is immutable, almost every component has a
simple meaning as a function of the disk's bytes, and the code computes that function in a harder
way: merged runs, batches, pages, windows, caches, workers, aliases. This project states the simple
meanings and proves that the hard computations agree with them.

Check everything with `dafny verify dfyconfig.toml`.

## The parts

- **Device and address space** (`Bytes`, `Disk`, `ApaVolume`). A device is a byte sequence with
  unreadable sectors; a *flaky* device may also fail any read at any time. What is proved for reads
  that succeed holds on flaky devices; "fails only when it must" is proved for the others. Every
  access is logged, so extent isolation is a statement about all accesses.
- **Partition chain** (`ApaScan`, `ApaLayout`). `Scan` against the declarative chain: distinct
  headers linked by `next` from LBA 0 to a final 0. An `ok` scan found the one such chain, and a
  failed one shows that no such chain exists. An encoder lays any headers out on a disk, and says
  which of these disks are accepted.
- **PFS** (`PfsFormat`, `PfsStream`, `PfsReader`, `PfsDirectory`, `PfsResolve`, `Paths`). The meaning
  of a file is the concatenation of its zones, found by walking descriptor slots one at a time;
  `Reader.Read`, with its merged runs, 16-bit count limit, edge sectors and 128-sector batches,
  delivers exactly a slice of it. `ParseEntries` inverts an encoder, and `DirectorySlots` says what it
  makes of arbitrary bytes.
- **Images** (`Records`, `PfsLayout`, `PfsImage`). The on-disk records written word by word, with a
  checksum of their own, and whole images: any content in any descriptors is read back.
- **Device pipeline** (`CacheStack`, `CachePolicy`, `PipelineDevices`, `ReadAheadHistory`). Page cache
  over read-ahead window over instrumentation: as a state machine in which any number of threads
  interleave, and as the three classes, whose `Read`s are proved to be runs of that machine step by
  step. Since the pipeline returns exactly the source's bytes, the modules above it are stated over
  the plain device.
- **Session** (`DriveSession`, `SessionThreads`). Probe, browse, stat and node caches hold what an
  uncached resolution of their key would give, through any sequence of calls and evictions; and, with
  every section under the cache lock as one step, through any interleaving of calls.
- **HDL enrichment** (`HdlEnrichment`, `ManagementModel`). Workers that claim indices from a shared
  counter and may be stopped at any time produce a prefix of the serial catalog; the view fed from
  their callbacks does not depend on the schedule.
- **Namespace and export** (`HostNames`, `MountView`, `Export`, `ExportedPaths`). Aliases the host can
  hold, the mounted namespace built from them, which shows everything and nothing else, the recursive
  export over a possibly cyclic graph, and what it leaves on the host.

## Conditions, and where the code differs from its prose

- `Scan` with a limit of 0 headers reports `ok` for any disk with a valid MBR and an empty list; with
  a limit of at least 1, `ok` means the whole chain was found.
- For valid zone sizes the metadata sector `(number << scale) * 2` is `number * (zone_size / 512)`,
  the same as for payload, although `docs/pfs-format-notes.md` (51-63) and the comment at
  `src/core/pfs.cpp:157-161` say otherwise (`PfsFormat.MetadataSector`).
- A prefetch needs two consecutive large reads only until a window is installed: later, a window hit
  of any size arms the next one, although the comment at
  `include/ps2hdd/read_ahead_block_device.hpp:26-29` says otherwise. `ReadAheadHistory` proves what
  does hold, and for which devices the comment's rule holds in every run.
- Session caching is exact for partition ids without the key separator and directories with
  distinct, separator-free names (`CleanSource`). `IdsCollideIff` and `ChildAgreesIff` say exactly
  when it is right otherwise, and disks that break the condition exist (`SeparatorInIdCollides`,
  `SeparatorNameExists`). A transient device failure can leave a failed probe
  (`SessionThreads.FailureIsRemembered`) or an unread child in a cache, so exactness of failures and
  of whole listings is stated for devices that are not flaky.
- `std::sort` is not stable, so the order of HDL partitions is determined exactly when no two
  different ones start at the same LBA (`HdlEnrichment.LbaOrderUniqueIff`); everything else holds
  for every order the sort may produce.

## Model

| member | source | states |
|---|---|---|
| `ApaVolume.ApaVolume.constructor` | src/core/apa_volume.cpp:7-17 | The extent table is the main extent followed by the recorded sub extents, in order. |
| `ApaVolume.ApaVolume.ReadSectors` | src/core/apa_volume.cpp:19-48 | A read that succeeds delivers the sectors of the selected extent and nothing else in the buffer changes; every device access it makes lies inside the extent `sub` selects, and there is none when `sub` selects nothing; it fails only when the run leaves the extent or a sector is unreadable, so the 64-bit LBA guard never fires. Empty runs included. |
| `ApaVolume.RunOkIsReadable` | src/core/apa_volume.cpp:19-48 | For extents on the device, a run of sectors is readable exactly when each of its sectors is. |
| `ApaScan.ReadHeader` | src/core/apa.cpp:93-100 | A header read and accepted is the header on the disk; on a device that does not fail by itself, rejection means there is no valid header there. |
| `ApaScan.AddPartition` | src/core/apa.cpp:160-204 | The partition keeps exactly the header's recorded sub extents, and the scan stays free of errors exactly when all its extents fit the device. |
| `ApaScan.Scan` | src/core/apa.cpp:102-225 | Terminates on every device and asks only for headers on it; `ok` exactly when the MBR is valid and following `next` from LBA 0 gives an acyclic chain of valid headers within the limit, ending in 0, with every extent on the device; the partitions are then that chain in order. |
| `ApaScan.ChainUnique` | src/core/apa.cpp:132-222 | A disk has at most one acceptable chain, so the result of a scan is determined by the disk. |
| `ApaScan.AcceptedUnique` | src/core/apa.cpp:132-222 | All accepted scans of one disk find the same partitions. |
| `ApaScan.AcceptedExtentsIsolate` | src/core/apa.cpp:170-204 | After an accepted scan every access inside a partition's extents is inside the device. |
| `ApaScan.AcceptedReadsIsolate` | src/core/apa.cpp:170-204 | After an accepted scan everything a reader of one of its partitions adds to the device's access log lies inside the device. |
| `ApaLayout.HeaderDecodes` | include/ps2hdd/apa.hpp:36-72 | A header laid out word by word, all 64 sub extents included, with the sum of its other words in front, is well-formed and decodes to what was laid out. |
| `ApaLayout.WellFormedIff` | src/core/apa.cpp:51-100 | Any 256 words are a header exactly when the second is the magic and the first is the sum of the other 255, wrapped once. |
| `ApaLayout.AcceptedIffOnDisk` | src/core/apa.cpp:102-225 | A disk of linked headers is accepted exactly when the first carries Sony's text, there are no more of them than the limit, and every extent they declare, main or sub, lies on the disk; what is listed is then what was written, total lengths included. |
| `ApaLayout.PlainAccepted` | src/core/apa.cpp:102-225 | Every list of main partitions, whatever their ids, is what the scan of some disk accepts. |
| `PfsFormat.MetadataChecksum` | src/core/pfs.cpp:40-58 | The wrapping loop computes the 32-bit truncation of the unbounded sum of words 1..255. |
| `PfsFormat.KindIsMask` | include/ps2hdd/pfs.hpp:28-30 | The kind of a node is its mode masked with 0xF000, bit by bit. |
| `PfsFormat.KindIgnoresPermissions` | include/ps2hdd/pfs.hpp:28-30 | Twelve permission bits below the kind change nothing. |
| `Records.ChecksumIsSum` | src/core/pfs.cpp:40-58 | For any 256 words in little-endian bytes the checksum is the sum of all but the first, wrapped once. |
| `PfsFormat.PowerOfTwoTest` | src/core/pfs.cpp:62-66 | `z & (z - 1)` is 0 exactly for powers of two. |
| `PfsFormat.ZoneIsShiftedMetadata` | src/core/pfs.cpp:62-66 | Every accepted zone size is 1 KiB shifted left by 1 to 7 places. |
| `PfsFormat.InodeScale` | src/core/pfs.cpp:155-169 | The doubling loop ends within 7 steps with the shift that turns 1 KiB into the zone size. |
| `PfsFormat.MetadataSector` | src/core/pfs.cpp:197-219 | The shift and the two 32-bit guards accept a block number exactly when `number * (zone_size / 512)` fits 32 bits, and give that sector. |
| `PfsReader.Probe` | src/core/pfs.cpp:78-145 | Accepts exactly the primary superblocks with the right magic, version, zone size and sub-partition references, on a main PFS partition (`PfsLayout.SuperOnVolume`); the backup never decides. |
| `PfsReader.Reader.ReadInode` | src/core/pfs.cpp:185-244 | Returns a node only for a present, checksum-valid SEGD record, and then that record (what that is: `PfsLayout.InodeOnVolume`); asks only for sectors of the extent the location names, and for none when the filesystem has not joined it. |
| `PfsReader.Reader.ReadSegmentDescriptor` | src/core/pfs.cpp:246-289 | The same for SEGI records. |
| `PfsLayout.SegdDecodes` | include/ps2hdd/pfs.hpp:33-82 | A SEGD record laid out word by word in the packed order of its fields, checksum in front, decodes to those fields. |
| `PfsLayout.SegiDecodes` | include/ps2hdd/pfs.hpp:84-95 | The same for a SEGI record and its 123 descriptors. |
| `PfsLayout.SuperDecodes` | include/ps2hdd/pfs.hpp:49-58 | The same for a superblock. |
| `PfsLayout.SuperOnVolume` | src/core/pfs.cpp:78-145 | A superblock laid out in sector 8192 mounts its partition exactly when the type is 0x0100 and not a sub-partition, magic and version are right, the zone size is one of the seven powers of two, and root and journal lie in joined extents; then its fields are the mounted ones. |
| `PfsLayout.InodeOnVolume` | src/core/pfs.cpp:185-244 | A SEGD record laid out where a location points, `number * (zone_size / 512)` sectors into its extent, is the inode there with those fields, unless it describes nothing or has more than 114 descriptors and no SEGI record. |
| `PfsLayout.InodeIff` | src/core/pfs.cpp:185-244 | Any 256 words at a location are an inode exactly when magic, sum, descriptor count and chain are right. |
| `PfsLayout.SegmentOnVolume` | src/core/pfs.cpp:246-289 | A SEGI record laid out where a location points is the one there, with those fields. |
| `PfsLayout.SegmentIff` | src/core/pfs.cpp:246-289 | Any 256 words at a location are a SEGI record exactly when the block number is not 0 and magic and sum are right. |
| `PfsReader.Reader.ReadZoneBytes` | src/core/pfs.cpp:291-360 | Edges and batches together deliver the bytes of the run's sectors, whatever the alignment, and succeed exactly when the sectors covered are readable; only the block's own extent is asked. |
| `PfsReader.Reader.CollectRuns` | src/core/pfs.cpp:383-454 | Merging adjacent descriptors under the 16-bit count limit yields runs covering the same sectors, in the same order, as the unmerged walk. |
| `PfsReader.MergedRun` | src/core/pfs.cpp:432-452 | Extending the last run by an adjacent descriptor keeps the run list a faithful cover of the walked blocks. |
| `PfsReader.Reader.Read` | src/core/pfs.cpp:362-488 | Succeeds exactly when the slot-by-slot walk up to `offset + len`, all covered sectors and the SEGI count check do (`PfsStream.ReadSucceedsIff`), and then fills the buffer with that slice of the concatenated zones; only extents are asked that the walk needs for its SEGI records and for data not wholly before `offset`. |
| `PfsStream.WalkMeaning` | src/core/pfs.cpp:394-454 | The walk is determined by a declarative reading: global slot g >= 114 is slot (g-114) mod 123 of the (g-114)/123-th chained SEGI record, slot 0 of each record carries no data, and the walk stops at the first slot not needed. |
| `PfsStream.WalkBounded` | src/core/pfs.cpp:394-454 | At most `number_data - 1` slots and ceil((number_data-114)/123) SEGI loads are used, even if `next_segment` forms a cycle; none when `number_data` <= 114. |
| `PfsStream.TouchedMeaning` | src/core/pfs.cpp:383-488 | Those extents, read declaratively: joined ones, each named by a slot the read reaches, as the place of a SEGI record or of data it needs. |
| `PfsStream.WalkMonotone` | src/core/pfs.cpp:394-454 | A walk for fewer bytes is a prefix of the walk for more. |
| `PfsStream.ReadSplits` | src/core/pfs.cpp:362-488 | When a range can be read so can every sub-range, with the matching slice. |
| `PfsStream.ReadsJoin` | src/core/pfs.cpp:362-488 | Two adjacent readable ranges make a readable range whose bytes are their concatenation. |
| `PfsStream.ReadSucceedsIff` | src/core/pfs.cpp:383-488 | With g the slot at which the walk for a non-empty range inside the file stops: the read succeeds exactly when the sectors under the range can be read and the SEGI records below g are at most as many as the inode declares, none declared meaning any number. |
| `PfsStream.ReadNeedsStop` | src/core/pfs.cpp:394-454 | Where the walk has no such slot, or the range leaves the file, no read succeeds. |
| `PfsStream.WellDescribedReads` | tests/pfs_segi_tests.cpp:1-172 | A file whose declared slots cover its size in readable sectors, and which declares exactly the SEGI records they use, can be read over every range inside its size. |
| `PfsImage.ImageMounts` | src/core/pfs.cpp:78-244 | The image of any content, cut into descriptors in any way, with its SEGI chain, inode and superblock, mounts and leads to that inode. |
| `PfsImage.WrittenIsRead` | src/core/pfs.cpp:362-488 | Every range of that file can be read and is that range of the content. |
| `PfsImage.ReadBack` | src/core/pfs.cpp:78-488 | Probing such an image, reading its root inode and then the file fills the buffer with the content. |
| `PfsDirectory.ParseEntries` | src/core/pfs.cpp:505-556 | The parsing loop computes the declarative scan of the directory's bytes; a malformed entry gives the empty list and an error. |
| `PfsDirectory.ListDirectory` | src/core/pfs.cpp:490-556 | Succeeds exactly when the directory's bytes can be read and parsed within the size limit, and gives its live entries in order; only extents its own slots need are asked. |
| `PfsDirectory.ScanWellPlaced` | src/core/pfs.cpp:505-556 | For arbitrary bytes every accepted slot lies inside one 512-byte sector and no two overlap. |
| `PfsDirectory.ListedBound` | src/core/pfs.cpp:505-556 | A directory of n bytes lists at most n/12 entries. |
| `PfsDirectory.ParseInvertsEncode` | src/core/pfs.cpp:505-556 | Parsing sectors that were each written as aligned entries and one free filler gives back exactly the live entries in order. |
| `DirectorySlots.SlotIff` | src/core/pfs.cpp:505-556 | The bytes at a place are a slot exactly when its length is a multiple of four from 8 below 4096, it ends in its own sector and in the directory, and its name fits; number, sub-partition, name and mode are the bytes that say so. |
| `DirectorySlots.ScanIff` | src/core/pfs.cpp:505-556 | Parsing arbitrary bytes succeeds exactly when slots fill them, each starting at the first place one may after the last, and finds those slots. |
| `DirectorySlots.ParseMeaning` | src/core/pfs.cpp:505-556 | What is listed are exactly the slots with a number and a name, dot entries only on request, in slot order. |
| `PfsImage.WrittenIsListed` | src/core/pfs.cpp:490-556 | A directory on an image, with any permission bits, lists what its sectors were written from, up to 64 MiB; a larger one, or a node of another kind, does not list. |
| `Paths.NormalizeCachePath` | src/host/drive_session.cpp:37-58 | The character loop computes the normal form: the components joined by single slashes. |
| `Paths.NormalizeSound` | src/host/drive_session.cpp:37-58 | Normalising keeps the component list and is idempotent. |
| `Paths.NormalizeComplete` | src/host/drive_session.cpp:37-66 | Two paths have the same normal form exactly when they have the same components. |
| `Paths.ChildComponents` | src/host/drive_session.cpp:68-76 | A child's path is normal and has the parent's components and then its name, for names without separators. |
| `Paths.ChildPathComponents` | src/host/drive_session.cpp:68-76 | For any name whatever, the path a child is cached under has the parent's components and then those of the name. |
| `Paths.SplitPath` | src/host/mount_view.cpp:38-57 | The two nested loops compute exactly the maximal separator-free runs. |
| `Paths.ComponentsOfJoin` | src/host/mount_view.cpp:38-57 | Splitting undoes joining with slashes. |
| `Paths.OnlySlashesSeparate` | src/host/mount_view.cpp:38-57 | Slash and backslash separate alike, and no other character does. |
| `PfsResolve.ResolvePath` | src/core/pfs.cpp:558-605 | Resolution is a fold of directory lookups over the components, skipping `.`; only extents the filesystem has joined are asked. |
| `PfsResolve.ResolveNormalized` | src/core/pfs.cpp:558-605 | A path and its normal form resolve alike. |
| `PfsResolve.DescendConcat` | src/core/pfs.cpp:558-605 | Following a path is following its first part and then the rest from there. |
| `PfsResolve.OneMoreComponent` | src/core/pfs.cpp:572-602 | One more component: `.` stays, any other name, `..` too, leads to the inode of the first entry of that name in the directory read with its dot entries, and nowhere when there is none. |
| `DriveSession.KeysFaithful` | src/host/drive_session.cpp:60-66 | For ids without the separator, two requests share a cache key exactly when id and components agree. |
| `DriveSession.SameIdKeys` | src/host/drive_session.cpp:60-66 | Two requests for one id, clean or not, share a key exactly when their paths have the same components. |
| `DriveSession.IdsCollideIff` | src/host/drive_session.cpp:60-66 | Two different ids can share a key for some paths exactly when the shorter one and the separator begin the longer one and what follows there could begin a normal path. |
| `DriveSession.SeparatorInIdCollides` | src/host/drive_session.cpp:60-66 | Two different requests share a key when an id contains the separator, and a disk exists whose scan accepts PFS partitions with such ids. |
| `DriveSession.ChildResolves` | src/host/drive_session.cpp:209-232 | In a clean directory a listed child is what its own path resolves to, so caching it under that path is right. |
| `DriveSession.ChildAgreesIffFirst` | src/host/drive_session.cpp:209-232 | With duplicate names, caching a child is right exactly when the first entry of that name leads to the same inode. |
| `DriveSession.ChildAgreesIff` | src/host/drive_session.cpp:209-232 | For any name, separators included, the cached child is right exactly when the walk of the name's components from the parent ends at its inode; spelled out for names with no component and with one. |
| `DriveSession.SeparatorInNameDisagrees` | src/host/drive_session.cpp:209-232 | On any volume, where a directory holds just an entry whose name a separator takes apart, the child is listed and readable and the path it is cached under resolves to nothing. |
| `DriveSession.AloneOnDisk` | src/core/pfs.cpp:505-556 | Every name the directory format can hold can stand alone in a directory, which then lists exactly it. |
| `DriveSession.SeparatorNameExists` | src/core/pfs.cpp:505-556 | Such a directory: one encodable entry named `a/b`. |
| `DriveSession.BoundedStore` | src/host/drive_session.cpp:90-99 | The bound is kept, the new entry is present, and at most one other entry is lost. |
| `DriveSession.DriveSession.Scan` | src/host/drive_session.cpp:109-126 | Success means an acceptable chain, whose partitions are kept; all four caches are empty afterwards and nothing ambiguous has been asked yet. |
| `DriveSession.DriveSession.ProbeFor` | src/host/drive_session.cpp:137-156 | The answer, cached or fresh, is the probe of the partition the id finds, and is in the cache afterwards; a cached one costs no device access. |
| `DriveSession.DriveSession.Browse` | src/host/drive_session.cpp:158-248 | Keeps every cache faithful and bounded, children included, and answers what an uncached listing of the path would; on a flaky device an answer can differ only in children that could not be read. A listing it gives is in the cache afterwards, and one that is there is given again without the device. Only the partition's own extents are asked. |
| `DriveSession.DriveSession.Stat` | src/host/drive_session.cpp:250-311 | Keeps every cache faithful and bounded and answers what resolving the path would; on a flaky device it may fail instead. An answer it gives is in the cache afterwards; a remembered answer or node costs no device access. Only the partition's own extents are asked. |
| `DriveSession.DriveSession.ReadFile` | src/host/drive_session.cpp:313-379 | Delivers the slice of the file the path resolves to, clamped to its end (`ReadsPartOfWhole`), whichever caches were hit; on a flaky device it may fail instead. Only the partition's own extents are asked. |
| `DriveSession.ReadsPartOfWhole` | src/host/drive_session.cpp:361-379 | Where the whole file can be read, a request reaching or passing its end gets everything from the offset on, any other exactly what it asks for, and one from the end on nothing. |
| `DriveSession.ReadsGoOn` | src/host/drive_session.cpp:361-379 | Two requests, the second starting where the first ended, deliver together what one request for both does, past the end included. |
| `DriveSession.StatShowsNode` | src/host/drive_session.cpp:250-311 | A stat shows where the node is, its kind without permission bits, and its size. |
| `DriveSession.StatAgreesWithLine` | src/host/drive_session.cpp:158-311 | In a clean directory a stat of a listed child agrees in inode, kind and size with the line its parent's listing shows. |
| `DriveSession.RunSession` | src/host/drive_session.cpp:109-379 | In any run of scans, listings, stats, reads and clears, with whatever evictions they cause, every answer is the uncached one over the partitions of the latest scan, as long as these are unambiguous and no ambiguous id was used since the last clear or scan, up to failures of a flaky device. Only scans change the partitions, a failed scan of a steady device shows that there is no acceptable chain, and nothing outside the device is asked for while the scans were accepted. |
| `DriveSession.ScansAgree` | src/host/drive_session.cpp:109-126 | All accepted scans of a run give the same partitions. |
| `SessionThreads.StepOk` | src/host/drive_session.cpp:90-379 | Over an unambiguous source one section under the lock, or the disk access between two, keeps caches and call right, whatever other calls and clears have done to the caches since the call's last step; what it inserts last is there for the next call. |
| `SessionThreads.RepliesAreUncached` | src/host/drive_session.cpp:137-379 | In every state that any interleaving of listings, stats, reads and clears of any number of threads reaches, the caches keep their bounds and hold only uncached answers, and every reply is the uncached one, up to failures of a flaky device. |
| `SessionThreads.CallsEnd` | src/host/drive_session.cpp:137-379 | A call under way can always take its next step, has at most eight to take, and nobody else's step sets it back. |
| `SessionThreads.FailureIsRemembered` | src/host/drive_session.cpp:137-158 | On a flaky device, once the probe of any mounted partition has failed in one call, another call can fail although none of its own reads did. |
| `DriveSession.SessionStaysOnDevice` | src/core/apa.cpp:170-204 | After an accepted scan what any session call adds to the access log lies inside the device. |
| `CacheStack.StackReturnsSourceBytes` | include/ps2hdd/read_cache_block_device.hpp:49-104 | For any interleaving of any number of threads reading and clearing: every page and the window are slices of the device, at most `kMaxPages` pages are kept, every read that returned true delivered the requested bytes, and on a reliable device every in-range read does. |
| `CacheStack.DataPreserved` | include/ps2hdd/read_ahead_block_device.hpp:44-117 | Each atomic action keeps pages, window and every thread's buffers slices of the device. |
| `CacheStack.ReachableInv` | include/ps2hdd/read_ahead_block_device.hpp:44-172 | All invariants of the three layers hold in every state any interleaving reaches. |
| `CacheStack.NeverStuck` | include/ps2hdd/read_cache_block_device.hpp:49-104 | In every reachable state every thread can take its next step, whatever the device and the compare-exchange do and whichever page is given up, so no run of the code is missing from the machine. |
| `CacheStack.QuiescentAccounts` | include/ps2hdd/instrumented_block_device.hpp:38-73 | With all calls returned: each call counted once as hit, miss or bypass at each layer, each layer's calls are the misses and bypasses above it, nothing in flight, both maxima are the largest values any reader obtained despite failed compare-exchanges, and prefetched bytes are the wasted ones, the unserved rest of the window and served ones. |
| `CacheStack.WastePreserved` | include/ps2hdd/read_ahead_block_device.hpp:164-172 | Every action keeps wasted bytes plus the unserved remainder plus windows about to be installed within the prefetched bytes, and the difference within the bytes served. |
| `CacheStack.PeakPreserved` | include/ps2hdd/instrumented_block_device.hpp:38-73 | Each maximum is a value some reader obtained, and any larger one is still being recorded. |
| `CachePolicy.ReadIsRouted` | include/ps2hdd/read_cache_block_device.hpp:49-65 | A read below 1 KiB inside one 4 KiB page looks for that page; any other goes past the pages. |
| `CachePolicy.CachedPageAnswers` | include/ps2hdd/read_cache_block_device.hpp:67-78 | In every reachable state a cached page answers at once with the device's bytes, counts a hit, and nothing below is asked, whether or not the device could answer. |
| `CachePolicy.UncachedPageIsFetched` | include/ps2hdd/read_cache_block_device.hpp:80-86 | A page that is not cached counts a miss and is asked for whole. |
| `CachePolicy.FetchedPageStays` | include/ps2hdd/read_cache_block_device.hpp:87-104 | A fetched page answers its read and is cached afterwards; of the other pages at most one goes, and only to make room beside 4096, which the eviction counter counts. |
| `CachePolicy.DirectReadIsPassedOn` | include/ps2hdd/read_cache_block_device.hpp:59-65 | A read past the pages asks for its own bytes and leaves the pages alone. |
| `CachePolicy.WindowAnswers` | include/ps2hdd/read_ahead_block_device.hpp:54-67 | Every request inside the window is answered from it with the device's bytes, without the device, and becomes the remembered request. |
| `CachePolicy.OutsideTheWindow` | include/ps2hdd/read_ahead_block_device.hpp:69-83 | Any other is a miss; below 32 KiB it is passed on as it is, from there on the sequence is looked at. |
| `CachePolicy.PrefetchFillsTheWindow` | include/ps2hdd/read_ahead_block_device.hpp:94-117 | After a prefetch the window holds the device's bytes from the read's offset to 256 KiB past its end, or to the end of the device; what the old window had not served is counted as wasted. |
| `CachePolicy.PrefetchIsCounted` | include/ps2hdd/read_ahead_block_device.hpp:103-106 | A prefetch is counted once, with the bytes it fetched beyond the read. |
| `CachePolicy.ClearsForget` | include/ps2hdd/read_ahead_block_device.hpp:141-149 | Clearing drops all pages, or the window and the memory of the last request, and counts what the window had not served as wasted. |
| `ReadAheadHistory.SequenceIsHistory` | include/ps2hdd/read_ahead_block_device.hpp:152-162 | After any run the layer remembers a request exactly when a read has succeeded through it and since the last one no smaller miss completed and nothing was cleared; what it remembers is that read's end. |
| `ReadAheadHistory.PrefetchHistory` | include/ps2hdd/read_ahead_block_device.hpp:79-117 | In every run a prefetch is decided only for a read of at least 32 KiB starting where an earlier read ended, with no successful read, small miss or clear in between; it adds at most 256 KiB and stays on the device. Until a window is installed after the start or a clear, the earlier read came after that point, from the device, and was at least 32 KiB. |
| `ReadAheadHistory.DecidesIffContinues` | include/ps2hdd/read_ahead_block_device.hpp:79-83 | A thread goes on to prefetch exactly from the sequence check, when its read starts where the remembered one ended. |
| `ReadAheadHistory.TwoLargeReadsIff` | include/ps2hdd/read_ahead_block_device.hpp:26-29 | The class comment's rule of two consecutive large reads holds in every run exactly on devices below 65 KiB, or up to 320 KiB with a single thread. |
| `ReadAheadHistory.RuleFailsAlone` | include/ps2hdd/read_ahead_block_device.hpp:54-67 | On any longer device one thread has a run in which a 1 KiB window hit sets off the prefetch. |
| `ReadAheadHistory.RuleFailsTogether` | include/ps2hdd/read_ahead_block_device.hpp:54-92 | From 65 KiB on two threads have such a run. |
| `PipelineDevices.InstrumentedDevice.Read` | include/ps2hdd/instrumented_block_device.hpp:38-73 | Any request is counted, passed on, and leaves nothing in flight; for requests inside the device the counters, both compare-exchange loops and the device read are, in order, the machine's steps, spurious failures included. |
| `PipelineDevices.ReadAheadDevice.Read` | include/ps2hdd/read_ahead_block_device.hpp:44-117 | Refuses requests outside the device and answers empty ones; every other call is a run of the machine's steps, window, sequence and counters included. |
| `PipelineDevices.ReadAheadDevice.Clear` | include/ps2hdd/read_ahead_block_device.hpp:141-149 | Accounts for what nobody was served and forgets window and sequence, as the machine's clear does. |
| `PipelineDevices.ReadCacheDevice.Read` | include/ps2hdd/read_cache_block_device.hpp:49-104 | Every call is a run of the machine from its own read action, so all its invariants are kept; it delivers exactly the requested bytes, and fails only outside the device or when the device does. |
| `PipelineDevices.ReadCacheDevice.Clear` | include/ps2hdd/read_cache_block_device.hpp:128-132 | Drops all pages, nothing else, and keeps the invariants. |
| `PipelineDevices.RunKeepsInv` | include/ps2hdd/read_cache_block_device.hpp:49-104 | Every run of one thread, whatever fails on the way, keeps all invariants of the three layers. |
| `HdlEnrichment.LbaOrderUniqueIff` | src/core/hdl.cpp:167-178 | The unstable sort has only one possible result exactly when HDL partitions that start at the same LBA are the same partition. |
| `HdlEnrichment.HdlMainsByLba` | src/host/hdl_enrichment.cpp:14-26 | The list that is read holds each HDL main partition as often as the scan does, sorted by start LBA. |
| `HdlEnrichment.OrderHoldsHdlMains` | src/host/hdl_enrichment.cpp:14-26 | It holds exactly the partitions of type 0x1337 whose flags mark no sub-partition, each as often as the scan does. |
| `HdlEnrichment.ChooseMaxInFlight` | src/host/hdl_enrichment.cpp:30-55 | Never more workers than candidates, and none only for none; fewer than an override asks for, or than four on solid-state media, only when there are no more candidates; otherwise at most one. |
| `HdlEnrichment.ReadCatalog` | src/core/hdl.cpp:164-201 | The serial loop gives the catalog of a prefix of the HDL main partitions in an LBA order, all of it when nobody asks to stop, and reports each entry as it is read. |
| `HdlEnrichment.NextInv` | src/host/hdl_enrichment.cpp:82-105 | Every atomic step of every worker keeps: no index has two owners, every claimed index is owned or filled with its own result, every completion number is used once. |
| `HdlEnrichment.StepDescends` | src/host/hdl_enrichment.cpp:85-103 | Every worker step makes progress, so every schedule ends. |
| `HdlEnrichment.JoinedSlots` | src/host/hdl_enrichment.cpp:82-105 | After the join exactly the claimed slots are filled, and they form a prefix. |
| `HdlEnrichment.ReportsComplete` | src/host/hdl_enrichment.cpp:95-100 | The progress callback has seen each of 1..k exactly once. |
| `HdlEnrichment.ReportedGames` | src/host/hdl_enrichment.cpp:95-100 | The games reported are exactly those of the claimed partitions, each once. |
| `HdlEnrichment.ParallelIsSerialPrefix` | src/host/hdl_enrichment.cpp:57-120 | For every interleaving and every moment of cancellation the slots are a prefix of the serial results, all of them without a stop request, and every completion was reported once. |
| `HdlEnrichment.PrefixOfSerial` | src/host/hdl_enrichment.cpp:107-119 | A prefix catalog has the serial entries cut short; readable plus unreadable is the entry count; cancelled exactly when the prefix is proper. |
| `HdlEnrichment.CountOkIsCardinality` | src/host/hdl_enrichment.cpp:107-119 | The readable count is the number of entries that were read. |
| `HdlEnrichment.Collect` | src/host/hdl_enrichment.cpp:107-119 | Collecting the filled slots gives the catalog of that prefix. |
| `HdlEnrichment.EnrichHdlCatalog` | src/host/hdl_enrichment.cpp:57-120 | For any schedule the scheduler ends with a prefix of the serial catalog of an LBA order of the scan's HDL main partitions, the whole of it when nobody asks to stop; it has reported exactly the games of that prefix, each once, and every completion number once. |
| `ManagementModel.ManagementModel.constructor` | src/host/management_model.cpp:7-21 | One row per catalog entry in order, pending exactly for HDL mains, with the counters agreeing. |
| `ManagementModel.ManagementModel.ApplyHdlResult` | src/host/management_model.cpp:23-52 | Changes exactly the first HDL row with the result's LBA, and the counters keep being the numbers of rows in each state. |
| `ManagementModel.Confluent` | src/host/management_model.cpp:23-52 | Results with distinct LBAs give the same rows and counters in any order. |
| `ManagementModel.ReapplyChangesNothing` | src/host/management_model.cpp:23-52 | Re-applying a result that has arrived, whatever arrived since, changes no row and no counter. |
| `ManagementModel.RowAfter` | src/host/management_model.cpp:23-52 | After all results a row shows the one result for its LBA, or is untouched. |
| `ManagementModel.RowShowsResult` | src/host/management_model.cpp:23-52 | After all results the row of each shows Ready with the game and no error when it was read, and Failed with the error and no game otherwise. |
| `ManagementModel.CountIsCardinality` | src/host/management_model.cpp:7-52 | Each counter is the number of rows in its state. |
| `ManagementModel.AllArrived` | src/host/management_model.cpp:23-52 | When every row's result has arrived nothing is pending. |
| `ManagementModel.ViewIgnoresScheduling` | src/host/management_model.cpp:23-52 | A view fed from the callbacks of any parallel run ends as if fed the serial catalog. |
| `HostNames.SanitizeHostFilename` | src/host/pfs_export.cpp:208-233 | The loops compute the sanitised name; the trailing loop replaces only the last character. |
| `HostNames.SanitizeFixesExactlyTheIllegal` | src/host/pfs_export.cpp:208-233 | Every sanitised name is non-empty, free of illegal characters and device stems, and ends in neither dot nor space; and a name is left alone exactly when it has these properties. |
| `HostNames.SanitizeIdempotent` | src/host/pfs_export.cpp:208-233 | Sanitising twice is sanitising once. |
| `HostNames.SanitizeCharwise` | src/host/pfs_export.cpp:208-233 | Character by character: what the host refuses, and a final dot or space, become underscores, the rest stays, and an underscore goes in front exactly of what would be reserved; empty and dot names become one underscore. |
| `HostNames.ReservedNames` | src/host/pfs_export.cpp:51-64 | Reserved are the 22 device names, alone or before a dot, in any case. |
| `HostNames.FoldsTheAlphabet` | src/host/pfs_export.cpp:39-49 | Folding case exchanges the 26 small letters for the capital ones and nothing else. |
| `HostNames.DecimalReadsBack` | src/host/pfs_export.cpp:187-192 | Decimal suffixes of different numbers differ. |
| `HostNames.CandidatesDistinct` | src/host/pfs_export.cpp:187-192 | The names tried for one entry differ pairwise in more than case. |
| `HostNames.Pigeonhole` | src/host/pfs_export.cpp:187-192 | k candidates cannot all be taken by fewer than k names, so the suffix loop ends. |
| `HostNames.ClaimAlias` | src/host/pfs_export.cpp:187-192 | The loop ends within as many turns as names are used, with the first free candidate, and claims its upper-case form. |
| `HostNames.CandidateLegal` | src/host/pfs_export.cpp:187-192 | Adding a suffix keeps a legal name legal. |
| `HostNames.AliasesLegalAndDistinct` | src/host/mount_view.cpp:70-113 | All aliases of a directory are legal and pairwise differ in more than case. |
| `HostNames.AliasKeepsFreeName` | src/host/mount_view.cpp:80-85 | An entry keeps its sanitised name exactly when nobody before it took that name. |
| `HostNames.TwinsAreNumbered` | src/host/pfs_export.cpp:173-200 | Names that sanitise alike get the suffixes `_2`, `_3`, ... in order. |
| `MountView.MakeEntryAliases` | src/host/mount_view.cpp:70-94 | One alias per readable directory or regular file, in entry order, each chosen after those before it (`DirectoryShowsAll`). |
| `MountView.MakePartitionAliases` | src/host/mount_view.cpp:96-113 | One alias per main PFS partition, in scan order (`PartitionsShown`). |
| `MountView.DirectoryShowsAll` | src/host/mount_view.cpp:70-94 | A directory can be listed exactly when the filesystem finds a directory there and lists it; then it shows exactly the entries whose inode can be read and is a directory or a regular file, in their order, with that kind and size. |
| `MountView.EveryEntryOpens` | src/host/mount_view.cpp:160-198 | Every such entry of a directory an accepted path leads to is opened by some name shown there, with its kind and size and its name added to the backing path. |
| `MountView.PartitionsShown` | src/host/mount_view.cpp:96-113 | The partitions shown are exactly those of type 0x0100 whose flags mark no sub-partition, in scan order, each under an alias of its id. |
| `MountView.RootShowsPartitions` | src/host/mount_view.cpp:123-159 | The root shows the one directory `Partitions`, and every accepted path starts there, in any case. |
| `MountView.ListedNamesAreComponents` | src/host/mount_view.cpp:200-240 | No listed name is empty, a dot component, or splits into several components. |
| `MountView.ListedNameOpens` | src/host/mount_view.cpp:115-198 | A listed name, in any case, opens the alias made from its entry, with that kind, size and backing name; for entries below a partition that is the entry itself (`PlacesAreNodes`), for partitions see `PartitionOpensOwnIff`. |
| `MountView.PartitionOpensOwnIff` | src/host/mount_view.cpp:96-113 | A partition's alias opens the first main partition of any type with the id behind it; that is the one it was made from exactly when no earlier main partition has the same id. |
| `MountView.ShadowedPartitionExists` | src/host/mount_view.cpp:96-113 | On a disk whose scan is accepted two partitions of one id are shown and both aliases open the first. |
| `MountView.AcceptedIffListed` | src/host/mount_view.cpp:130-240 | Lookup accepts exactly the paths made of listed names, in any case, and the case never changes the answer. |
| `MountView.AppendedNameOpens` | src/host/mount_view.cpp:130-198 | Appending a listed name to an accepted path string after either separator opens that entry. |
| `MountView.ForbiddenNeverFound` | src/host/mount_view.cpp:123-144 | Refusing dot components early refuses nothing that lookup would have found. |
| `MountView.PlacesAreNodes` | src/host/mount_view.cpp:160-198 | Over an unambiguous source every accepted path below a partition denotes a node of that kind and size, reached by the backing path. |
| `MountView.NeverMisleadsIff` | src/host/mount_view.cpp:70-121 | In a directory with different names, whatever children are unread, a name found in the listing opens what it opens in the whole listing: this holds exactly where no two sanitised names differ at most in case. |
| `MountView.CaseTwinsMislead` | src/host/mount_view.cpp:70-121 | It does not hold where two files are called `X` and `x`. |
| `MountView.MountView.Lookup` | src/host/mount_view.cpp:130-198 | Computes what the components denote, one directory at a time, so that every entry of the filesystem is found (`EveryEntryOpens`); on a flaky device a successful answer is still right where no directory needs a suffix. Nothing outside the device is asked for after an accepted scan, as in the next two. |
| `MountView.MountView.ListDirectory` | src/host/mount_view.cpp:200-240 | Shows the aliases of the directory the path denotes, all of them (`DirectoryShowsAll`), and fails for files and unknown paths; on a flaky device where no directory needs a suffix it shows only such aliases. |
| `MountView.MountView.ReadFile` | src/host/mount_view.cpp:242-261 | Delivers the bytes of the file the path denotes, clamped to its end, and fails for anything else; on a flaky device where no directory needs a suffix what it delivers is still that. |
| `MountView.MountSource` | src/host/drive_session.cpp:103-126 | After scanning and mounting, over an unambiguous source the conditions of the three methods above hold. |
| `Export.Exporter.ExportFile` | src/host/pfs_export.cpp:89-140 | The host file is the whole logical file despite the chunk loop, and counters grow by one file and its bytes; on failure the host's files are the old ones, without the destination if it was already opened. |
| `Export.Exporter.ExportNode` | src/host/pfs_export.cpp:80-204 | Terminates on every graph, leaves the active directories as it found them on every path, and succeeds only with a finite tree that mirrors the graph and accounts for counters, files and directories (`ExportedPaths`); if neither device nor host fails by itself, failure means no such tree exists. Finished or not, nothing outside the destination changes, every new file is the whole content of a file the graph reaches, at most one old file is lost, and only joined extents are asked. |
| `Export.Exporter.ExportEntries` | src/host/pfs_export.cpp:173-200 | The same for the entries of one directory: unreadable inodes are skipped and counted, the others exported under distinct aliases. |
| `Export.ExportToHost` | src/host/pfs_export.cpp:235-248 | The same for the node a path resolves to, starting from zero counters; what the host has gained then is said by the next three. |
| `ExportedPaths.ExportAddsExactly` | src/host/pfs_export.cpp:80-204 | After a successful export the host has gained exactly the directory of every exported directory and those above every exported directory and file, and exactly the exported files with their bytes; the directory counter is the number of paths of exported directories. |
| `ExportedPaths.DirectoriesMirrored` | src/host/pfs_export.cpp:142-204 | The same over the volume: a directory is on the host exactly when it was before, or lies at or above a directory, or above a regular file, that aliases of entries with readable inodes lead to from the exported node. |
| `ExportedPaths.FilesMirrored` | src/host/pfs_export.cpp:89-204 | A file is on the host exactly when it was before, or the aliases that make up its path lead to a regular file; it then holds the whole content of that file. |
| `Export.CountersAddUp` | src/host/pfs_export.cpp:80-204 | Files, directories and skipped entries together are one plus the entries of all exported directories; bytes are the sum of the file sizes. |
| `Export.FilesStayApart` | src/host/pfs_export.cpp:173-200 | No exported file overwrites another, even on a host that ignores case. |
| `Export.ExportedIsAcyclic` | src/host/pfs_export.cpp:80-153 | An export succeeds only if nothing lies deeper than 256 levels and no directory contains, at any depth, one with its own sub-partition and number. |
| `Export.ExportedUnique` | src/host/pfs_export.cpp:80-204 | When only unreadable inodes are skipped, a node has at most one export. |
| `Export.ChunkStep` | src/host/pfs_export.cpp:105-134 | A chunk that can be read extends the copied prefix of the file; one that cannot means the whole file cannot be read. |

## Left out

- Windows and POSIX devices, discovery, elevation, Dokany, launchers, both GUIs, command lines and build scripts: foreign calls and plumbing.
- Timers, byte and time counters, display names, storage characteristics beyond the media class, `reset_stats`, and wrap-around of statistics counters (they are natural numbers here).
- Error texts: only whether an operation failed is modelled; `HdlEnrichment` keeps one string for all remaining HDL metadata, whose decoding is a deterministic function of the partition.
- Memory ordering: relaxed atomics are atomic steps. Interleaved calls are modelled on values (`CacheStack`, the workers of `HdlEnrichment`), one call at a time on objects (`PipelineDevices`); reads return their bytes instead of filling a caller's buffer.
- `PipelineDevices.InstrumentedDevice.Read`: a compare-exchange fails spuriously only finitely often.
- `CacheStack.StackReturnsSourceBytes`: the page bytes travel with the thread until it inserts them, so the copy into the caller's buffer and the insertion are one step.
- Interleaved calls into one session are modelled on values (`SessionThreads`); the class `DriveSession` serves one call at a time. A scan while other calls run is left out: the source replaces the scan result without taking the lock.
- `DriveSession.DriveSession.ReadFile`: the caller's buffer is filled from a private one after success, so what a failed read leaves in it is not modelled.
- `PfsReader.Reader.Read`: the buffer's contents after a failed read are unspecified, as the code promises nothing about them.
- `HostNames.ClaimAlias`: the suffix is a natural number; its 32-bit counter could wrap only after 2^32 - 2 siblings with the same name.
- `MountView.MountView.Lookup`: a failed lookup carries no partial result; nothing is said of answers from a flaky device where directories need suffixes, because there they can be wrong (`NeverMisleadsIff`).
- `Export.HostTree.Append`: a write that succeeds is on the host at once. The source ignores a flush that fails when the stream closes, so a whole file on the host rests on that flush succeeding.
- `Export.ExportToHost`: progress callbacks and warning texts are left out, an empty destination path is not considered, and the host tree is a map keyed by upper-case paths, the least favourable host for collisions.
- `partition_catalog.cpp`, `dokany_open_policy.hpp`, `darkness_policy.hpp`: folds and small decision tables that one reading settles.

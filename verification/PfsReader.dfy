/**
 * The PFS reader: runs, edge sectors and batches, proved to deliver the stream of `PfsStream`.
 * On every device a successful call is right; on a device that is not flaky a call succeeds
 * exactly when the stream says it should.
 */
module PfsReader {
  import opened Bytes
  import opened Disk
  import opened ApaVolume
  import opened PfsFormat
  import opened PfsStream

  datatype ProbeResult = ProbeResult(valid: bool, backupMatches: bool, super: SuperBlock)

  /** A maximal stretch of adjacent descriptors the reader treats as one. */
  datatype Run = Run(block: BlockInfo, start: nat, bytes: nat)

  const BATCH_SECTORS: nat := 128

  // ---- probing ----

  function SuperAt(v: Volume, sector: U32): Option<SuperBlock> {
    if v.RunOk(0, sector, 1) then Some(DecodeSuper(v.RunBytes(0, sector, 1))) else None
  }

  /** The superblock a main PFS partition is accepted with. */
  function ProbeAt(v: Volume, kind: U16, isSub: bool): Option<SuperBlock> {
    if kind != TYPE_PFS || isSub then None
    else
      match SuperAt(v, SUPER_SECTOR)
      case None => None
      case Some(sb) =>
        if && sb.magic == SUPER_MAGIC && sb.version <= FORMAT_VERSION && ValidZoneSize(sb.zoneSize)
           && sb.numSubs < |v.extents| && sb.root.subpart <= sb.numSubs && sb.log.subpart <= sb.numSubs
        then Some(sb) else None
  }

  const NO_SUPER := SuperBlock(0, 0, 0, 0, BlockInfo(0, 0, 0), BlockInfo(0, 0, 0))

  method ReadSuper(volume: ApaVolume, sector: U32) returns (ok: bool, super: SuperBlock, raw: seq<Byte>)
    modifies volume.device`log
    ensures Confined(volume.Vol(), {0}, old(volume.device.log), volume.device.log)
    ensures ok ==> SuperAt(volume.Vol(), sector) == Some(super)
    ensures ok ==> raw == volume.Vol().RunBytes(0, sector, 1) && |raw| == SECTOR
    ensures !volume.device.flaky && SuperAt(volume.Vol(), sector).Some? ==> ok
  {
    var buffer := new Byte[SECTOR];
    ok := volume.ReadSectors(0, sector, 1, buffer, 0, SECTOR);
    raw := buffer[..];
    super := DecodeSuper(raw);
    assert buffer[0..SECTOR] == buffer[..];
  }

  /** Probing accepts a volume exactly when its primary superblock is acceptable. */
  method Probe(volume: ApaVolume, kind: U16, isSub: bool) returns (r: ProbeResult)
    requires |volume.extents| > 0
    modifies volume.device`log
    ensures Confined(volume.Vol(), {0}, old(volume.device.log), volume.device.log)
    ensures r.valid ==> ProbeAt(volume.Vol(), kind, isSub) == Some(r.super)
    ensures r.valid ==> ValidZoneSize(r.super.zoneSize) && r.super.numSubs < |volume.extents|
    ensures !volume.device.flaky ==> r.valid == ProbeAt(volume.Vol(), kind, isSub).Some?
    ensures r.backupMatches ==>
      && r.valid && volume.Vol().RunOk(0, SUPER_BACKUP_SECTOR, 1)
      && volume.Vol().RunBytes(0, SUPER_BACKUP_SECTOR, 1)[..40] == volume.Vol().RunBytes(0, SUPER_SECTOR, 1)[..40]
  {
    hide ValidZoneSize, DecodeSuper;
    ConfinedReflexive(volume.Vol(), {0}, volume.device.log);
    r := ProbeResult(false, false, NO_SUPER);
    if kind != TYPE_PFS || isSub {
      return;
    }
    var ok, super, raw := ReadSuper(volume, SUPER_SECTOR);
    if !ok {
      return;
    }
    r := ProbeResult(false, false, super);
    if || super.magic != SUPER_MAGIC || super.version > FORMAT_VERSION || !ValidZoneSize(super.zoneSize) {
      return;
    }
    var availableSubs := |volume.extents| - 1;
    if super.numSubs > availableSubs || super.root.subpart > super.numSubs || super.log.subpart > super.numSubs {
      return;
    }
    ghost var v, before := volume.Vol(), volume.device.log;
    var backupOk, _, backup := ReadSuper(volume, SUPER_BACKUP_SECTOR);
    assert volume.Vol() == v;
    ConfinedTransitive(v, {0}, old(volume.device.log), before, volume.device.log);
    r := ProbeResult(true, backupOk && raw[..40] == backup[..40], super);
  }

  // ---- one descriptor, or one run, read as bytes ----

  function ZoneAddr(b: BlockInfo, spz: nat, r: nat): Addr {
    Addr(b.subpart, Times(b.number, spz) + r)
  }

  function ZoneByte(v: Volume, b: BlockInfo, spz: nat, p: nat): Byte {
    v.ByteAt(ZoneAddr(b, spz, p / SECTOR), p % SECTOR)
  }

  /** Every sector of the block that the range overlaps exists and can be read. */
  predicate ZoneSectorsOk(v: Volume, b: BlockInfo, spz: nat, offset: nat, len: nat) {
    forall r: nat :: r < offset + len && Covers(r, offset, len) ==> v.SectorOk(ZoneAddr(b, spz, r))
  }

  /** Reading `len` bytes at `offset` inside one block succeeds. */
  predicate ZoneOk(v: Volume, sb: SuperBlock, b: BlockInfo, offset: nat, len: nat) {
    && b.subpart <= sb.numSubs && b.subpart < |v.extents|
    && offset + len <= BlockBytes(sb, b)
    && ZoneSectorsOk(v, b, SectorsPerZone(sb.zoneSize), offset, len)
  }

  // ---- runs ----

  /** The run describes exactly its stretch of the file's sector map. */
  ghost predicate RunMaps(sectors: seq<Addr>, run: Run, spz: nat) {
    var first, n := run.start / SECTOR, Times(run.block.count, spz);
    && run.start % SECTOR == 0 && run.bytes == n * SECTOR && n > 0
    && first + n <= |sectors|
    && sectors[first..first + n] == BlockSectors(run.block, spz)
  }

  /** The runs tile the map from at or before `offset` to its end. */
  ghost predicate RunsCover(runs: seq<Run>, sectors: seq<Addr>, spz: nat, offset: nat) {
    && (forall k :: 0 <= k < |runs| ==> RunMaps(sectors, runs[k], spz))
    && (forall k :: 0 < k < |runs| ==> runs[k].start == runs[k - 1].start + runs[k - 1].bytes)
    && (if runs == [] then |sectors| * SECTOR <= offset
        else runs[0].start <= offset < |sectors| * SECTOR
             && runs[|runs| - 1].start + runs[|runs| - 1].bytes == |sectors| * SECTOR)
  }

  /** The next descriptor continues the run on disk and the joint count still fits 16 bits. */
  predicate Mergeable(previous: Run, block: BlockInfo, logical: nat) {
    && previous.block.subpart == block.subpart
    && previous.block.number + previous.block.count == block.number
    && previous.start + previous.bytes == logical
    && previous.block.count + block.count <= U16_MAX
  }

  lemma MergedSectors(a: BlockInfo, b: BlockInfo, spz: nat)
    requires a.subpart == b.subpart && a.number + a.count == b.number && a.count + b.count <= U16_MAX
    ensures BlockSectors(a.(count := a.count + b.count), spz) == BlockSectors(a, spz) + BlockSectors(b, spz)
  {
    hide Times;
    TimesAdd(a.count, b.count, spz);
    TimesAdd(a.number, a.count, spz);
  }

  /** Growing the map at its end leaves the runs in place. */
  lemma RunsStay(runs: seq<Run>, sectors: seq<Addr>, more: seq<Addr>, spz: nat)
    requires forall k :: 0 <= k < |runs| ==> RunMaps(sectors, runs[k], spz)
    ensures forall k :: 0 <= k < |runs| ==> RunMaps(sectors + more, runs[k], spz)
  {
    hide Times, BlockSectors;
    forall k | 0 <= k < |runs| ensures RunMaps(sectors + more, runs[k], spz) {
      var first, n := runs[k].start / SECTOR, Times(runs[k].block.count, spz);
      assert RunMaps(sectors, runs[k], spz);
      assert (sectors + more)[first..first + n] == sectors[first..first + n];
    }
  }

  lemma {:induction false} PushedRun(runs: seq<Run>, sectors: seq<Addr>, block: BlockInfo, spz: nat, offset: nat,
                                     bytes: nat)
    requires RunsCover(runs, sectors, spz, offset)
    requires bytes == Times(block.count, spz) * SECTOR && bytes > 0
    requires (|sectors| * SECTOR) + bytes > offset
    ensures RunsCover(runs + [Run(block, |sectors| * SECTOR, bytes)], sectors + BlockSectors(block, spz), spz, offset)
  {
    hide BlockSectors;
    hide Times;
    var added := BlockSectors(block, spz);
    RunsStay(runs, sectors, added, spz);
    var run := Run(block, |sectors| * SECTOR, bytes);
    assert (sectors + added)[|sectors|..|sectors| + |added|] == added;
    assert RunMaps(sectors + added, run, spz);
  }

  lemma {:induction false} MergedRun(runs: seq<Run>, sectors: seq<Addr>, block: BlockInfo, spz: nat, offset: nat,
                                     bytes: nat)
    requires runs != [] && RunsCover(runs, sectors, spz, offset)
    requires Mergeable(runs[|runs| - 1], block, |sectors| * SECTOR)
    requires bytes == Times(block.count, spz) * SECTOR && bytes > 0
    ensures var last := runs[|runs| - 1];
      var merged := Run(last.block.(count := last.block.count + block.count), last.start, last.bytes + bytes);
      RunsCover(runs[..|runs| - 1] + [merged], sectors + BlockSectors(block, spz), spz, offset)
  {
    hide Times, BlockSectors;
    var last := runs[|runs| - 1];
    var merged := Run(last.block.(count := last.block.count + block.count), last.start, last.bytes + bytes);
    var added := BlockSectors(block, spz);
    MergedSectors(last.block, block, spz);
    TimesAdd(last.block.count, block.count, spz);
    RunsStay(runs[..|runs| - 1], sectors, added, spz);
    var first, n := last.start / SECTOR, Times(last.block.count, spz);
    assert RunMaps(sectors, last, spz);
    assert first + n == |sectors|;
    assert (sectors + added)[first..] == sectors[first..first + n] + added;
    assert RunMaps(sectors + added, merged, spz);
  }

  /** One more descriptor: skipped, merged into the last run, or a run of its own. */
  function AddToRuns(runs: seq<Run>, block: BlockInfo, logical: nat, segmentSize: nat, offset: nat): seq<Run> {
    if logical + segmentSize <= offset then runs
    else if runs != [] && Mergeable(runs[|runs| - 1], block, logical) then
      var last := runs[|runs| - 1];
      runs[..|runs| - 1] + [Run(last.block.(count := last.block.count + block.count), last.start,
                                last.bytes + segmentSize)]
    else runs + [Run(block, logical, segmentSize)]
  }

  lemma {:induction false} SkippedRun(runs: seq<Run>, sectors: seq<Addr>, block: BlockInfo, spz: nat, offset: nat)
    requires RunsCover(runs, sectors, spz, offset)
    requires (|sectors| + Times(block.count, spz)) * SECTOR <= offset
    ensures RunsCover(runs, sectors + BlockSectors(block, spz), spz, offset)
  {
    hide Times, RunMaps;
  }

  lemma {:induction false} AddedRun(runs: seq<Run>, sectors: seq<Addr>, block: BlockInfo, spz: nat, offset: nat,
                                    segmentSize: nat)
    requires RunsCover(runs, sectors, spz, offset)
    requires segmentSize == Times(block.count, spz) * SECTOR && segmentSize > 0
    ensures RunsCover(AddToRuns(runs, block, |sectors| * SECTOR, segmentSize, offset),
                      sectors + BlockSectors(block, spz), spz, offset)
  {
    hide Times, BlockSectors, RunMaps, RunsCover;
    var logical := |sectors| * SECTOR;
    if logical + segmentSize <= offset {
      SkippedRun(runs, sectors, block, spz, offset);
    } else if runs != [] && Mergeable(runs[|runs| - 1], block, logical) {
      MergedRun(runs, sectors, block, spz, offset, segmentSize);
    } else {
      PushedRun(runs, sectors, block, spz, offset, segmentSize);
    }
  }

  /** The runs lie in the given extents. */
  ghost predicate RunsWithin(sb: SuperBlock, runs: seq<Run>, subs: set<nat>) {
    forall k :: 0 <= k < |runs| ==> JoinedSub(sb, runs[k].block.subpart) <= subs
  }

  lemma NoRunsWithin(sb: SuperBlock, subs: set<nat>)
    ensures RunsWithin(sb, [], subs)
  {
  }

  lemma AddedWithin(sb: SuperBlock, runs: seq<Run>, block: BlockInfo, logical: nat, size: nat, offset: nat,
                    subs: set<nat>)
    requires RunsWithin(sb, runs, subs)
    requires logical + size > offset ==> JoinedSub(sb, block.subpart) <= subs
    ensures RunsWithin(sb, AddToRuns(runs, block, logical, size, offset), subs)
  {
    hide JoinedSub;
  }

  /** What one more slot adds to the extents a read may touch. */
  lemma TouchedStep(v: Volume, sb: SuperBlock, node: Inode, g: nat, next: BlockInfo, indirect: Option<Segment>,
                    logical: nat, offset: nat, limit: nat)
    requires 1 <= g < node.numberData && logical < limit
    ensures var here := TouchedFrom(v, sb, node, g, next, indirect, logical, offset, limit);
      && (IsHeader(g) ==> JoinedSub(sb, next.subpart) <= here)
      && match SlotStep(v, sb, node, g, next, indirect)
         case Unusable => true
         case Loaded(s) => TouchedFrom(v, sb, node, g + 1, s.nextSegment, Some(s), logical, offset, limit) <= here
         case Data(block) =>
           var end := logical + BlockBytes(sb, block);
           end <= U64_MAX ==>
             && (end > offset ==> JoinedSub(sb, block.subpart) <= here)
             && TouchedFrom(v, sb, node, g + 1, next, indirect, end, offset, limit) <= here
  {
    hide JoinedSub, BlockBytes;
  }

  /** The state of the run-collecting walk before slot `g`. */
  ghost predicate Progress(v: Volume, sb: SuperBlock, node: Inode, offset: nat, limit: nat, g: nat, next: BlockInfo,
                           indirect: Option<Segment>, logical: nat, runs: seq<Run>, n: nat, bs: seq<BlockInfo>)
  {
    var spz := SectorsPerZone(sb.zoneSize);
    && g >= 1
    && logical == |Flatten(bs, spz)| * SECTOR
    && WalkTo(v, sb, node, limit) == WalkFrom(v, sb, node, g, next, indirect, logical, limit).After(bs, n)
    && RunsCover(runs, Flatten(bs, spz), spz, offset)
  }

  lemma ProgressStart(v: Volume, sb: SuperBlock, node: Inode, offset: nat, limit: nat)
    ensures Progress(v, sb, node, offset, limit, 1, node.nextSegment, None, 0, [], 0, [])
  {
    hide WalkFrom, SectorsPerZone;
    var w := WalkFrom(v, sb, node, 1, node.nextSegment, None, 0, limit);
    assert w.After([], 0) == w by {
      if w.Walked? {
        assert [] + w.blocks == w.blocks;
      }
    }
  }

  lemma ProgressStep(v: Volume, sb: SuperBlock, node: Inode, offset: nat, limit: nat, g: nat, next: BlockInfo,
                     indirect: Option<Segment>, logical: nat, runs: seq<Run>, n: nat, bs: seq<BlockInfo>)
    requires WholeSectors(sb.zoneSize)
    requires Progress(v, sb, node, offset, limit, g, next, indirect, logical, runs, n, bs)
    requires g < node.numberData && logical < limit
    ensures match SlotStep(v, sb, node, g, next, indirect)
      case Unusable => WalkTo(v, sb, node, limit) == Broken
      case Loaded(s) =>
        Progress(v, sb, node, offset, limit, g + 1, s.nextSegment, Some(s), logical, runs, n + 1, bs)
      case Data(b) =>
        var size := BlockBytes(sb, b);
        if logical + size > U64_MAX then WalkTo(v, sb, node, limit) == Broken
        else Progress(v, sb, node, offset, limit, g + 1, next, indirect, logical + size,
                      AddToRuns(runs, b, logical, size, offset), n, bs + [b])
  {
    hide SlotStep, WalkFrom, WalkTo, BlockBytes, Flatten, RunsCover, SectorsPerZone, AddToRuns, BlockSectors, Times;
    WalkUnfold(v, sb, node, g, next, indirect, logical, limit, bs, n);
    var step := SlotStep(v, sb, node, g, next, indirect);
    if step.Data? {
      var spz := SectorsPerZone(sb.zoneSize);
      SlotStepNonEmpty(v, sb, node, g, next, indirect);
      AppendBlock(sb, bs, step.block);
      AddedRun(runs, Flatten(bs, spz), step.block, spz, offset, BlockBytes(sb, step.block));
    }
  }

  lemma {:induction false} ProgressEnd(v: Volume, sb: SuperBlock, node: Inode, offset: nat, limit: nat, g: nat,
                                       next: BlockInfo, indirect: Option<Segment>, logical: nat, runs: seq<Run>,
                                       n: nat, bs: seq<BlockInfo>)
    requires Progress(v, sb, node, offset, limit, g, next, indirect, logical, runs, n, bs)
    requires g >= node.numberData || logical >= limit
    ensures WalkTo(v, sb, node, limit) == Walked(bs, n)
    ensures var spz := SectorsPerZone(sb.zoneSize); RunsCover(runs, Flatten(bs, spz), spz, offset)
  {
    hide RunsCover, Flatten, SectorsPerZone, WalkTo;
    assert bs + [] == bs;
  }

  lemma {:induction false} BlockSectorAt(b: BlockInfo, spz: nat, r: nat)
    requires r < Times(b.count, spz)
    ensures BlockSectors(b, spz)[r] == ZoneAddr(b, spz, r)
  {
    hide Times;
  }

  /** The bytes of a run are the bytes of the file at the run's place. */
  lemma RunIsStream(v: Volume, sb: SuperBlock, sectors: seq<Addr>, run: Run, spz: nat, within: nat, n: nat)
    requires RunMaps(sectors, run, spz) && within + n <= run.bytes
    ensures forall p :: within <= p < within + n ==>
      ZoneByte(v, run.block, spz, p) == StreamByte(v, sectors, run.start + p)
    ensures run.block.subpart <= sb.numSubs && ZoneSectorsOk(v, run.block, spz, within, n)
        ==> CoveredOk(v, sb, sectors, run.start + within, n)
    ensures CoveredOk(v, sb, sectors, run.start + within, n) && n > 0
        ==> run.block.subpart <= sb.numSubs && run.block.subpart < |v.extents|
            && ZoneSectorsOk(v, run.block, spz, within, n)
  {
    hide Times, BlockSectors;
    var first := run.start / SECTOR;
    var mine := BlockSectors(run.block, spz);
    forall r: nat | r < |mine| ensures sectors[first + r] == ZoneAddr(run.block, spz, r) {
      BlockSectorAt(run.block, spz, r);
      assert mine[r] == sectors[first..first + |mine|][r];
    }
    forall p | within <= p < within + n
      ensures ZoneByte(v, run.block, spz, p) == StreamByte(v, sectors, run.start + p)
    {
      assert run.start + p == first * SECTOR + p;
      assert sectors[first + p / SECTOR] == ZoneAddr(run.block, spz, p / SECTOR);
    }
    forall s | 0 <= s < |sectors| && Covers(s, run.start + within, n)
      ensures first <= s && Covers(s - first, within, n) && sectors[s] == ZoneAddr(run.block, spz, s - first)
    {
      assert s < first + |mine|;
      assert sectors[first + (s - first)] == ZoneAddr(run.block, spz, s - first);
    }
    forall r: nat | Covers(r, within, n)
      ensures r < |mine| && Covers(first + r, run.start + within, n)
              && sectors[first + r] == ZoneAddr(run.block, spz, r)
    {
    }
    if n > 0 {
      assert Covers(within / SECTOR, within, n);
    }
  }

  /** The first `n` bytes of a buffer are the stream from `offset` on. */
  ghost predicate Delivered(v: Volume, sectors: seq<Addr>, offset: nat, buffer: seq<Byte>, n: nat) {
    && n <= |buffer|
    && forall i :: 0 <= i < n ==>
         offset + i < |sectors| * SECTOR && buffer[i] == StreamByte(v, sectors, offset + i)
  }

  lemma DeliverMore(v: Volume, sectors: seq<Addr>, offset: nat, before: seq<Byte>, after: seq<Byte>, done: nat,
                    run: Run, spz: nat, within: nat, n: nat)
    requires Delivered(v, sectors, offset, before, done)
    requires |before| == |after| && done + n <= |after| && before[..done] == after[..done]
    requires offset + done == run.start + within && run.start + within + n <= |sectors| * SECTOR
    requires forall i :: done <= i < done + n ==> after[i] == ZoneByte(v, run.block, spz, within + (i - done))
    requires forall p :: within <= p < within + n ==>
      ZoneByte(v, run.block, spz, p) == StreamByte(v, sectors, run.start + p)
    ensures Delivered(v, sectors, offset, after, done + n)
  {
    hide ZoneByte, StreamByte;
    forall i | 0 <= i < done + n
      ensures offset + i < |sectors| * SECTOR && after[i] == StreamByte(v, sectors, offset + i)
    {
      if i < done {
        assert after[i] == after[..done][i] == before[..done][i] == before[i];
      } else {
        assert run.start + (within + (i - done)) == offset + i;
      }
    }
  }

  class Reader {
    const volume: ApaVolume
    var probe: ProbeResult
    /** Whether the last error message is non-empty. */
    var failed: bool

    constructor (volume: ApaVolume, probe: ProbeResult)
      ensures this.volume == volume && this.probe == probe
    {
      this.volume := volume;
      this.probe := probe;
      failed := false;
      new;
      if !probe.valid {
        failed := true;
      }
    }

    ghost function V(): Volume
      reads volume
    {
      volume.Vol()
    }

    /** A valid probe has accepted the zone size. */
    ghost predicate Valid()
      reads this
    {
      probe.valid ==> ValidZoneSize(probe.super.zoneSize)
    }

    method ReadMetadata(location: BlockInfo) returns (r: Option<seq<Byte>>)
      requires Valid() && probe.valid
      modifies this`failed, volume.device`log
      ensures Confined(V(), JoinedSub(probe.super, location.subpart), old(volume.device.log), volume.device.log)
      ensures failed == (old(failed) || r.None?)
      ensures r.Some? ==> |r.value| == METADATA_SIZE && r == MetadataAt(V(), probe.super, location)
      ensures !volume.device.flaky ==> r == MetadataAt(V(), probe.super, location)
    {
      hide Times, ValidZoneSize, SectorsPerZone;
      var sb := probe.super;
      if location.subpart > sb.numSubs || location.subpart >= |volume.extents| {
        failed := true;
        return None;
      }
      var sector := MetadataSector(sb.zoneSize, location.number);
      if sector.None? {
        failed := true;
        return None;
      }
      var raw := new Byte[METADATA_SIZE];
      var ok := volume.ReadSectors(location.subpart, sector.value, METADATA_SIZE / SECTOR, raw, 0, METADATA_SIZE);
      if !ok {
        failed := true;
        return None;
      }
      assert raw[0..METADATA_SIZE] == raw[..];
      return Some(raw[..]);
    }

    method ReadSegmentDescriptor(location: BlockInfo) returns (r: Option<Segment>)
      requires Valid() && probe.valid
      modifies this`failed, volume.device`log
      ensures Confined(V(), JoinedSub(probe.super, location.subpart), old(volume.device.log), volume.device.log)
      ensures failed == (old(failed) || r.None?)
      ensures r.Some? ==> r == SegmentAt(V(), probe.super, location)
      ensures !volume.device.flaky ==> r == SegmentAt(V(), probe.super, location)
    {
      if location.number == 0 {
        failed := true;
        return None;
      }
      var raw := ReadMetadata(location);
      if raw.None? {
        return None;
      }
      var descriptor := DecodeSegment(raw.value);
      var sum := MetadataChecksum(raw.value);
      if descriptor.magic != SEGI_MAGIC || sum != descriptor.checksum {
        failed := true;
        return None;
      }
      return Some(descriptor);
    }

    method ReadInode(location: BlockInfo) returns (r: Option<Node>)
      requires Valid()
      modifies this`failed, volume.device`log
      ensures Confined(V(), JoinedSub(probe.super, location.subpart), old(volume.device.log), volume.device.log)
      ensures failed == r.None?
      ensures r.Some? ==> probe.valid && r == InodeAt(V(), probe.super, location)
      ensures !volume.device.flaky && probe.valid ==> r == InodeAt(V(), probe.super, location)
    {
      failed := false;
      if !probe.valid {
        failed := true;
        return None;
      }
      var raw := ReadMetadata(location);
      if raw.None? {
        return None;
      }
      var node := Node(location, DecodeInode(raw.value));
      var sum := MetadataChecksum(raw.value);
      if || node.inode.magic != SEGD_MAGIC
         || sum != node.inode.checksum
         || node.inode.numberData == 0
         || (node.inode.numberData > INODE_MAX_BLOCKS && node.inode.nextSegment.number == 0) {
        failed := true;
        return None;
      }
      return Some(node);
    }

    /** Fills `out[lo..hi]` with the bytes at `zoneOffset` of one block or run. */
    method ReadZoneBytes(block: BlockInfo, zoneOffset: nat, out: array<Byte>, lo: nat, hi: nat) returns (ok: bool)
      requires Valid() && probe.valid
      requires lo <= hi <= out.Length
      modifies this`failed, volume.device`log, out
      ensures Confined(V(), JoinedSub(probe.super, block.subpart), old(volume.device.log), volume.device.log)
      ensures failed == (old(failed) || !ok)
      ensures forall i :: 0 <= i < out.Length && !(lo <= i < hi) ==> out[i] == old(out[i])
      ensures ok ==> ZoneOk(V(), probe.super, block, zoneOffset, hi - lo)
      ensures ok ==> forall i :: lo <= i < hi ==>
        out[i] == ZoneByte(V(), block, SectorsPerZone(probe.super.zoneSize), zoneOffset + (i - lo))
      ensures !volume.device.flaky && ZoneOk(V(), probe.super, block, zoneOffset, hi - lo) ==> ok
    {
      hide Times, ValidZoneSize, SectorsPerZone, ZoneByte, ZoneSectorsOk;
      var sb := probe.super;
      if block.subpart > sb.numSubs || block.subpart >= |volume.extents| {
        failed := true;
        return false;
      }
      var segmentBytes := block.count * sb.zoneSize;
      TimesIsProduct(block.count, sb.zoneSize);
      if zoneOffset > segmentBytes || hi - lo > segmentBytes - zoneOffset {
        failed := true;
        return false;
      }

      var spz := SectorsPerZone(sb.zoneSize);
      var baseSector := block.number * spz;
      TimesIsProduct(block.number, spz);
      ghost var v := V();
      NothingOk(v, block, spz, zoneOffset);
      var position := zoneOffset;
      var done := 0;
      while done < hi - lo
        invariant done <= hi - lo && position == zoneOffset + done
        invariant failed == old(failed)
        invariant Confined(v, {block.subpart}, old(volume.device.log), volume.device.log)
        invariant forall i :: 0 <= i < out.Length && !(lo <= i < hi) ==> out[i] == old(out[i])
        invariant ZoneSectorsOk(v, block, spz, zoneOffset, done)
        invariant forall i :: lo <= i < lo + done ==> out[i] == ZoneByte(v, block, spz, zoneOffset + (i - lo))
      {
        var relativeSector := position / SECTOR;
        var inSector := position % SECTOR;
        var remaining := hi - lo - done;
        ghost var before := volume.device.log;
        var step;
        if inSector == 0 && remaining >= SECTOR {
          ok, step := ReadBatch(block, baseSector, relativeSector, remaining / SECTOR, out, lo + done);
        } else {
          ok, step := ReadEdge(block, baseSector, relativeSector, inSector, remaining, out, lo + done);
        }
        assert V() == v && probe.super == sb;
        ConfinedTransitive(v, {block.subpart}, old(volume.device.log), before, volume.device.log);
        if !ok {
          if ZoneSectorsOk(v, block, spz, zoneOffset, hi - lo) {
            SubRangeOk(v, block, spz, zoneOffset, hi - lo, position, step);
          }
          return false;
        }
        JoinRangesOk(v, block, spz, zoneOffset, done, step);
        done := done + step;
        position := position + step;
      }
      ok := true;
    }

    /** The aligned middle: up to 128 whole sectors in one request. */
    method ReadBatch(block: BlockInfo, baseSector: nat, relativeSector: nat, wholeSectors: nat,
                     out: array<Byte>, at: nat) returns (ok: bool, step: nat)
      requires wholeSectors > 0 && at + wholeSectors * SECTOR <= out.Length
      requires block.subpart < |volume.extents|
      requires baseSector == Times(block.number, SectorsPerZone(probe.super.zoneSize))
      modifies this`failed, volume.device`log, out
      ensures Confined(V(), {block.subpart}, old(volume.device.log), volume.device.log)
      ensures failed == (old(failed) || !ok)
      ensures 0 < step <= wholeSectors * SECTOR
      ensures forall i :: 0 <= i < out.Length && !(at <= i < at + step) ==> out[i] == old(out[i])
      ensures var v, spz := V(), SectorsPerZone(probe.super.zoneSize);
        && (ok ==> ZoneSectorsOk(v, block, spz, relativeSector * SECTOR, step))
        && (ok ==> forall i :: at <= i < at + step ==>
              out[i] == ZoneByte(v, block, spz, relativeSector * SECTOR + (i - at)))
        && (!volume.device.flaky && ZoneSectorsOk(v, block, spz, relativeSector * SECTOR, step) ==> ok)
    {
      hide Times, SectorsPerZone;
      var batch := Min(wholeSectors, BATCH_SECTORS);
      step := batch * SECTOR;
      var spz := SectorsPerZone(probe.super.zoneSize);
      WholeSectorsOk(V(), block, spz, relativeSector, batch);
      var sector64 := baseSector + relativeSector;
      if sector64 > U32_MAX {
        failed := true;
        assert !V().SectorOk(Addr(block.subpart, sector64));
        return false, step;
      }
      ok := volume.ReadSectors(block.subpart, sector64, batch, out, at, at + step);
      if !ok {
        failed := true;
        return;
      }
      ghost var bytes := V().RunBytes(block.subpart, sector64, batch);
      forall i | at <= i < at + step
        ensures out[i] == ZoneByte(V(), block, spz, relativeSector * SECTOR + (i - at))
      {
        assert out[at..at + step][i - at] == bytes[i - at];
      }
    }

    /** An unaligned edge: one whole sector is read and the wanted part of it copied. */
    method ReadEdge(block: BlockInfo, baseSector: nat, relativeSector: nat, inSector: nat, remaining: nat,
                    out: array<Byte>, at: nat) returns (ok: bool, step: nat)
      requires inSector < SECTOR && remaining > 0 && at + remaining <= out.Length
      requires block.subpart < |volume.extents|
      requires baseSector == Times(block.number, SectorsPerZone(probe.super.zoneSize))
      modifies this`failed, volume.device`log, out
      ensures Confined(V(), {block.subpart}, old(volume.device.log), volume.device.log)
      ensures failed == (old(failed) || !ok)
      ensures 0 < step <= remaining
      ensures forall i :: 0 <= i < out.Length && !(at <= i < at + step) ==> out[i] == old(out[i])
      ensures var v, spz, p := V(), SectorsPerZone(probe.super.zoneSize), relativeSector * SECTOR + inSector;
        && (ok ==> ZoneSectorsOk(v, block, spz, p, step))
        && (ok ==> forall i :: at <= i < at + step ==> out[i] == ZoneByte(v, block, spz, p + (i - at)))
        && (!volume.device.flaky && ZoneSectorsOk(v, block, spz, p, step) ==> ok)
    {
      hide Times, SectorsPerZone, ZoneSectorsOk, ZoneByte;
      step := Min(remaining, SECTOR - inSector);
      var spz := SectorsPerZone(probe.super.zoneSize);
      ghost var p := relativeSector * SECTOR + inSector;
      OneSectorOk(V(), block, spz, relativeSector, inSector, step);
      var sector := new Byte[SECTOR];
      var sector64 := baseSector + relativeSector;
      assert ZoneAddr(block, spz, relativeSector) == Addr(block.subpart, sector64);
      if sector64 > U32_MAX {
        failed := true;
        return false, step;
      }
      ok := volume.ReadSectors(block.subpart, sector64, 1, sector, 0, SECTOR);
      if !ok {
        failed := true;
        return;
      }
      forall i | 0 <= i < step {
        out[at + i] := sector[inSector + i];
      }
      EdgeIsZone(V(), block, spz, relativeSector, sector[0..SECTOR]);
      assert forall i :: at <= i < at + step ==> out[i] == sector[0..SECTOR][inSector + (i - at)];
    }

    /** Reads slot `g`: a SEGI record where one starts, a descriptor everywhere else. */
    method FetchSlot(node: Inode, g: nat, next: BlockInfo, indirect: Option<Segment>) returns (step: Step)
      requires Valid() && probe.valid
      modifies this`failed, volume.device`log
      ensures Confined(V(), if IsHeader(g) then JoinedSub(probe.super, next.subpart) else {}, old(volume.device.log),
                       volume.device.log)
      ensures failed == (old(failed) || step.Unusable?)
      ensures !step.Unusable? || !volume.device.flaky ==> step == SlotStep(V(), probe.super, node, g, next, indirect)
    {
      if IsHeader(g) {
        var loaded := ReadSegmentDescriptor(next);
        return if loaded.None? then Unusable else Loaded(loaded.value);
      }
      if g >= INODE_MAX_BLOCKS && indirect.None? {
        failed := true;
        return Unusable;
      }
      var block := CurrentBlock(node, indirect, g);
      if block.count == 0 {
        failed := true;
        return Unusable;
      }
      return Data(block);
    }

    /**
     * The first half of a read: walks the descriptors as far as the request needs and collapses
     * adjacent ones into runs.
     */
    method CollectRuns(node: Inode, offset: nat, requestEnd: nat)
      returns (ok: bool, runs: seq<Run>, segiLoaded: nat, ghost blocks: seq<BlockInfo>)
      requires Valid() && probe.valid && offset < requestEnd
      modifies this`failed, volume.device`log
      ensures Confined(V(), Touched(V(), probe.super, node, offset, requestEnd), old(volume.device.log),
                       volume.device.log)
      ensures failed == (old(failed) || !ok)
      ensures ok ==> WalkTo(V(), probe.super, node, requestEnd) == Walked(blocks, segiLoaded)
      ensures ok ==> var spz := SectorsPerZone(probe.super.zoneSize); RunsCover(runs, Flatten(blocks, spz), spz, offset)
      ensures RunsWithin(probe.super, runs, Touched(V(), probe.super, node, offset, requestEnd))
      ensures !volume.device.flaky && WalkTo(V(), probe.super, node, requestEnd).Walked? ==> ok
    {
      hide Confined, Times, ValidZoneSize, SectorsPerZone, SlotStep, RunsCover, Flatten, WalkTo, BlockBytes, Progress,
        AddToRuns, TouchedFrom, JoinedSub, RunsWithin;
      ghost var v := V();
      var sb := probe.super;
      ghost var spz := SectorsPerZone(sb.zoneSize);
      ZoneInSectors(sb.zoneSize);
      ghost var all := Touched(v, sb, node, offset, requestEnd);
      ConfinedReflexive(v, all, volume.device.log);
      NoRunsWithin(sb, all);
      ok, runs, segiLoaded, blocks := true, [], 0, [];
      var logical: nat := 0;
      var indirect: Option<Segment> := None;
      var nextSegment := node.nextSegment;
      var global := 1;
      ProgressStart(v, sb, node, offset, requestEnd);
      while ok && global < node.numberData && logical < requestEnd
        invariant 1 <= global && V() == v && probe.super == sb
        invariant failed == (old(failed) || !ok)
        invariant Confined(v, all, old(volume.device.log), volume.device.log) && RunsWithin(sb, runs, all)
        invariant ok ==> TouchedFrom(v, sb, node, global, nextSegment, indirect, logical, offset, requestEnd) <= all
        invariant ok ==>
          Progress(v, sb, node, offset, requestEnd, global, nextSegment, indirect, logical, runs, segiLoaded, blocks)
        invariant !ok && !volume.device.flaky ==> WalkTo(v, sb, node, requestEnd) == Broken
        decreases node.numberData - global
      {
        ghost var before := volume.device.log;
        var step := FetchSlot(node, global, nextSegment, indirect);
        assert V() == v && probe.super == sb;
        TouchedStep(v, sb, node, global, nextSegment, indirect, logical, offset, requestEnd);
        ConfinedWidens(v, if IsHeader(global) then JoinedSub(sb, nextSegment.subpart) else {}, all, before,
                       volume.device.log);
        ConfinedTransitive(v, all, old(volume.device.log), before, volume.device.log);
        ProgressStep(v, sb, node, offset, requestEnd, global, nextSegment, indirect, logical, runs, segiLoaded, blocks);
        match step {
          case Unusable =>
            ok := false;
          case Loaded(segment) =>
            indirect := Some(segment);
            nextSegment := segment.nextSegment;
            segiLoaded := segiLoaded + 1;
          case Data(block) =>
            var segmentSize: nat := BlockBytes(sb, block);
            if logical > U64_MAX - segmentSize {
              ok, failed := false, true;
            } else {
              AddedWithin(sb, runs, block, logical, segmentSize, offset, all);
              runs := AddToRuns(runs, block, logical, segmentSize, offset);
              logical := logical + segmentSize;
              blocks := blocks + [block];
            }
        }
        global := global + 1;
      }
      if ok {
        ProgressEnd(v, sb, node, offset, requestEnd, global, nextSegment, indirect, logical, runs, segiLoaded, blocks);
      }
    }

    /** The second half of a read: copies the requested part of each run. */
    method CopyRuns(runs: seq<Run>, offset: nat, out: array<Byte>, ghost sectors: seq<Addr>, ghost subs: set<nat>)
      returns (ok: bool, written: nat)
      requires Valid() && probe.valid && out.Length > 0
      requires var spz := SectorsPerZone(probe.super.zoneSize); RunsCover(runs, sectors, spz, offset)
      requires RunsWithin(probe.super, runs, subs)
      modifies this`failed, volume.device`log, out
      ensures Confined(V(), subs, old(volume.device.log), volume.device.log)
      ensures failed == (old(failed) || !ok)
      ensures written <= out.Length
      ensures ok && written == out.Length ==> CoveredOk(V(), probe.super, sectors, offset, out.Length)
      ensures ok && written == out.Length ==> Delivered(V(), sectors, offset, out[..], out.Length)
      ensures ok && written < out.Length ==> |sectors| * SECTOR < offset + out.Length
      ensures !volume.device.flaky && CoveredOk(V(), probe.super, sectors, offset, out.Length) ==> ok
    {
      hide Times, ValidZoneSize, SectorsPerZone, ZoneByte, StreamByte, ZoneSectorsOk, CoveredOk, RunMaps, Delivered;
      ghost var v := V();
      var sb := probe.super;
      ghost var spz := SectorsPerZone(sb.zoneSize);
      var position := offset;
      written := 0;
      assert Delivered(v, sectors, offset, out[..], 0) by { NothingDelivered(v, sectors, offset, out[..]); }
      var k := 0;
      while k < |runs| && written != out.Length
        invariant 0 <= k <= |runs|
        invariant written <= out.Length && position == offset + written
        invariant failed == old(failed)
        invariant Confined(v, subs, old(volume.device.log), volume.device.log)
        invariant position <= |sectors| * SECTOR || runs == []
        invariant k < |runs| && written < out.Length ==> runs[k].start <= position
        invariant k == |runs| && written < out.Length ==> |sectors| * SECTOR <= position
        invariant written > 0 ==> CoveredOk(v, sb, sectors, offset, written)
        invariant Delivered(v, sectors, offset, out[..], written)
      {
        var run := runs[k];
        var runEnd := run.start + run.bytes;
        if position < runEnd {
          var within := if position > run.start then position - run.start else 0;
          var take := Min(run.bytes - within, out.Length - written);
          RunFits(sectors, run, spz);
          RunIsStream(v, sb, sectors, run, spz, within, take);
          RunIsZone(sb, run, sectors, spz);
          ghost var before, buffer := volume.device.log, out[..];
          ok := ReadZoneBytes(run.block, within, out, written, written + take);
          assert V() == v && probe.super == sb;
          ConfinedWidens(v, JoinedSub(sb, run.block.subpart), subs, before, volume.device.log);
          ConfinedTransitive(v, subs, old(volume.device.log), before, volume.device.log);
          if !ok {
            if CoveredOk(v, sb, sectors, offset, out.Length) {
              SubCovered(v, sb, sectors, offset, out.Length, position, take);
            }
            return;
          }
          JoinCovered(v, sb, sectors, offset, written, take);
          DeliverMore(v, sectors, offset, buffer, out[..], written, run, spz, within, take);
          written := written + take;
          position := position + take;
        }
        k := k + 1;
      }
      ok := true;
    }

    /** Reads `out.Length` bytes of the file at `offset`. */
    method Read(node: Inode, offset: nat, out: array<Byte>) returns (ok: bool)
      requires Valid()
      modifies this`failed, volume.device`log, out
      ensures Confined(V(), Touched(V(), probe.super, node, offset, offset + out.Length), old(volume.device.log),
                       volume.device.log)
      ensures failed == !ok
      ensures ok ==> probe.valid && ReadOk(V(), probe.super, node, offset, out.Length)
      ensures ok ==> out[..] == ReadBytes(V(), probe.super, node, offset, out.Length)
      ensures !volume.device.flaky && probe.valid && ReadOk(V(), probe.super, node, offset, out.Length) ==> ok
    {
      hide Times, ValidZoneSize, SectorsPerZone, WalkFrom, Flatten, RunsCover, StreamByte, CoveredOk, TouchedFrom,
        RunsWithin, Confined;
      failed := false;
      ConfinedReflexive(V(), Touched(V(), probe.super, node, offset, offset + out.Length), volume.device.log);
      if !probe.valid {
        failed := true;
        return false;
      }
      if offset > node.size || out.Length > node.size - offset {
        failed := true;
        return false;
      }
      if out.Length == 0 {
        return true;
      }
      ghost var v := V();
      var sb := probe.super;
      ghost var subs := Touched(v, sb, node, offset, offset + out.Length);
      var collected, runs, segiLoaded, blocks := CollectRuns(node, offset, offset + out.Length);
      assert V() == v && probe.super == sb;
      if !collected {
        return false;
      }
      ghost var sectors := Flatten(blocks, SectorsPerZone(sb.zoneSize));
      ghost var before := volume.device.log;
      var copied, written := CopyRuns(runs, offset, out, sectors, subs);
      assert V() == v && probe.super == sb;
      ConfinedTransitive(v, subs, old(volume.device.log), before, volume.device.log);
      if !copied {
        return false;
      }
      if written != out.Length {
        failed := true;
        TooShort(v, sb, sectors, offset, out.Length);
        return false;
      }
      if node.numberSegdesg != 0 && segiLoaded > node.numberSegdesg {
        failed := true;
        return false;
      }
      DeliveredIsStream(v, sectors, offset, out[..]);
      return true;
    }
  }

  lemma {:induction false} WholeSectorsOk(v: Volume, b: BlockInfo, spz: nat, first: nat, count: nat)
    requires count > 0
    ensures ZoneSectorsOk(v, b, spz, first * SECTOR, count * SECTOR)
       <==> v.RunOk(b.subpart, Times(b.number, spz) + first, count)
  {
    hide Times;
    var base := Times(b.number, spz);
    forall r: nat | Covers(r, first * SECTOR, count * SECTOR)
      ensures v.RunOk(b.subpart, base + first, count) ==> v.SectorOk(ZoneAddr(b, spz, r))
    {
      assert first <= r < first + count;
    }
    forall k | base + first <= k < base + first + count
      ensures ZoneSectorsOk(v, b, spz, first * SECTOR, count * SECTOR) ==> v.SectorOk(Addr(b.subpart, k))
    {
      assert Covers(k - base, first * SECTOR, count * SECTOR);
      assert ZoneAddr(b, spz, k - base) == Addr(b.subpart, k);
    }
  }

  lemma {:induction false} OneSectorOk(v: Volume, b: BlockInfo, spz: nat, r: nat, inSector: nat, n: nat)
    requires n > 0 && inSector + n <= SECTOR
    ensures ZoneSectorsOk(v, b, spz, r * SECTOR + inSector, n) <==> v.SectorOk(ZoneAddr(b, spz, r))
    ensures v.SectorOk(ZoneAddr(b, spz, r)) <==> v.RunOk(b.subpart, Times(b.number, spz) + r, 1)
  {
    hide Times;
    assert Covers(r, r * SECTOR + inSector, n);
  }

  lemma {:induction false} EdgeIsZone(v: Volume, b: BlockInfo, spz: nat, r: nat, sector: seq<Byte>)
    requires sector == v.RunBytes(b.subpart, Times(b.number, spz) + r, 1)
    ensures |sector| == SECTOR
    ensures forall j :: 0 <= j < SECTOR ==> sector[j] == ZoneByte(v, b, spz, r * SECTOR + j)
  {
    hide Times;
    forall j | 0 <= j < SECTOR ensures sector[j] == ZoneByte(v, b, spz, r * SECTOR + j) {
    }
  }

  lemma NothingOk(v: Volume, b: BlockInfo, spz: nat, offset: nat)
    ensures ZoneSectorsOk(v, b, spz, offset, 0)
  {
  }

  lemma SubRangeOk(v: Volume, b: BlockInfo, spz: nat, offset: nat, len: nat, from: nat, n: nat)
    requires ZoneSectorsOk(v, b, spz, offset, len)
    requires offset <= from && from + n <= offset + len
    ensures ZoneSectorsOk(v, b, spz, from, n)
  {
    forall r: nat | Covers(r, from, n) ensures v.SectorOk(ZoneAddr(b, spz, r)) {
      assert Covers(r, offset, len);
    }
  }

  lemma JoinRangesOk(v: Volume, b: BlockInfo, spz: nat, offset: nat, a: nat, n: nat)
    requires ZoneSectorsOk(v, b, spz, offset, a) && ZoneSectorsOk(v, b, spz, offset + a, n)
    ensures ZoneSectorsOk(v, b, spz, offset, a + n)
  {
    forall r: nat | Covers(r, offset, a + n) ensures v.SectorOk(ZoneAddr(b, spz, r)) {
      assert Covers(r, offset, a) || Covers(r, offset + a, n);
    }
  }

  lemma SlotStepNonEmpty(v: Volume, sb: SuperBlock, node: Inode, g: nat, next: BlockInfo, indirect: Option<Segment>)
    ensures var step := SlotStep(v, sb, node, g, next, indirect); step.Data? ==> step.block.count > 0
  {
    hide SegmentAt, CurrentBlock;
  }

  lemma WalkUnfold(v: Volume, sb: SuperBlock, node: Inode, g: nat, next: BlockInfo, indirect: Option<Segment>,
                   logical: nat, limit: nat, bs: seq<BlockInfo>, n: nat)
    requires 1 <= g < node.numberData && logical < limit
    ensures
      var here := WalkFrom(v, sb, node, g, next, indirect, logical, limit).After(bs, n);
      match SlotStep(v, sb, node, g, next, indirect)
      case Unusable => here == Broken
      case Loaded(s) => here == WalkFrom(v, sb, node, g + 1, s.nextSegment, Some(s), logical, limit).After(bs, n + 1)
      case Data(block) =>
        if logical + BlockBytes(sb, block) > U64_MAX then here == Broken
        else
          var rest := WalkFrom(v, sb, node, g + 1, next, indirect, logical + BlockBytes(sb, block), limit);
          here == rest.After(bs + [block], n)
  {
    hide SlotStep, BlockBytes;
    match SlotStep(v, sb, node, g, next, indirect)
    case Unusable =>
    case Loaded(s) =>
      var w := WalkFrom(v, sb, node, g + 1, s.nextSegment, Some(s), logical, limit);
      if w.Walked? {
        assert bs + ([] + w.blocks) == bs + w.blocks;
      }
    case Data(block) =>
      var w := WalkFrom(v, sb, node, g + 1, next, indirect, logical + BlockBytes(sb, block), limit);
      if w.Walked? {
        assert bs + ([block] + w.blocks) == (bs + [block]) + w.blocks;
      }
  }

  lemma {:induction false} AppendBlock(sb: SuperBlock, bs: seq<BlockInfo>, b: BlockInfo)
    requires WholeSectors(sb.zoneSize)
    ensures var spz := SectorsPerZone(sb.zoneSize);
      && Flatten(bs + [b], spz) == Flatten(bs, spz) + BlockSectors(b, spz)
      && Length(sb, bs + [b]) == Length(sb, bs) + BlockBytes(sb, b)
      && BlockBytes(sb, b) == |BlockSectors(b, spz)| * SECTOR
      && |BlockSectors(b, spz)| == Times(b.count, spz)
      && (b.count > 0 ==> BlockBytes(sb, b) > 0)
  {
    FlattenAppend(bs, b, SectorsPerZone(sb.zoneSize));
    LengthAppend(sb, bs, b);
    BlockLength(sb, b);
  }

  lemma NothingDelivered(v: Volume, sectors: seq<Addr>, offset: nat, buffer: seq<Byte>)
    ensures Delivered(v, sectors, offset, buffer, 0)
  {
  }

  lemma {:induction false} DeliveredIsStream(v: Volume, sectors: seq<Addr>, offset: nat, buffer: seq<Byte>)
    requires Delivered(v, sectors, offset, buffer, |buffer|) && |buffer| > 0
    ensures offset + |buffer| <= |sectors| * SECTOR
    ensures buffer == StreamBytes(v, sectors, offset, |buffer|)
  {
    hide StreamByte;
    var last := buffer[|buffer| - 1];
    assert last == StreamByte(v, sectors, offset + (|buffer| - 1));
  }

  lemma RunFits(sectors: seq<Addr>, run: Run, spz: nat)
    requires RunMaps(sectors, run, spz)
    ensures run.bytes > 0 && run.start + run.bytes <= |sectors| * SECTOR
  {
    hide Times, BlockSectors;
  }

  lemma RunIsZone(sb: SuperBlock, run: Run, sectors: seq<Addr>, spz: nat)
    requires ValidZoneSize(sb.zoneSize) && spz == SectorsPerZone(sb.zoneSize) && RunMaps(sectors, run, spz)
    ensures run.bytes == BlockBytes(sb, run.block)
  {
    hide Times, BlockSectors, ValidZoneSize, SectorsPerZone;
    ZoneInSectors(sb.zoneSize);
    BlockLength(sb, run.block);
  }

  lemma SubCovered(v: Volume, sb: SuperBlock, sectors: seq<Addr>, offset: nat, len: nat, from: nat, n: nat)
    requires CoveredOk(v, sb, sectors, offset, len)
    requires offset <= from && from + n <= offset + len
    ensures CoveredOk(v, sb, sectors, from, n)
  {
    forall s | 0 <= s < |sectors| && Covers(s, from, n) ensures DataOk(v, sb, sectors[s]) {
      assert Covers(s, offset, len);
    }
  }

  lemma JoinCovered(v: Volume, sb: SuperBlock, sectors: seq<Addr>, offset: nat, a: nat, n: nat)
    requires a > 0 ==> CoveredOk(v, sb, sectors, offset, a)
    requires CoveredOk(v, sb, sectors, offset + a, n)
    ensures CoveredOk(v, sb, sectors, offset, a + n)
  {
    forall s | 0 <= s < |sectors| && Covers(s, offset, a + n) ensures DataOk(v, sb, sectors[s]) {
      assert Covers(s, offset, a) || Covers(s, offset + a, n);
    }
  }

  lemma TooShort(v: Volume, sb: SuperBlock, sectors: seq<Addr>, offset: nat, len: nat)
    requires |sectors| * SECTOR < offset + len
    ensures !CoveredOk(v, sb, sectors, offset, len)
  {
  }
}

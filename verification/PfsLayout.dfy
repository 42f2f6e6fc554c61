/**
 * Encoders for the records of `include/ps2hdd/pfs.hpp`, field by field, and volumes that hold them:
 * what `src/core/pfs.cpp` reads back is what was laid out.
 */
module PfsLayout {
  import opened Bytes
  import opened Disk
  import opened ApaVolume
  import opened PfsFormat
  import opened PfsStream
  import opened PfsReader
  import opened Records

  // ---- words ----

  function Halves(low: U16, high: U16): U32 {
    var l: nat, h: nat := low, high;
    l + 0x1_0000 * h
  }

  function LowWord(x: U64): U32 {
    x % 0x1_0000_0000
  }

  function HighWord(x: U64): U32 {
    x / 0x1_0000_0000
  }

  /** A descriptor takes two words: its number, then its sub-partition and count. */
  function BlockWord(b: BlockInfo, second: bool): U32 {
    if second then Halves(b.subpart, b.count) else b.number
  }

  lemma {:induction false} BlockReads(ws: seq<U32>, i: nat, b: BlockInfo)
    requires i + 1 < |ws| && ws[i] == BlockWord(b, false) && ws[i + 1] == BlockWord(b, true)
    ensures LoadBlock(Encode(ws), 4 * i) == b
  {
    hide Encode, Load32, Load16;
    LoadsWord(ws, i);
    LoadsWord(ws, i + 1);
  }

  // ---- inodes ----

  /** Every field of a SEGD record but its checksum and magic. */
  datatype RawSegd = RawSegd(
    self: BlockInfo, nextSegment: BlockInfo, lastSegment: BlockInfo, unused: BlockInfo, data: seq<BlockInfo>,
    mode: U16, attr: U16, uid: U16, gid: U16, accessed: U64, created: U64, modified: U64, size: U64,
    numberBlocks: U32, numberData: U32, numberSegdesg: U32, subpart: U32)

  type Segd = f: RawSegd | |f.data| == 114
    witness RawSegd(BlockInfo(0, 0, 0), BlockInfo(0, 0, 0), BlockInfo(0, 0, 0), BlockInfo(0, 0, 0),
                    seq(114, _ => BlockInfo(0, 0, 0)), 0, 0, 0, 0, 0, 0, 0, 0, 0, 0, 0, 0)

  function SegdWord(f: Segd, i: nat): U32 {
    if i == 1 then 0x53454744
    else if 2 <= i < 4 then BlockWord(f.self, i % 2 == 1)
    else if 4 <= i < 6 then BlockWord(f.nextSegment, i % 2 == 1)
    else if 6 <= i < 8 then BlockWord(f.lastSegment, i % 2 == 1)
    else if 8 <= i < 10 then BlockWord(f.unused, i % 2 == 1)
    else if 10 <= i < 238 then BlockWord(f.data[(i - 10) / 2], i % 2 == 1)
    else if i == 238 then Halves(f.mode, f.attr)
    else if i == 239 then Halves(f.uid, f.gid)
    else if i == 240 then LowWord(f.accessed)
    else if i == 241 then HighWord(f.accessed)
    else if i == 242 then LowWord(f.created)
    else if i == 243 then HighWord(f.created)
    else if i == 244 then LowWord(f.modified)
    else if i == 245 then HighWord(f.modified)
    else if i == 246 then LowWord(f.size)
    else if i == 247 then HighWord(f.size)
    else if i == 248 then f.numberBlocks
    else if i == 249 then f.numberData
    else if i == 250 then f.numberSegdesg
    else if i == 251 then f.subpart
    else 0
  }

  function SegdWords(f: Segd): (ws: seq<U32>)
    ensures |ws| == 255 && forall i :: 0 <= i < 255 ==> ws[i] == SegdWord(f, i + 1)
  {
    seq(255, (i: nat) => SegdWord(f, i + 1))
  }

  function EncodeSegd(f: Segd): (r: seq<Byte>)
    ensures |r| == 1024
  {
    Sealed(SegdWords(f))
  }

  /** The inode an encoded record stands for. */
  function InodeOf(f: Segd): Inode {
    RawInode(Sum(SegdWords(f)) % 0x1_0000_0000, 0x53454744, f.nextSegment, f.data, f.mode, f.size, f.numberData,
             f.numberSegdesg)
  }

  /** All words of an encoded record, the sum included. */
  function SegdRecord(f: Segd): (ws: seq<U32>)
    ensures |ws| == 256 && Encode(ws) == EncodeSegd(f) && ws[1..] == SegdWords(f)
    ensures ws[0] == Sum(SegdWords(f)) % 0x1_0000_0000 && forall i :: 1 <= i < 256 ==> ws[i] == SegdWord(f, i)
  {
    [Sum(SegdWords(f)) % 0x1_0000_0000] + SegdWords(f)
  }

  lemma SegdData(f: Segd)
    ensures LoadBlocks(EncodeSegd(f), 40, INODE_MAX_BLOCKS) == f.data
  {
    hide Encode, EncodeSegd, SegdRecord, SegdWords, Sum, LoadBlock, BlockWord;
    var ws, raw := SegdRecord(f), EncodeSegd(f);
    forall k | 0 <= k < 114 ensures LoadBlock(raw, 40 + 8 * k) == f.data[k] {
      SegdBlock(f, k);
      BlockReads(ws, 10 + 2 * k, f.data[k]);
    }
  }

  lemma SegdBlock(f: Segd, k: nat)
    requires k < 114
    ensures SegdWord(f, 10 + 2 * k) == BlockWord(f.data[k], false)
    ensures SegdWord(f, 11 + 2 * k) == BlockWord(f.data[k], true)
  {
    hide BlockWord;
  }

  /** An encoded SEGD record carries its own checksum and decodes to the fields it was made from. */
  lemma SegdDecodes(f: Segd)
    ensures DecodeInode(EncodeSegd(f)) == InodeOf(f) && Checksum(EncodeSegd(f)) == InodeOf(f).checksum
  {
    hide Encode, EncodeSegd, SegdRecord, SegdWords, Load32, Load16, Load64, Checksum, Sum, BlockWord, LoadBlock,
      LoadBlocks;
    var ws := SegdRecord(f);
    ChecksumIsSum(ws);
    SegdData(f);
    LoadsWord(ws, 1);
    BlockReads(ws, 4, f.nextSegment);
    LoadsWord(ws, 238);
    LoadsDouble(ws, 246);
    LoadsWord(ws, 249);
    LoadsWord(ws, 250);
  }

  // ---- SEGI records ----

  datatype RawSegi = RawSegi(
    self: BlockInfo, nextSegment: BlockInfo, lastSegment: BlockInfo, unused: BlockInfo, data: seq<BlockInfo>)

  type Segi = f: RawSegi | |f.data| == 123
    witness RawSegi(BlockInfo(0, 0, 0), BlockInfo(0, 0, 0), BlockInfo(0, 0, 0), BlockInfo(0, 0, 0),
                    seq(123, _ => BlockInfo(0, 0, 0)))

  function SegiWord(f: Segi, i: nat): U32
    requires i < 256
  {
    if i < 2 then 0x53454749
    else if i < 4 then BlockWord(f.self, i % 2 == 1)
    else if i < 6 then BlockWord(f.nextSegment, i % 2 == 1)
    else if i < 8 then BlockWord(f.lastSegment, i % 2 == 1)
    else if i < 10 then BlockWord(f.unused, i % 2 == 1)
    else BlockWord(f.data[(i - 10) / 2], i % 2 == 1)
  }

  function SegiWords(f: Segi): (ws: seq<U32>)
    ensures |ws| == 255 && forall i :: 0 <= i < 255 ==> ws[i] == SegiWord(f, i + 1)
  {
    seq(255, (i: nat) requires i < 255 => SegiWord(f, i + 1))
  }

  function EncodeSegi(f: Segi): (r: seq<Byte>)
    ensures |r| == 1024
  {
    Sealed(SegiWords(f))
  }

  function SegmentOf(f: Segi): Segment {
    RawSegment(Sum(SegiWords(f)) % 0x1_0000_0000, 0x53454749, f.nextSegment, f.data)
  }

  function SegiRecord(f: Segi): (ws: seq<U32>)
    ensures |ws| == 256 && Encode(ws) == EncodeSegi(f) && ws[1..] == SegiWords(f)
    ensures ws[0] == Sum(SegiWords(f)) % 0x1_0000_0000 && forall i :: 1 <= i < 256 ==> ws[i] == SegiWord(f, i)
  {
    [Sum(SegiWords(f)) % 0x1_0000_0000] + SegiWords(f)
  }

  lemma SegiData(f: Segi)
    ensures LoadBlocks(EncodeSegi(f), 40, INDIRECT_MAX_BLOCKS) == f.data
  {
    hide Encode, EncodeSegi, SegiRecord, SegiWords, Sum, LoadBlock, BlockWord;
    var ws, raw := SegiRecord(f), EncodeSegi(f);
    forall k | 0 <= k < 123 ensures LoadBlock(raw, 40 + 8 * k) == f.data[k] {
      SegiBlock(f, k);
      BlockReads(ws, 10 + 2 * k, f.data[k]);
    }
  }

  lemma SegiBlock(f: Segi, k: nat)
    requires k < 123
    ensures SegiWord(f, 10 + 2 * k) == BlockWord(f.data[k], false)
    ensures SegiWord(f, 11 + 2 * k) == BlockWord(f.data[k], true)
  {
    hide BlockWord;
  }

  lemma SegiDecodes(f: Segi)
    ensures DecodeSegment(EncodeSegi(f)) == SegmentOf(f) && Checksum(EncodeSegi(f)) == SegmentOf(f).checksum
  {
    hide Encode, EncodeSegi, SegiRecord, SegiWords, Load32, Load16, Checksum, Sum, BlockWord, LoadBlock, LoadBlocks;
    var ws := SegiRecord(f);
    ChecksumIsSum(ws);
    SegiData(f);
    LoadsWord(ws, 1);
    BlockReads(ws, 4, f.nextSegment);
  }

  // ---- superblocks ----

  datatype Super = Super(magic: U32, version: U32, modver: U32, fsckStat: U32, zoneSize: U32, numSubs: U32,
                         journal: BlockInfo, root: BlockInfo)

  function SuperWord(f: Super, i: nat): U32 {
    if i == 0 then f.magic
    else if i == 1 then f.version
    else if i == 2 then f.modver
    else if i == 3 then f.fsckStat
    else if i == 4 then f.zoneSize
    else if i == 5 then f.numSubs
    else if 6 <= i < 8 then BlockWord(f.journal, i % 2 == 1)
    else if 8 <= i < 10 then BlockWord(f.root, i % 2 == 1)
    else 0
  }

  /** The first sector of a filesystem. */
  function EncodeSuper(f: Super): (r: seq<Byte>)
    ensures |r| == 512
  {
    Encode(seq(128, (i: nat) => SuperWord(f, i)))
  }

  lemma SuperDecodes(f: Super)
    ensures DecodeSuper(EncodeSuper(f)) == SuperBlock(f.magic, f.version, f.zoneSize, f.numSubs, f.journal, f.root)
  {
    hide Encode, Load32, Load16, BlockWord, LoadBlock;
    var ws := seq(128, (i: nat) => SuperWord(f, i));
    LoadsWord(ws, 0);
    LoadsWord(ws, 1);
    LoadsWord(ws, 4);
    LoadsWord(ws, 5);
    BlockReads(ws, 6, f.journal);
    BlockReads(ws, 8, f.root);
  }

  // ---- records on a volume ----

  /** Extent `sub` holds the bytes from its sector `sector` on, and the device can deliver them. */
  ghost predicate Holds(v: Volume, sub: nat, sector: nat, bytes: seq<Byte>) {
    && sub < |v.extents| && |bytes| % 512 == 0
    && sector + |bytes| / 512 <= v.extents[sub].length
    && var at := v.extents[sub].start + sector;
       && at * 512 + |bytes| <= |v.disk.bytes| && v.disk.bytes[at * 512..at * 512 + |bytes|] == bytes
       && forall s: nat :: at <= s < at + |bytes| / 512 ==> s !in v.disk.bad
  }

  lemma HeldRun(v: Volume, sub: nat, sector: nat, bytes: seq<Byte>)
    requires Holds(v, sub, sector, bytes)
    ensures v.RunOk(sub, sector, |bytes| / 512) && v.RunBytes(sub, sector, |bytes| / 512) == bytes
  {
    RunBytesIsSlice(v, sub, sector, |bytes| / 512);
    forall k | sector <= k < sector + |bytes| / 512 ensures v.SectorOk(Addr(sub, k)) {
      var s := v.extents[sub].start + k;
      assert s !in v.disk.bad && (s + 1) * SECTOR <= |v.disk.bytes|;
    }
  }

  /** The sector a metadata block number stands for, if it has one. */
  ghost predicate Addressed(v: Volume, sb: SuperBlock, loc: BlockInfo, bytes: seq<Byte>) {
    var sector := loc.number * (sb.zoneSize / 512);
    && loc.subpart <= sb.numSubs && sector <= 0xFFFF_FFFF && |bytes| == 1024
    && Holds(v, loc.subpart, sector, bytes)
  }

  lemma AddressedRecord(v: Volume, sb: SuperBlock, loc: BlockInfo, bytes: seq<Byte>)
    requires Addressed(v, sb, loc, bytes)
    ensures MetadataAt(v, sb, loc) == Some(bytes)
  {
    hide Times;
    TimesIsProduct(loc.number, sb.zoneSize / 512);
    HeldRun(v, loc.subpart, loc.number * (sb.zoneSize / 512), bytes);
  }

  /** The SEGD record laid out at a location is the inode there, unless it describes nothing or lacks its chain. */
  lemma InodeOnVolume(v: Volume, sb: SuperBlock, loc: BlockInfo, f: Segd)
    requires Addressed(v, sb, loc, EncodeSegd(f))
    ensures InodeAt(v, sb, loc) ==
      if f.numberData == 0 || (f.numberData > 114 && f.nextSegment.number == 0) then None
      else Some(Node(loc, InodeOf(f)))
  {
    hide MetadataAt, Addressed, EncodeSegd, DecodeInode, Checksum, Sum;
    AddressedRecord(v, sb, loc, EncodeSegd(f));
    SegdDecodes(f);
  }

  lemma SegmentOnVolume(v: Volume, sb: SuperBlock, loc: BlockInfo, f: Segi)
    requires Addressed(v, sb, loc, EncodeSegi(f))
    ensures SegmentAt(v, sb, loc) == if loc.number == 0 then None else Some(SegmentOf(f))
  {
    hide MetadataAt, Addressed, EncodeSegi, DecodeSegment, Checksum, Sum;
    AddressedRecord(v, sb, loc, EncodeSegi(f));
    SegiDecodes(f);
  }

  /** Whatever words a record holds: exactly when it is an inode. */
  lemma {:induction false} InodeIff(v: Volume, sb: SuperBlock, loc: BlockInfo, ws: seq<U32>)
    requires |ws| == 256 && Addressed(v, sb, loc, Encode(ws))
    ensures InodeAt(v, sb, loc).Some? <==>
      && ws[1] == 0x53454744 && ws[0] == Sum(ws[1..]) % 0x1_0000_0000
      && ws[249] != 0 && (ws[249] > 114 ==> ws[4] != 0)
  {
    hide MetadataAt, Addressed, Encode, Checksum, Sum, Load32, Load16, Load64, LoadBlocks;
    AddressedRecord(v, sb, loc, Encode(ws));
    ChecksumIsSum(ws);
    LoadsWord(ws, 1);
    LoadsWord(ws, 4);
    LoadsWord(ws, 249);
  }

  /** Exactly when it is a SEGI record. */
  lemma {:induction false} SegmentIff(v: Volume, sb: SuperBlock, loc: BlockInfo, ws: seq<U32>)
    requires |ws| == 256 && Addressed(v, sb, loc, Encode(ws))
    ensures SegmentAt(v, sb, loc).Some? <==>
      loc.number != 0 && ws[1] == 0x53454749 && ws[0] == Sum(ws[1..]) % 0x1_0000_0000
  {
    hide MetadataAt, Addressed, Encode, Checksum, Sum, Load32, Load16, LoadBlocks;
    AddressedRecord(v, sb, loc, Encode(ws));
    ChecksumIsSum(ws);
    LoadsWord(ws, 1);
  }

  /** The seven zone sizes. */
  lemma ZoneSizes(z: U32)
    ensures ValidZoneSize(z) <==> z in {2048, 4096, 8192, 16384, 32768, 65536, 131072}
  {
    hide BitAnd, ShiftLeft;
    ShiftValues();
    if ValidZoneSize(z) {
      ZoneIsShiftedMetadata(z);
      var k: nat :| 1 <= k <= 7 && z == ShiftLeft(METADATA_SIZE, k);
      ShiftIsScale(METADATA_SIZE, k);
    }
    if z in {2048, 4096, 8192, 16384, 32768, 65536, 131072} {
      PowerOfTwoTest(z);
    }
  }

  lemma ShiftValues()
    ensures ShiftLeft(1, 1) == 2 && ShiftLeft(1, 2) == 4 && ShiftLeft(1, 3) == 8 && ShiftLeft(1, 4) == 16
    ensures ShiftLeft(1, 5) == 32 && ShiftLeft(1, 6) == 64 && ShiftLeft(1, 7) == 128
    ensures ShiftLeft(1, 11) == 2048 && ShiftLeft(1, 12) == 4096 && ShiftLeft(1, 13) == 8192
    ensures ShiftLeft(1, 14) == 16384 && ShiftLeft(1, 15) == 32768 && ShiftLeft(1, 16) == 65536
    ensures ShiftLeft(1, 17) == 131072
  {
  }

  /** The superblock laid out in sector 8192 mounts the partition exactly when it is acceptable. */
  lemma SuperOnVolume(v: Volume, kind: U16, isSub: bool, f: Super)
    requires Holds(v, 0, 8192, EncodeSuper(f))
    ensures ProbeAt(v, kind, isSub) ==
      if && kind == 0x0100 && !isSub && f.magic == 0x50465300 && f.version <= 3
         && f.zoneSize in {2048, 4096, 8192, 16384, 32768, 65536, 131072}
         && f.numSubs < |v.extents| && f.root.subpart <= f.numSubs && f.journal.subpart <= f.numSubs
      then Some(SuperBlock(f.magic, f.version, f.zoneSize, f.numSubs, f.journal, f.root)) else None
  {
    hide EncodeSuper, DecodeSuper, ValidZoneSize, Holds;
    HeldRun(v, 0, 8192, EncodeSuper(f));
    SuperDecodes(f);
    ZoneSizes(f.zoneSize);
  }
}

/** On-disk PFS records and the address arithmetic shared by inodes, SEGI records and data. */
module PfsFormat {
  import opened Bytes
  import opened Disk
  import opened ApaVolume

  const METADATA_SIZE: nat := 1024
  const INODE_MAX_BLOCKS: nat := 114
  const INDIRECT_MAX_BLOCKS: nat := 123
  const SUPER_SECTOR: U32 := 8192
  const SUPER_BACKUP_SECTOR: U32 := 8193
  const SUPER_MAGIC: U32 := 0x50465300
  const SEGD_MAGIC: U32 := 0x53454744
  const SEGI_MAGIC: U32 := 0x53454749
  const FORMAT_VERSION: U32 := 3
  const TYPE_PFS: U16 := 0x0100
  const MODE_DIRECTORY: U16 := 0x1000
  const MODE_REGULAR: U16 := 0x2000

  datatype BlockInfo = BlockInfo(number: U32, subpart: U16, count: U16)

  datatype SuperBlock = SuperBlock(magic: U32, version: U32, zoneSize: U32, numSubs: U32, log: BlockInfo,
                                   root: BlockInfo)

  datatype RawInode = RawInode(
    checksum: U32, magic: U32, nextSegment: BlockInfo, data: seq<BlockInfo>,
    mode: U16, size: U64, numberData: U32, numberSegdesg: U32)

  /** A SEGD record always carries 114 descriptor slots. */
  type Inode = i: RawInode | |i.data| == INODE_MAX_BLOCKS
    witness RawInode(0, 0, BlockInfo(0, 0, 0), seq(114, _ => BlockInfo(0, 0, 0)), 0, 0, 0, 0)

  datatype RawSegment = RawSegment(checksum: U32, magic: U32, nextSegment: BlockInfo, data: seq<BlockInfo>)

  /** A SEGI record always carries 123 descriptor slots. */
  type Segment = s: RawSegment | |s.data| == INDIRECT_MAX_BLOCKS
    witness RawSegment(0, 0, BlockInfo(0, 0, 0), seq(123, _ => BlockInfo(0, 0, 0)))

  datatype Node = Node(location: BlockInfo, inode: Inode)

  /** `mode & 0xF000`: the node kind without its permission bits. */
  function Kind(mode: U16): U16 {
    mode - mode % 0x1000
  }

  /** Permission bits do not matter. */
  lemma KindIgnoresPermissions(mode: U16, k: nat, bits: nat)
    requires mode == k * 0x1000 + bits && bits < 0x1000
    ensures Kind(mode) == k * 0x1000
  {
  }

  /** It is the mask with `0xF000`. */
  lemma {:induction false} KindIsMask(mode: U16)
    ensures Kind(mode) == BitAnd(mode, 0xF000)
  {
    hide BitAnd;
    var high := mode / 0x1000;
    assert ShiftLeft(1, 12) == 0x1000 && ShiftLeft(1, 4) == 16 && ShiftLeft(0xF, 12) == 0xF000;
    ShiftIsScale(high, 12);
    MaskHighBits(high, mode % 0x1000, 12, 0xF);
    LowBits(high, 4);
  }

  /** A mask whose low `k` bits are clear sees only what lies above them. */
  lemma {:induction false} MaskHighBits(high: nat, low: nat, k: nat, b: nat)
    requires low < ShiftLeft(1, k)
    ensures BitAnd(ShiftLeft(high, k) + low, ShiftLeft(b, k)) == ShiftLeft(BitAnd(high, b), k)
    decreases k
  {
    hide BitAnd;
    if k > 0 {
      MaskHighBits(high, low / 2, k - 1, b);
      DoubledMask(ShiftLeft(high, k) + low, ShiftLeft(b, k - 1));
      assert (ShiftLeft(high, k) + low) / 2 == ShiftLeft(high, k - 1) + low / 2;
    }
  }

  lemma {:induction false} DoubledMask(a: nat, b: nat)
    ensures BitAnd(a, 2 * b) == 2 * BitAnd(a / 2, b)
  {
    if a != 0 && b != 0 {
      assert 2 * b / 2 == b;
    }
  }

  lemma {:induction false} LowBits(x: nat, k: nat)
    requires x < ShiftLeft(1, k)
    ensures BitAnd(x, ShiftLeft(1, k) - 1) == x
    decreases k
  {
    if k > 0 {
      LowBits(x / 2, k - 1);
      var half := ShiftLeft(1, k - 1);
      assert ShiftLeft(1, k) == 2 * half;
      assert (2 * half - 1) / 2 == half - 1 && (2 * half - 1) % 2 == 1;
    }
  }

  function LoadBlock(s: seq<Byte>, at: nat): BlockInfo
    requires at + 8 <= |s|
  {
    BlockInfo(Load32(s, at), Load16(s, at + 4), Load16(s, at + 6))
  }

  function LoadBlocks(s: seq<Byte>, at: nat, n: nat): (r: seq<BlockInfo>)
    requires at + 8 * n <= |s|
    ensures |r| == n
  {
    seq(n, (i: nat) requires i < n => LoadBlock(s, at + 8 * i))
  }

  function DecodeSuper(s: seq<Byte>): SuperBlock
    requires |s| >= 40
  {
    SuperBlock(Load32(s, 0), Load32(s, 4), Load32(s, 16), Load32(s, 20), LoadBlock(s, 24), LoadBlock(s, 32))
  }

  function DecodeInode(s: seq<Byte>): Inode
    requires |s| == METADATA_SIZE
  {
    RawInode(Load32(s, 0), Load32(s, 4), LoadBlock(s, 16), LoadBlocks(s, 40, INODE_MAX_BLOCKS),
             Load16(s, 952), Load64(s, 984), Load32(s, 996), Load32(s, 1000))
  }

  function DecodeSegment(s: seq<Byte>): Segment
    requires |s| == METADATA_SIZE
  {
    RawSegment(Load32(s, 0), Load32(s, 4), LoadBlock(s, 16), LoadBlocks(s, 40, INDIRECT_MAX_BLOCKS))
  }

  // ---- checksum ----

  /** The unbounded sum of the 32-bit words of `s` from byte `at` on. */
  function WordTotal(s: seq<Byte>, at: nat): nat
    requires |s| % 4 == 0 && at % 4 == 0
    decreases |s| - at
  {
    if at >= |s| then 0 else Load32(s, at) + WordTotal(s, at + 4)
  }

  /** The sum of words 1..255, wrapped to 32 bits once at the end. */
  function Checksum(s: seq<Byte>): U32
    requires |s| == METADATA_SIZE
  {
    WordTotal(s, 4) % 0x1_0000_0000
  }

  lemma Wrapped(a: nat, b: nat)
    ensures (a % 0x1_0000_0000 + b) % 0x1_0000_0000 == (a + b) % 0x1_0000_0000
  {
    var q := a / 0x1_0000_0000;
    assert a + b == (a % 0x1_0000_0000 + b) + q * 0x1_0000_0000;
  }

  /** Wrapping every partial sum to 32 bits gives the wrapped total. */
  method MetadataChecksum(s: seq<Byte>) returns (sum: U32)
    requires |s| == METADATA_SIZE
    ensures sum == Checksum(s)
  {
    sum := 0;
    var offset := 4;
    while offset < METADATA_SIZE
      invariant 4 <= offset <= METADATA_SIZE && offset % 4 == 0
      invariant (sum + WordTotal(s, offset)) % 0x1_0000_0000 == Checksum(s)
    {
      var word := Load32(s, offset);
      ghost var rest := WordTotal(s, offset + 4);
      Wrapped(sum + word, rest);
      sum := (sum + word) % 0x1_0000_0000;
      offset := offset + 4;
    }
  }

  // ---- zone sizes and metadata addresses ----

  predicate ValidZoneSize(zone: U32) {
    2 * 1024 <= zone <= 128 * 1024 && BitAnd(zone, zone - 1) == 0
  }

  /** `z & (z - 1)` vanishes exactly for powers of two. */
  lemma {:induction false} PowerOfTwoTest(z: nat)
    requires z > 0
    ensures BitAnd(z, z - 1) == 0 <==> exists k: nat :: z == ShiftLeft(1, k)
    decreases z
  {
    if z == 1 {
      assert z == ShiftLeft(1, 0);
    } else if z % 2 == 1 {
      BitAndSelf(z / 2);
      assert (z - 1) / 2 == z / 2;
      forall k: nat ensures z != ShiftLeft(1, k) {
        assert k == 0 || ShiftLeft(1, k) % 2 == 0;
      }
    } else {
      PowerOfTwoTest(z / 2);
      assert (z - 1) / 2 == z / 2 - 1;
      assert BitAnd(z, z - 1) == 2 * BitAnd(z / 2, z / 2 - 1);
      if k: nat :| z == ShiftLeft(1, k) {
        assert k > 0 && z / 2 == ShiftLeft(1, k - 1);
      }
      if k: nat :| z / 2 == ShiftLeft(1, k) {
        assert z == ShiftLeft(1, k + 1);
      }
    }
  }

  lemma {:induction false} BitAndSelf(a: nat)
    ensures BitAnd(a, a) == a
    decreases a
  {
    if a > 0 {
      BitAndSelf(a / 2);
    }
  }

  lemma {:induction false} ShiftIsScale(n: nat, k: nat)
    ensures ShiftLeft(n, k) == n * ShiftLeft(1, k)
  {
    if k > 0 {
      ShiftIsScale(n, k - 1);
    }
  }

  lemma {:induction false} ShiftMonotone(j: nat, k: nat)
    requires j < k
    ensures ShiftLeft(1, j) < ShiftLeft(1, k)
  {
    if j + 1 < k {
      ShiftMonotone(j, k - 1);
    }
    assert ShiftLeft(1, k - 1) > 0 by { ShiftPositive(k - 1); }
  }

  lemma {:induction false} ShiftPositive(k: nat)
    ensures ShiftLeft(1, k) > 0
  {
    if k > 0 {
      ShiftPositive(k - 1);
    }
  }

  /** The seven zone sizes PFS allows, as shifts of the 1024-byte metadata record. */
  lemma ZoneIsShiftedMetadata(zone: U32)
    requires ValidZoneSize(zone)
    ensures exists k: nat :: 1 <= k <= 7 && zone == ShiftLeft(METADATA_SIZE, k)
  {
    PowerOfTwoTest(zone);
    var j: nat :| zone == ShiftLeft(1, j);
    assert ShiftLeft(1, 10) == 1024 && ShiftLeft(1, 17) == 128 * 1024;
    if j <= 10 {
      if j < 10 { ShiftMonotone(j, 10); }
      assert false;
    }
    if j > 17 {
      ShiftMonotone(17, j);
      assert false;
    }
    ShiftIsScale(1024, j - 10);
    ShiftSum(10, j - 10);
    assert zone == ShiftLeft(METADATA_SIZE, j - 10);
  }

  lemma ShiftSum(a: nat, b: nat)
    ensures ShiftLeft(1, a + b) == ShiftLeft(1, a) * ShiftLeft(1, b)
  {
    if b > 0 {
      ShiftSum(a, b - 1);
      assert ShiftLeft(1, a + b) == 2 * ShiftLeft(1, a + (b - 1));
      assert 2 * (ShiftLeft(1, a) * ShiftLeft(1, b - 1)) == ShiftLeft(1, a) * (2 * ShiftLeft(1, b - 1));
    }
  }

  function SectorsPerZone(zone: U32): nat {
    zone / SECTOR
  }

  /** A zone is a whole number of sectors. */
  predicate WholeSectors(zone: U32) {
    zone > 0 && zone == SectorsPerZone(zone) * SECTOR
  }

  lemma ZoneInSectors(zone: U32)
    requires ValidZoneSize(zone)
    ensures WholeSectors(zone)
  {
    ZoneIsShiftedMetadata(zone);
    var k: nat :| 1 <= k <= 7 && zone == ShiftLeft(METADATA_SIZE, k);
    ShiftInSectors(zone, k);
  }

  lemma {:induction false} ShiftInSectors(zone: nat, k: nat)
    requires zone == ShiftLeft(METADATA_SIZE, k)
    ensures zone / SECTOR == 2 * ShiftLeft(1, k) && zone == (zone / SECTOR) * SECTOR
  {
    ShiftIsScale(METADATA_SIZE, k);
  }

  /** log2(zone / 1024): the shift applied to a metadata block number. */
  method InodeScale(zone: U32) returns (scale: nat)
    requires ValidZoneSize(zone)
    ensures scale <= 7 && zone == ShiftLeft(METADATA_SIZE, scale)
  {
    scale := 0;
    var size := METADATA_SIZE;
    ZoneIsShiftedMetadata(zone);
    ghost var k: nat :| 1 <= k <= 7 && zone == ShiftLeft(METADATA_SIZE, k);
    while size < zone
      invariant scale <= k && size == ShiftLeft(METADATA_SIZE, scale)
      decreases k - scale
    {
      if scale == k { assert false; }
      size := 2 * size;
      scale := scale + 1;
    }
    if scale < k {
      ShiftMonotone(scale, k);
      ShiftIsScale(METADATA_SIZE, scale);
      ShiftIsScale(METADATA_SIZE, k);
      assert false;
    }
  }

  /**
   * The sector of a metadata record. Both 32-bit guards together reject exactly the block numbers
   * whose zone-scaled sector does not fit 32 bits, and what they let through is the start of zone
   * `number`: metadata and data are addressed alike, unlike what docs/pfs-format-notes.md says.
   */
  method MetadataSector(zone: U32, number: U32) returns (sector: Option<U32>)
    requires ValidZoneSize(zone)
    ensures sector == (var first := Times(number, SectorsPerZone(zone)); if first <= U32_MAX then Some(first) else None)
  {
    hide Times, ShiftLeft, ValidZoneSize;
    var scale := InodeScale(zone);
    MetadataGuards(zone, scale, number);
    if number > U32_MAX / ShiftLeft(1, scale) {
      return None;
    }
    var metadataBlock := ShiftLeft(number, scale);
    var sector64 := metadataBlock * (METADATA_SIZE / SECTOR);
    if sector64 > U32_MAX {
      return None;
    }
    return Some(sector64);
  }

  lemma {:induction false} MetadataGuards(zone: U32, scale: nat, number: nat)
    requires zone == ShiftLeft(METADATA_SIZE, scale)
    ensures ShiftLeft(1, scale) > 0
    ensures number > U32_MAX / ShiftLeft(1, scale) <==> ShiftLeft(number, scale) > U32_MAX
    ensures Times(number, SectorsPerZone(zone)) == 2 * ShiftLeft(number, scale)
  {
    hide ShiftLeft, Times;
    ShiftInSectors(zone, scale);
    ShiftIsScale(number, scale);
    ShiftPositive(scale);
    var factor := ShiftLeft(1, scale);
    TimesScale(number, factor, 2);
    TimesIsProduct(number, factor);
    DivisionGuard(U32_MAX, factor, number);
  }

  lemma DivisionGuard(max: nat, factor: nat, n: nat)
    requires factor > 0
    ensures n > max / factor <==> n * factor > max
  {
    var q := max / factor;
    assert max == q * factor + max % factor && max % factor < factor;
    if n > q {
      assert n * factor >= (q + 1) * factor == q * factor + factor;
    } else {
      assert n * factor <= q * factor;
    }
  }

  /** The two sectors of the metadata record at `loc`, or nothing when it cannot be read. */
  function MetadataAt(v: Volume, sb: SuperBlock, loc: BlockInfo): Option<seq<Byte>> {
    var sector := Times(loc.number, SectorsPerZone(sb.zoneSize));
    if loc.subpart <= sb.numSubs && loc.subpart < |v.extents| && sector <= U32_MAX && v.RunOk(loc.subpart, sector, 2)
    then Some(v.RunBytes(loc.subpart, sector, 2))
    else None
  }

  /** The inode record at `loc`, when it is present, well-formed and checksum-valid. */
  function InodeAt(v: Volume, sb: SuperBlock, loc: BlockInfo): Option<Node> {
    match MetadataAt(v, sb, loc)
    case None => None
    case Some(raw) =>
      var i := DecodeInode(raw);
      if || i.magic != SEGD_MAGIC
         || Checksum(raw) != i.checksum
         || i.numberData == 0
         || (i.numberData > INODE_MAX_BLOCKS && i.nextSegment.number == 0)
      then None
      else Some(Node(loc, i))
  }

  /** The SEGI record at `loc`, when it is present, well-formed and checksum-valid. */
  function SegmentAt(v: Volume, sb: SuperBlock, loc: BlockInfo): Option<Segment> {
    if loc.number == 0 then None
    else
      match MetadataAt(v, sb, loc)
      case None => None
      case Some(raw) =>
        var s := DecodeSegment(raw);
        if s.magic != SEGI_MAGIC || Checksum(raw) != s.checksum then None else Some(s)
  }
}

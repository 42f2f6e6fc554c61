/**
 * What a PFS file means: the descriptor slots of its inode and SEGI chain, the sectors those
 * describe, and the bytes in them. No runs, batches or edge sectors appear here.
 */
module PfsStream {
  import opened Bytes
  import opened Disk
  import opened ApaVolume
  import opened PfsFormat

  datatype Walk = Broken | Walked(blocks: seq<BlockInfo>, segments: nat) {
    /** The walk that visits `bs` and `n` SEGI records first. */
    function After(bs: seq<BlockInfo>, n: nat): Walk {
      if Broken? then Broken else Walked(bs + blocks, n + segments)
    }
  }

  function BlockBytes(sb: SuperBlock, b: BlockInfo): nat {
    Times(b.count, sb.zoneSize)
  }

  function Length(sb: SuperBlock, bs: seq<BlockInfo>): nat {
    if bs == [] then 0 else Length(sb, bs[..|bs| - 1]) + BlockBytes(sb, bs[|bs| - 1])
  }

  /** Slot 0 of every SEGI record describes the record itself. */
  predicate IsHeader(g: nat) {
    g >= INODE_MAX_BLOCKS && (g - INODE_MAX_BLOCKS) % INDIRECT_MAX_BLOCKS == 0
  }

  /** What one slot holds, given the walk's position in the SEGI chain. */
  datatype Step = Unusable | Loaded(segment: Segment) | Data(block: BlockInfo)

  /** The descriptor of payload slot `g`, given the SEGI record the walk holds. */
  function CurrentBlock(node: Inode, indirect: Option<Segment>, g: nat): BlockInfo
    requires g >= INODE_MAX_BLOCKS ==> indirect.Some?
  {
    if g < INODE_MAX_BLOCKS then node.data[g]
    else indirect.value.data[(g - INODE_MAX_BLOCKS) % INDIRECT_MAX_BLOCKS]
  }

  function SlotStep(v: Volume, sb: SuperBlock, node: Inode, g: nat, next: BlockInfo, indirect: Option<Segment>): Step {
    if IsHeader(g) then
      match SegmentAt(v, sb, next)
      case None => Unusable
      case Some(segment) => Loaded(segment)
    else if g >= INODE_MAX_BLOCKS && indirect.None? then Unusable
    else
      var block := CurrentBlock(node, indirect, g);
      if block.count == 0 then Unusable else Data(block)
  }

  /** The unmerged walk: slot by slot from `g`, loading SEGI records as they are reached. */
  function WalkFrom(v: Volume, sb: SuperBlock, node: Inode, g: nat, next: BlockInfo,
                    indirect: Option<Segment>, logical: nat, limit: nat): Walk
    requires g >= 1
    decreases node.numberData - g
  {
    if g >= node.numberData || logical >= limit then Walked([], 0)
    else
      match SlotStep(v, sb, node, g, next, indirect)
      case Unusable => Broken
      case Loaded(segment) =>
        WalkFrom(v, sb, node, g + 1, segment.nextSegment, Some(segment), logical, limit).After([], 1)
      case Data(block) =>
        if logical + BlockBytes(sb, block) > U64_MAX then Broken
        else WalkFrom(v, sb, node, g + 1, next, indirect, logical + BlockBytes(sb, block), limit).After([block], 0)
  }

  function WalkTo(v: Volume, sb: SuperBlock, node: Inode, limit: nat): Walk {
    WalkFrom(v, sb, node, 1, node.nextSegment, None, 0, limit)
  }

  /** The extent a descriptor may be read from: none when it names a sub-partition the volume has not joined. */
  function JoinedSub(sb: SuperBlock, sub: nat): set<nat> {
    if sub <= sb.numSubs then {sub} else {}
  }

  /** The extents a read of [offset, limit) may touch from slot `g` on. */
  function TouchedFrom(v: Volume, sb: SuperBlock, node: Inode, g: nat, next: BlockInfo,
                       indirect: Option<Segment>, logical: nat, offset: nat, limit: nat): set<nat>
    requires g >= 1
    decreases node.numberData - g
  {
    if g >= node.numberData || logical >= limit then {}
    else
      var header := if IsHeader(g) then JoinedSub(sb, next.subpart) else {};
      match SlotStep(v, sb, node, g, next, indirect)
      case Unusable => header
      case Loaded(s) => header + TouchedFrom(v, sb, node, g + 1, s.nextSegment, Some(s), logical, offset, limit)
      case Data(block) =>
        var end := logical + BlockBytes(sb, block);
        if end > U64_MAX then {}
        else
          (if end > offset then JoinedSub(sb, block.subpart) else {})
          + TouchedFrom(v, sb, node, g + 1, next, indirect, end, offset, limit)
  }

  /** The extents a read of [offset, limit) may touch: those of the SEGI records and the data it needs. */
  function Touched(v: Volume, sb: SuperBlock, node: Inode, offset: nat, limit: nat): set<nat> {
    TouchedFrom(v, sb, node, 1, node.nextSegment, None, 0, offset, limit)
  }

  // ---- the sectors and bytes a list of blocks describes ----

  function BlockSectors(b: BlockInfo, spz: nat): (r: seq<Addr>)
    ensures |r| == Times(b.count, spz)
  {
    var first := Times(b.number, spz);
    seq(Times(b.count, spz), (j: nat) => Addr(b.subpart, first + j))
  }

  /** Logical sector i of the file is element i. */
  function Flatten(bs: seq<BlockInfo>, spz: nat): seq<Addr> {
    if bs == [] then [] else Flatten(bs[..|bs| - 1], spz) + BlockSectors(bs[|bs| - 1], spz)
  }

  /** The sector may be read as file data. */
  predicate DataOk(v: Volume, sb: SuperBlock, a: Addr) {
    a.sub <= sb.numSubs && v.SectorOk(a)
  }

  /** Sector `s` of a byte stream overlaps the non-empty range [offset, offset + len). */
  predicate Covers(s: nat, offset: nat, len: nat) {
    len > 0 && offset < (s + 1) * SECTOR && s * SECTOR < offset + len
  }

  predicate CoveredOk(v: Volume, sb: SuperBlock, sectors: seq<Addr>, offset: nat, len: nat) {
    && offset + len <= |sectors| * SECTOR
    && forall s :: 0 <= s < |sectors| && Covers(s, offset, len) ==> DataOk(v, sb, sectors[s])
  }

  function StreamByte(v: Volume, sectors: seq<Addr>, p: nat): Byte
    requires p < |sectors| * SECTOR
  {
    v.ByteAt(sectors[p / SECTOR], p % SECTOR)
  }

  function StreamBytes(v: Volume, sectors: seq<Addr>, offset: nat, len: nat): (r: seq<Byte>)
    requires offset + len <= |sectors| * SECTOR
    ensures |r| == len
    ensures forall i :: 0 <= i < len ==> r[i] == StreamByte(v, sectors, offset + i)
  {
    if len == 0 then [] else StreamBytes(v, sectors, offset, len - 1) + [StreamByte(v, sectors, offset + len - 1)]
  }

  function FileSectors(v: Volume, sb: SuperBlock, node: Inode, limit: nat): seq<Addr> {
    match WalkTo(v, sb, node, limit)
    case Broken => []
    case Walked(blocks, _) => Flatten(blocks, SectorsPerZone(sb.zoneSize))
  }

  /** Reading [offset, offset + len) of the file succeeds. */
  predicate ReadOk(v: Volume, sb: SuperBlock, node: Inode, offset: nat, len: nat) {
    && offset + len <= node.size
    && (len == 0 ||
        (var walk := WalkTo(v, sb, node, offset + len);
         && walk.Walked?
         && CoveredOk(v, sb, Flatten(walk.blocks, SectorsPerZone(sb.zoneSize)), offset, len)
         && (node.numberSegdesg == 0 || walk.segments <= node.numberSegdesg)))
  }

  /** The bytes [offset, offset + len) of the file. */
  function ReadBytes(v: Volume, sb: SuperBlock, node: Inode, offset: nat, len: nat): (r: seq<Byte>)
    requires ReadOk(v, sb, node, offset, len)
    ensures |r| == len
  {
    if len == 0 then []
    else StreamBytes(v, FileSectors(v, sb, node, offset + len), offset, len)
  }

  // ---- lemmas about blocks and sectors ----

  lemma {:induction false} LengthAppend(sb: SuperBlock, bs: seq<BlockInfo>, b: BlockInfo)
    ensures Length(sb, bs + [b]) == Length(sb, bs) + BlockBytes(sb, b)
  {
    assert (bs + [b])[..|bs|] == bs;
  }

  lemma {:induction false} FlattenAppend(bs: seq<BlockInfo>, b: BlockInfo, spz: nat)
    ensures Flatten(bs + [b], spz) == Flatten(bs, spz) + BlockSectors(b, spz)
  {
    assert (bs + [b])[..|bs|] == bs;
  }

  lemma {:induction false} FlattenNothing(spz: nat)
    ensures Flatten([], spz) == []
  {
  }

  /** With zones of whole sectors the sector map covers exactly the described bytes. */
  lemma {:induction false} FlattenLength(sb: SuperBlock, bs: seq<BlockInfo>)
    requires WholeSectors(sb.zoneSize)
    ensures |Flatten(bs, SectorsPerZone(sb.zoneSize))| * SECTOR == Length(sb, bs)
  {
    if bs != [] {
      FlattenLength(sb, bs[..|bs| - 1]);
      BlockLength(sb, bs[|bs| - 1]);
    }
  }

  lemma BlockLength(sb: SuperBlock, b: BlockInfo)
    requires WholeSectors(sb.zoneSize)
    ensures BlockBytes(sb, b) == Times(b.count, SectorsPerZone(sb.zoneSize)) * SECTOR
  {
    TimesScale(b.count, SectorsPerZone(sb.zoneSize), SECTOR);
  }

  lemma {:induction false} FlattenConcat(a: seq<BlockInfo>, b: seq<BlockInfo>, spz: nat)
    ensures Flatten(a + b, spz) == Flatten(a, spz) + Flatten(b, spz)
  {
    hide Flatten, BlockSectors;
    FlattenNothing(spz);
    if b == [] {
      assert a + b == a;
      assert Flatten(a, spz) + [] == Flatten(a, spz);
    } else {
      var front, last := b[..|b| - 1], b[|b| - 1];
      assert a + b == (a + front) + [last] && b == front + [last];
      FlattenAppend(a + front, last, spz);
      FlattenAppend(front, last, spz);
      FlattenConcat(a, front, spz);
    }
  }

  lemma {:induction false} LengthConcat(sb: SuperBlock, a: seq<BlockInfo>, b: seq<BlockInfo>)
    ensures Length(sb, a + b) == Length(sb, a) + Length(sb, b)
  {
    if b == [] {
      assert a + b == a;
    } else {
      var last := b[|b| - 1];
      assert a + b == (a + b[..|b| - 1]) + [last];
      LengthAppend(sb, a + b[..|b| - 1], last);
      LengthConcat(sb, a, b[..|b| - 1]);
    }
  }

  // ---- reads of one file agree with each other ----

  /** A walk with a smaller limit visits a prefix of the blocks, and stops early only when it has enough. */
  lemma {:induction false} WalkMonotone(v: Volume, sb: SuperBlock, node: Inode, g: nat, next: BlockInfo,
                                        indirect: Option<Segment>, logical: nat, small: nat, large: nat)
    requires g >= 1 && small <= large
    requires WalkFrom(v, sb, node, g, next, indirect, logical, large).Walked?
    ensures var w := WalkFrom(v, sb, node, g, next, indirect, logical, small);
      var full := WalkFrom(v, sb, node, g, next, indirect, logical, large);
      && w.Walked? && w.blocks <= full.blocks && w.segments <= full.segments
      && (logical + Length(sb, w.blocks) >= small || w.blocks == full.blocks)
    decreases node.numberData - g
  {
    hide BlockBytes, SlotStep;
    if g >= node.numberData || logical >= large {
    } else if logical >= small {
    } else {
      match SlotStep(v, sb, node, g, next, indirect)
      case Loaded(segment) =>
        WalkMonotone(v, sb, node, g + 1, segment.nextSegment, Some(segment), logical, small, large);
        var rest := WalkFrom(v, sb, node, g + 1, segment.nextSegment, Some(segment), logical, small);
        var whole := WalkFrom(v, sb, node, g + 1, segment.nextSegment, Some(segment), logical, large);
        assert [] + rest.blocks == rest.blocks && [] + whole.blocks == whole.blocks;
      case Data(block) =>
        var logical' := logical + BlockBytes(sb, block);
        WalkMonotone(v, sb, node, g + 1, next, indirect, logical', small, large);
        var rest := WalkFrom(v, sb, node, g + 1, next, indirect, logical', small).blocks;
        LengthConcat(sb, [block], rest);
        assert Length(sb, [block]) == BlockBytes(sb, block);
    }
  }

  /** The sector map used by a shorter read is a prefix of the one used by a longer read. */
  lemma ShorterMap(v: Volume, sb: SuperBlock, node: Inode, small: nat, large: nat)
    requires WholeSectors(sb.zoneSize) && small <= large
    requires WalkTo(v, sb, node, large).Walked?
    ensures var w := WalkTo(v, sb, node, small);
      && w.Walked? && w.segments <= WalkTo(v, sb, node, large).segments
      && FileSectors(v, sb, node, small) <= FileSectors(v, sb, node, large)
      && (small <= |FileSectors(v, sb, node, large)| * SECTOR
          ==> small <= |FileSectors(v, sb, node, small)| * SECTOR)
  {
    WalkMonotone(v, sb, node, 1, node.nextSegment, None, 0, small, large);
    var w, full := WalkTo(v, sb, node, small), WalkTo(v, sb, node, large);
    var rest := full.blocks[|w.blocks|..];
    assert full.blocks == w.blocks + rest;
    FlattenConcat(w.blocks, rest, SectorsPerZone(sb.zoneSize));
    FlattenLength(sb, w.blocks);
    FlattenLength(sb, full.blocks);
  }

  lemma {:induction false} PrefixStream(v: Volume, small: seq<Addr>, large: seq<Addr>, offset: nat, len: nat)
    requires small <= large && offset + len <= |small| * SECTOR
    ensures StreamBytes(v, small, offset, len) == StreamBytes(v, large, offset, len)
  {
    if len > 0 {
      PrefixStream(v, small, large, offset, len - 1);
      assert small[(offset + len - 1) / SECTOR] == large[(offset + len - 1) / SECTOR];
    }
  }

  /** A successful read can be split: every sub-range can be read and yields the matching slice. */
  lemma ReadSplits(v: Volume, sb: SuperBlock, node: Inode, offset: nat, len: nat, from: nat, n: nat)
    requires WholeSectors(sb.zoneSize)
    requires ReadOk(v, sb, node, offset, len)
    requires offset <= from && from + n <= offset + len
    ensures ReadOk(v, sb, node, from, n)
    ensures ReadBytes(v, sb, node, from, n) == ReadBytes(v, sb, node, offset, len)[from - offset..][..n]
  {
    hide WalkFrom, Flatten, StreamByte, DataOk;
    if n > 0 {
      ShorterMap(v, sb, node, from + n, offset + len);
      var small, large := FileSectors(v, sb, node, from + n), FileSectors(v, sb, node, offset + len);
      forall s | 0 <= s < |small| && Covers(s, from, n) ensures DataOk(v, sb, small[s]) {
        assert Covers(s, offset, len);
        assert small[s] == large[s];
      }
      PrefixStream(v, small, large, from, n);
    }
  }

  /** Two adjacent successful reads join: the whole range can be read and is their concatenation. */
  lemma ReadsJoin(v: Volume, sb: SuperBlock, node: Inode, offset: nat, a: nat, b: nat)
    requires WholeSectors(sb.zoneSize)
    requires ReadOk(v, sb, node, offset, a) && ReadOk(v, sb, node, offset + a, b)
    ensures ReadOk(v, sb, node, offset, a + b)
    ensures ReadBytes(v, sb, node, offset, a + b)
         == ReadBytes(v, sb, node, offset, a) + ReadBytes(v, sb, node, offset + a, b)
  {
    hide WalkFrom, Flatten, StreamByte, DataOk;
    if a > 0 && b > 0 {
      ShorterMap(v, sb, node, offset + a, offset + a + b);
      var small, large := FileSectors(v, sb, node, offset + a), FileSectors(v, sb, node, offset + a + b);
      assert offset + (a + b) == offset + a + b;
      forall s | 0 <= s < |large| && Covers(s, offset, a + b) ensures DataOk(v, sb, large[s]) {
        if s * SECTOR < offset + a {
          assert Covers(s, offset, a) && s < |small| && small[s] == large[s];
        } else {
          assert Covers(s, offset + a, b);
        }
      }
      ReadSplits(v, sb, node, offset, a + b, offset, a);
      ReadSplits(v, sb, node, offset, a + b, offset + a, b);
      var whole := ReadBytes(v, sb, node, offset, a + b);
      assert whole == whole[..a] + whole[a..];
      assert whole[0..] == whole && whole[a..][..b] == whole[a..];
    }
  }

  // ---- the declarative reading of the slots ----

  /** The k-th record of the SEGI chain. */
  function Chain(v: Volume, sb: SuperBlock, node: Inode, k: nat): Option<Segment> {
    if k == 0 then SegmentAt(v, sb, node.nextSegment)
    else
      match Chain(v, sb, node, k - 1)
      case None => None
      case Some(s) => SegmentAt(v, sb, s.nextSegment)
  }

  /** The descriptor in global slot `g`: from the inode, or from the (g-114)/123-th SEGI record. */
  function Slot(v: Volume, sb: SuperBlock, node: Inode, g: nat): Option<BlockInfo> {
    if g < INODE_MAX_BLOCKS then Some(node.data[g])
    else
      match Chain(v, sb, node, (g - INODE_MAX_BLOCKS) / INDIRECT_MAX_BLOCKS)
      case None => None
      case Some(s) => Some(s.data[(g - INODE_MAX_BLOCKS) % INDIRECT_MAX_BLOCKS])
  }

  /** The payload descriptors in slots 1..g-1, in order; nothing when one of those slots is unusable. */
  function Payload(v: Volume, sb: SuperBlock, node: Inode, g: nat): Option<seq<BlockInfo>> {
    if g <= 1 then Some([])
    else
      match (Payload(v, sb, node, g - 1), Slot(v, sb, node, g - 1))
      case (Some(bs), Some(b)) =>
        if IsHeader(g - 1) then Some(bs) else if b.count == 0 then None else Some(bs + [b])
      case _ => None
  }

  /** How many SEGI records slots below `g` use. */
  function HeadersBelow(g: nat): nat {
    if g <= INODE_MAX_BLOCKS then 0
    else (g - INODE_MAX_BLOCKS + INDIRECT_MAX_BLOCKS - 1) / INDIRECT_MAX_BLOCKS
  }

  /** `g` is where a walk for `limit` bytes stops: the first slot not needed. */
  ghost predicate StopsAt(v: Volume, sb: SuperBlock, node: Inode, limit: nat, g: nat) {
    && 1 <= g
    && Payload(v, sb, node, g).Some?
    && Length(sb, Payload(v, sb, node, g).value) <= U64_MAX
    && (g >= node.numberData || Length(sb, Payload(v, sb, node, g).value) >= limit)
    && (g == 1 || g - 1 < node.numberData)
    && (forall h :: 1 <= h < g && Payload(v, sb, node, h).Some? ==> Length(sb, Payload(v, sb, node, h).value) < limit)
  }

  lemma {:induction false} PayloadPrefix(v: Volume, sb: SuperBlock, node: Inode, g: nat, h: nat)
    requires g <= h && Payload(v, sb, node, h).Some?
    ensures Payload(v, sb, node, g).Some?
    ensures Payload(v, sb, node, g).value <= Payload(v, sb, node, h).value
    ensures Length(sb, Payload(v, sb, node, g).value) <= Length(sb, Payload(v, sb, node, h).value)
  {
    if g < h && h > 1 {
      PayloadPrefix(v, sb, node, g, h - 1);
      var bs := Payload(v, sb, node, h - 1).value;
      if !IsHeader(h - 1) {
        LengthAppend(sb, bs, Slot(v, sb, node, h - 1).value);
      }
    }
  }

  /** The walk state before slot `g` when everything below it was usable. */
  ghost predicate StateAt(v: Volume, sb: SuperBlock, node: Inode, g: nat, next: BlockInfo, indirect: Option<Segment>) {
    var k := HeadersBelow(g);
    if k == 0 then next == node.nextSegment && indirect == None
    else Chain(v, sb, node, k - 1).Some? && indirect == Chain(v, sb, node, k - 1)
         && next == indirect.value.nextSegment
  }

  lemma HeaderArithmetic(g: nat)
    requires g >= 1
    ensures HeadersBelow(g + 1) == HeadersBelow(g) + (if IsHeader(g) then 1 else 0)
    ensures IsHeader(g) ==> (g - INODE_MAX_BLOCKS) / INDIRECT_MAX_BLOCKS == HeadersBelow(g)
    ensures g >= INODE_MAX_BLOCKS && !IsHeader(g) ==>
              HeadersBelow(g) > 0 && (g - INODE_MAX_BLOCKS) / INDIRECT_MAX_BLOCKS == HeadersBelow(g) - 1
  {
  }

  /** One slot of the walk is what the declarative reading says that slot is. */
  lemma SlotStepMeaning(v: Volume, sb: SuperBlock, node: Inode, g: nat, next: BlockInfo, indirect: Option<Segment>)
    requires g >= 1 && StateAt(v, sb, node, g, next, indirect)
    requires Payload(v, sb, node, g).Some?
    ensures var here := Payload(v, sb, node, g).value;
      match SlotStep(v, sb, node, g, next, indirect)
      case Unusable => Payload(v, sb, node, g + 1) == None
      case Loaded(segment) =>
        && IsHeader(g) && Payload(v, sb, node, g + 1) == Some(here)
        && StateAt(v, sb, node, g + 1, segment.nextSegment, Some(segment))
      case Data(block) =>
        && !IsHeader(g) && Payload(v, sb, node, g + 1) == Some(here + [block])
        && Slot(v, sb, node, g) == Some(block)
        && Length(sb, here + [block]) == Length(sb, here) + BlockBytes(sb, block)
        && StateAt(v, sb, node, g + 1, next, indirect)
  {
    hide SegmentAt, BlockBytes;
    HeaderArithmetic(g);
    if IsHeader(g) {
      assert Chain(v, sb, node, HeadersBelow(g)) == SegmentAt(v, sb, next);
    } else {
      var block := CurrentBlock(node, indirect, g);
      assert Slot(v, sb, node, g) == Some(block);
      LengthAppend(sb, Payload(v, sb, node, g).value, block);
    }
  }

  /** From slot `g` on, the recursive walk finds the first stopping slot, or there is none. */
  lemma {:induction false} WalkFromMeaning(v: Volume, sb: SuperBlock, node: Inode, g: nat, next: BlockInfo,
                                           indirect: Option<Segment>, limit: nat)
    requires g >= 1 && (g == 1 || g - 1 < node.numberData)
    requires Payload(v, sb, node, g).Some? && Length(sb, Payload(v, sb, node, g).value) <= U64_MAX
    requires forall h :: 1 <= h < g && Payload(v, sb, node, h).Some? ==>
      Length(sb, Payload(v, sb, node, h).value) < limit
    requires StateAt(v, sb, node, g, next, indirect)
    ensures var here := Payload(v, sb, node, g).value;
      match WalkFrom(v, sb, node, g, next, indirect, Length(sb, here), limit)
      case Walked(bs, n) =>
        exists s :: StopsAt(v, sb, node, limit, s) && n == HeadersBelow(s) - HeadersBelow(g)
                    && Payload(v, sb, node, s).value == here + bs
      case Broken => forall s :: !StopsAt(v, sb, node, limit, s)
    decreases node.numberData - g
  {
    hide BlockBytes, SlotStep, Payload, StateAt, HeadersBelow, Length;
    var here := Payload(v, sb, node, g).value;
    var logical := Length(sb, here);
    if g >= node.numberData || logical >= limit {
      assert StopsAt(v, sb, node, limit, g) && here == here + [];
    } else {
      HeaderArithmetic(g);
      NoEarlierStop(v, sb, node, limit, g);
      SlotStepMeaning(v, sb, node, g, next, indirect);
      match SlotStep(v, sb, node, g, next, indirect)
      case Unusable =>
        BrokenHere(v, sb, node, limit, g);
      case Loaded(segment) =>
        WalkFromMeaning(v, sb, node, g + 1, segment.nextSegment, Some(segment), limit);
        var rest := WalkFrom(v, sb, node, g + 1, segment.nextSegment, Some(segment), logical, limit);
        if rest.Walked? {
          assert [] + rest.blocks == rest.blocks;
        }
      case Data(block) =>
        if logical + BlockBytes(sb, block) > U64_MAX {
          BrokenHere(v, sb, node, limit, g);
        } else {
          WalkFromMeaning(v, sb, node, g + 1, next, indirect, limit);
          var rest := WalkFrom(v, sb, node, g + 1, next, indirect, logical + BlockBytes(sb, block), limit);
          if rest.Walked? {
            assert here + [block] + rest.blocks == here + ([block] + rest.blocks);
          }
        }
    }
  }

  lemma {:induction false} NoEarlierStop(v: Volume, sb: SuperBlock, node: Inode, limit: nat, g: nat)
    requires g >= 1 && g < node.numberData
    requires Payload(v, sb, node, g).Some? && Length(sb, Payload(v, sb, node, g).value) < limit
    ensures forall s: nat :: StopsAt(v, sb, node, limit, s) ==> s > g
  {
    forall s | 1 <= s <= g ensures !StopsAt(v, sb, node, limit, s) {
      PayloadPrefix(v, sb, node, s, g);
    }
  }

  lemma BrokenHere(v: Volume, sb: SuperBlock, node: Inode, limit: nat, g: nat)
    requires forall s: nat :: StopsAt(v, sb, node, limit, s) ==> s > g
    requires Payload(v, sb, node, g + 1).None? || Length(sb, Payload(v, sb, node, g + 1).value) > U64_MAX
    ensures forall s :: !StopsAt(v, sb, node, limit, s)
  {
    hide Payload, Length;
    forall s | s > g ensures !StopsAt(v, sb, node, limit, s) {
      if Payload(v, sb, node, s).Some? {
        PayloadPrefix(v, sb, node, g + 1, s);
      }
    }
  }

  /**
   * The slot-by-slot walk, read declaratively: it succeeds exactly when a stopping slot exists, and
   * then it visits the payload descriptors below that slot, using one SEGI record per 123 slots.
   */
  lemma {:induction false} WalkMeaning(v: Volume, sb: SuperBlock, node: Inode, limit: nat)
    ensures var w := WalkTo(v, sb, node, limit);
      && (w.Walked? <==> exists g :: StopsAt(v, sb, node, limit, g))
      && forall g :: StopsAt(v, sb, node, limit, g) ==>
           w == Walked(Payload(v, sb, node, g).value, HeadersBelow(g))
  {
    assert Payload(v, sb, node, 1) == Some([]);
    WalkFromMeaning(v, sb, node, 1, node.nextSegment, None, limit);
    var w := WalkTo(v, sb, node, limit);
    if w.Walked? {
      var s :| StopsAt(v, sb, node, limit, s) && w.segments == HeadersBelow(s)
               && Payload(v, sb, node, s).value == [] + w.blocks;
      assert [] + w.blocks == w.blocks;
      forall g | StopsAt(v, sb, node, limit, g) ensures g == s {
      }
    }
  }

  // ---- when a read succeeds ----

  /** Every sector of the blocks that the range overlaps can be read, and the blocks reach its end. */
  ghost predicate RangeReadable(v: Volume, sb: SuperBlock, bs: seq<BlockInfo>, offset: nat, len: nat) {
    var sectors := Flatten(bs, SectorsPerZone(sb.zoneSize));
    && offset + len <= |sectors| * SECTOR
    && forall p :: offset <= p < offset + len ==> DataOk(v, sb, sectors[p / SECTOR])
  }

  lemma {:induction false} CoveredIsReadable(v: Volume, sb: SuperBlock, bs: seq<BlockInfo>, offset: nat, len: nat)
    ensures CoveredOk(v, sb, Flatten(bs, SectorsPerZone(sb.zoneSize)), offset, len)
       <==> RangeReadable(v, sb, bs, offset, len)
  {
    hide DataOk, Flatten;
    var sectors := Flatten(bs, SectorsPerZone(sb.zoneSize));
    if CoveredOk(v, sb, sectors, offset, len) {
      forall p | offset <= p < offset + len ensures DataOk(v, sb, sectors[p / SECTOR]) {
        assert Covers(p / SECTOR, offset, len);
      }
    }
    if RangeReadable(v, sb, bs, offset, len) {
      forall s | 0 <= s < |sectors| && Covers(s, offset, len) ensures DataOk(v, sb, sectors[s]) {
        var p := if s * SECTOR < offset then offset else s * SECTOR;
        assert offset <= p < offset + len && p / SECTOR == s;
      }
    }
  }

  /**
   * With `g` the first slot a non-empty read inside the file does not need: it succeeds exactly when
   * every byte of the range lies in a readable sector and no more SEGI records are used below `g`
   * than the inode declares, where declaring none leaves them uncounted.
   */
  lemma {:induction false} ReadSucceedsIff(v: Volume, sb: SuperBlock, node: Inode, offset: nat, len: nat, g: nat)
    requires len > 0 && offset + len <= node.size && StopsAt(v, sb, node, offset + len, g)
    ensures ReadOk(v, sb, node, offset, len)
       <==> RangeReadable(v, sb, Payload(v, sb, node, g).value, offset, len)
            && (node.numberSegdesg == 0 || HeadersBelow(g) <= node.numberSegdesg)
  {
    hide StopsAt, Payload, CoveredOk, RangeReadable;
    WalkMeaning(v, sb, node, offset + len);
    assert Payload(v, sb, node, g).Some? by {
      StopIsUsable(v, sb, node, offset + len, g);
    }
    CoveredIsReadable(v, sb, Payload(v, sb, node, g).value, offset, len);
  }

  lemma {:induction false} StopIsUsable(v: Volume, sb: SuperBlock, node: Inode, limit: nat, g: nat)
    requires StopsAt(v, sb, node, limit, g)
    ensures Payload(v, sb, node, g).Some?
  {
  }

  /** Without such a slot no read succeeds. */
  lemma ReadNeedsStop(v: Volume, sb: SuperBlock, node: Inode, offset: nat, len: nat)
    requires len > 0 && ReadOk(v, sb, node, offset, len)
    ensures var limit := offset + len; limit <= node.size && exists g :: StopsAt(v, sb, node, limit, g)
  {
    hide StopsAt;
    WalkMeaning(v, sb, node, offset + len);
  }

  /** A walk for `limit` bytes stops by the end of the declared slots. */
  ghost predicate StopsWithin(v: Volume, sb: SuperBlock, node: Inode, limit: nat) {
    exists g: nat :: StopsAt(v, sb, node, limit, g) && g <= node.numberData
  }

  /** The slots below `g` describe fewer than `limit` bytes. */
  ghost predicate StillShort(v: Volume, sb: SuperBlock, node: Inode, limit: nat, g: nat) {
    forall h :: 1 <= h < g && Payload(v, sb, node, h).Some? ==> Length(sb, Payload(v, sb, node, h).value) < limit
  }

  lemma {:induction false} StopFrom(v: Volume, sb: SuperBlock, node: Inode, limit: nat, g: nat)
    requires 1 <= g <= node.numberData && Payload(v, sb, node, node.numberData).Some?
    requires Length(sb, Payload(v, sb, node, node.numberData).value) <= U64_MAX
    requires StillShort(v, sb, node, limit, g)
    ensures StopsWithin(v, sb, node, limit)
    decreases node.numberData - g
  {
    hide Payload, Length;
    PayloadPrefix(v, sb, node, g, node.numberData);
    if g < node.numberData && Length(sb, Payload(v, sb, node, g).value) < limit {
      StopFrom(v, sb, node, limit, g + 1);
    } else {
      assert StopsAt(v, sb, node, limit, g);
    }
  }

  /** The declared slots describe at least the file's size, in readable sectors, with the SEGI records they use. */
  ghost predicate WellDescribed(v: Volume, sb: SuperBlock, node: Inode) {
    var bs := Payload(v, sb, node, node.numberData);
    && node.numberData >= 1 && bs.Some?
    && node.size <= Length(sb, bs.value) <= U64_MAX
    && (forall a :: a in Flatten(bs.value, SectorsPerZone(sb.zoneSize)) ==> DataOk(v, sb, a))
    && node.numberSegdesg == HeadersBelow(node.numberData)
  }

  /** Such a file can be read over every range inside its size. */
  lemma WellDescribedReads(v: Volume, sb: SuperBlock, node: Inode, offset: nat, len: nat)
    requires WholeSectors(sb.zoneSize) && WellDescribed(v, sb, node) && offset + len <= node.size
    ensures ReadOk(v, sb, node, offset, len)
  {
    hide DataOk, Flatten, Payload;
    if len > 0 {
      var all := Payload(v, sb, node, node.numberData).value;
      StopFrom(v, sb, node, offset + len, 1);
      var g: nat :| StopsAt(v, sb, node, offset + len, g) && g <= node.numberData;
      PayloadPrefix(v, sb, node, g, node.numberData);
      var bs := Payload(v, sb, node, g).value;
      assert all == bs + all[|bs|..];
      FlattenConcat(bs, all[|bs|..], SectorsPerZone(sb.zoneSize));
      FlattenLength(sb, bs);
      ReadSucceedsIff(v, sb, node, offset, len, g);
    }
  }

  /** Where the `k`-th SEGI record of a file is said to be. */
  function SegiLocation(v: Volume, sb: SuperBlock, node: Inode, k: nat): Option<BlockInfo> {
    if k == 0 then Some(node.nextSegment)
    else
      match Chain(v, sb, node, k - 1)
      case None => None
      case Some(s) => Some(s.nextSegment)
  }

  /**
   * Slot `g` is reached by a read of [offset, limit) and needs extent `s`: for the SEGI record that
   * starts there, or for data that is not all before `offset`.
   */
  ghost predicate Needs(v: Volume, sb: SuperBlock, node: Inode, offset: nat, limit: nat, g: nat, s: nat) {
    && 1 <= g < node.numberData && s <= sb.numSubs
    && Payload(v, sb, node, g).Some? && Length(sb, Payload(v, sb, node, g).value) < limit
    && (if IsHeader(g) then
          match SegiLocation(v, sb, node, HeadersBelow(g)) case None => false case Some(at) => at.subpart == s
        else
          match Slot(v, sb, node, g)
          case None => false
          case Some(block) =>
            block.subpart == s && Length(sb, Payload(v, sb, node, g).value) + BlockBytes(sb, block) > offset)
  }

  lemma {:induction false} TouchedFromMeaning(v: Volume, sb: SuperBlock, node: Inode, g: nat, next: BlockInfo,
                                              indirect: Option<Segment>, offset: nat, limit: nat, s: nat)
    requires g >= 1 && Payload(v, sb, node, g).Some? && StateAt(v, sb, node, g, next, indirect)
    requires s in TouchedFrom(v, sb, node, g, next, indirect, Length(sb, Payload(v, sb, node, g).value), offset, limit)
    ensures exists h :: Needs(v, sb, node, offset, limit, h, s)
    decreases node.numberData - g
  {
    hide BlockBytes, SlotStep, Payload, HeadersBelow, Length, Slot, Chain, IsHeader;
    var here := Payload(v, sb, node, g).value;
    SlotStepMeaning(v, sb, node, g, next, indirect);
    if Needs(v, sb, node, offset, limit, g, s) {
      return;
    }
    match SlotStep(v, sb, node, g, next, indirect)
    case Unusable =>
    case Loaded(segment) =>
      TouchedFromMeaning(v, sb, node, g + 1, segment.nextSegment, Some(segment), offset, limit, s);
    case Data(block) =>
      TouchedFromMeaning(v, sb, node, g + 1, next, indirect, offset, limit, s);
  }

  /** A read touches only joined extents that some slot it reaches needs. */
  lemma TouchedMeaning(v: Volume, sb: SuperBlock, node: Inode, offset: nat, limit: nat, s: nat)
    requires s in Touched(v, sb, node, offset, limit)
    ensures s <= sb.numSubs && exists g :: Needs(v, sb, node, offset, limit, g, s)
  {
    hide TouchedFrom, Slot;
    assert Payload(v, sb, node, 1) == Some([]);
    TouchedFromMeaning(v, sb, node, 1, node.nextSegment, None, offset, limit, s);
    var g :| Needs(v, sb, node, offset, limit, g, s);
  }

  /** So no read leaves the extents the filesystem has joined. */
  lemma TouchedIsJoined(v: Volume, sb: SuperBlock, node: Inode, offset: nat, limit: nat)
    ensures Touched(v, sb, node, offset, limit) <= FirstSubs(sb.numSubs + 1)
  {
    hide Touched, Needs, FirstSubs;
    forall s | s in Touched(v, sb, node, offset, limit) ensures s in FirstSubs(sb.numSubs + 1) {
      TouchedMeaning(v, sb, node, offset, limit, s);
    }
  }

  /** Whatever the chain does, even if it is a cycle, a walk is bounded by the declared slot count. */
  lemma WalkBounded(v: Volume, sb: SuperBlock, node: Inode, limit: nat)
    requires WalkTo(v, sb, node, limit).Walked?
    ensures var w := WalkTo(v, sb, node, limit);
      && |w.blocks| + w.segments <= (if node.numberData == 0 then 0 else node.numberData - 1)
      && w.segments <= HeadersBelow(node.numberData)
      && (node.numberData <= INODE_MAX_BLOCKS ==> w.segments == 0)
  {
    WalkMeaning(v, sb, node, limit);
    var g :| StopsAt(v, sb, node, limit, g);
    PayloadCount(v, sb, node, g);
  }

  lemma {:induction false} PayloadCount(v: Volume, sb: SuperBlock, node: Inode, g: nat)
    requires g >= 1 && Payload(v, sb, node, g).Some?
    ensures |Payload(v, sb, node, g).value| + HeadersBelow(g) == g - 1
  {
    if g > 1 {
      PayloadCount(v, sb, node, g - 1);
      HeaderArithmetic(g - 1);
    }
  }
}

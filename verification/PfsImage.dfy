/**
 * Whole images: any content, cut into descriptors in any way, laid out with its inode, its SEGI
 * chain and a superblock, is what a reader of the volume delivers.
 */
module PfsImage {
  import opened Bytes
  import opened Disk
  import opened ApaVolume
  import opened PfsFormat
  import opened PfsStream
  import opened PfsReader
  import opened PfsDirectory
  import opened Records
  import opened PfsLayout

  /** A file's mode and content, the zones each of its descriptors covers, and the zone size. */
  datatype Plan = Plan(zone: U32, mode: U16, counts: seq<U16>, content: seq<Byte>) {

    /** Sectors in a zone. */
    function Spz(): nat {
      zone / 512
    }

    /** The zone that starts at sector 8192. The inode follows, then the SEGI records, then the data. */
    function SuperZone(): nat {
      if zone == 2048 then 2048
      else if zone == 4096 then 1024
      else if zone == 8192 then 512
      else if zone == 16384 then 256
      else if zone == 32768 then 128
      else if zone == 65536 then 64
      else 32
    }

    function Segments(): nat {
      if |counts| <= 113 then 0 else (|counts| - 113 + 121) / 122
    }

    function DataZone(): nat {
      SuperZone() + 2 + Segments()
    }

    function Zones(): nat {
      DataZone() + Total(counts)
    }

    /** The first sector of the data. */
    function DataStart(): nat {
      DataZone() * Spz()
    }

    /** One slot for the inode itself, one for each descriptor and one for each SEGI record. */
    function NumberData(): nat {
      1 + |counts| + Segments()
    }
  }

  /** The sectors of `n` zones. */
  function SectorsOf(p: Plan, n: nat): nat {
    n * p.Spz()
  }

  function Total(counts: seq<U16>): nat {
    if counts == [] then 0 else Total(counts[..|counts| - 1]) + counts[|counts| - 1]
  }

  /** The zones hold the content, every descriptor covers some, and sector numbers fit 32 bits. */
  ghost predicate Feasible(p: Plan) {
    && p.zone in {2048, 4096, 8192, 16384, 32768, 65536, 131072}
    && (forall k :: 0 <= k < |p.counts| ==> p.counts[k] > 0)
    && |p.content| <= Total(p.counts) * p.zone
    && p.Zones() * p.Spz() <= 0xFFFF_FFFF
  }

  // ---- the arithmetic of slots ----

  /** How many descriptors lie in the slots before `g`. */
  function DescriptorsBelow(g: nat): nat
    requires g >= 1
  {
    g - 1 - HeadersBelow(g)
  }

  lemma SlotCounts(p: Plan)
    ensures HeadersBelow(p.NumberData()) == p.Segments() && DescriptorsBelow(p.NumberData()) == |p.counts|
  {
  }

  lemma {:induction false} DescriptorsMonotone(g: nat, h: nat)
    requires 1 <= g <= h
    ensures DescriptorsBelow(g) <= DescriptorsBelow(h) && HeadersBelow(g) <= HeadersBelow(h)
    decreases h - g
  {
    hide HeadersBelow;
    if g < h {
      HeaderArithmetic(h - 1);
      DescriptorsMonotone(g, h - 1);
    }
  }

  // ---- the records ----

  /** The `k`-th descriptor covers the zones after those of the descriptors before it. */
  function Descriptor(p: Plan, k: nat): BlockInfo
    requires Feasible(p) && k < |p.counts|
  {
    TotalSplits(p.counts, k);
    SmallNumbers(p);
    BlockInfo(p.DataZone() + Total(p.counts[..k]), 0, p.counts[k])
  }

  lemma {:induction false} TotalSplits(counts: seq<U16>, k: nat)
    requires k <= |counts|
    ensures Total(counts[..k]) <= Total(counts)
    ensures k < |counts| ==> Total(counts[..k + 1]) == Total(counts[..k]) + counts[k]
  {
    if k < |counts| {
      assert counts[..k + 1][..k] == counts[..k];
      if k < |counts| - 1 {
        var front := counts[..|counts| - 1];
        TotalSplits(front, k);
        assert front[..k] == counts[..k];
      } else {
        assert counts[..k + 1] == counts;
      }
    } else {
      assert counts[..k] == counts;
    }
  }

  lemma ZoneSectors(p: Plan)
    requires Feasible(p)
    ensures 4 <= p.Spz() <= 256 && p.zone == p.Spz() * 512 && p.SuperZone() * p.Spz() == 8192
  {
    hide Total;
  }

  lemma SmallNumbers(p: Plan)
    requires Feasible(p)
    ensures p.Zones() <= 0x3FFF_FFFF
  {
    hide Total;
    ZoneSectors(p);
    var n, z := p.Zones(), p.Spz();
    assert n * z >= n * 4;
  }

  function NoBlock(): BlockInfo {
    BlockInfo(0, 0, 0)
  }

  function RecordBlock(p: Plan, zone: nat): BlockInfo
    requires Feasible(p) && zone < p.Zones()
  {
    SmallNumbers(p);
    BlockInfo(zone, 0, 1)
  }

  /** What slot `g` describes. */
  function SlotBlock(p: Plan, g: nat): BlockInfo
    requires Feasible(p) && g >= 1
  {
    if DescriptorsBelow(g) < |p.counts| then Descriptor(p, DescriptorsBelow(g)) else NoBlock()
  }

  /** The slots of a record from global slot `first` on; the record's own slot 0 describes the record. */
  function Slots(p: Plan, self: BlockInfo, first: nat, n: nat): (r: seq<BlockInfo>)
    requires Feasible(p)
    ensures |r| == n && forall i :: 1 <= i < n ==> r[i] == SlotBlock(p, first + i)
  {
    seq(n, (i: nat) requires i < n => if i == 0 then self else SlotBlock(p, first + i))
  }

  /** The `k`-th record of the SEGI chain. */
  function SegiOf(p: Plan, k: nat): Segi
    requires Feasible(p) && k < p.Segments()
  {
    var self := RecordBlock(p, p.SuperZone() + 2 + k);
    var next := if k + 1 < p.Segments() then RecordBlock(p, p.SuperZone() + 3 + k) else NoBlock();
    RawSegi(self, next, NoBlock(), NoBlock(), Slots(p, self, 114 + 123 * k, 123))
  }

  function SegdOf(p: Plan): Segd
    requires Feasible(p)
  {
    SmallNumbers(p);
    DescriptorTotal(p.counts);
    ContentFits(p);
    var self := RecordBlock(p, p.SuperZone() + 1);
    var next := if p.Segments() > 0 then RecordBlock(p, p.SuperZone() + 2) else NoBlock();
    RawSegd(self, next, NoBlock(), NoBlock(), Slots(p, self, 0, 114), p.mode, 0, 0, 0, 1, 2, 3, |p.content|,
            Total(p.counts), p.NumberData(), p.Segments(), 0)
  }

  lemma {:induction false} DescriptorTotal(counts: seq<U16>)
    requires forall k :: 0 <= k < |counts| ==> counts[k] > 0
    ensures |counts| <= Total(counts)
  {
    if counts != [] {
      DescriptorTotal(counts[..|counts| - 1]);
    }
  }

  lemma ContentFits(p: Plan)
    requires Feasible(p)
    ensures |p.content| <= U64_MAX
  {
    hide Total;
    SmallNumbers(p);
    var n, z: nat := Total(p.counts), p.zone;
    assert n * z <= n * 131072;
  }

  function SuperOf(p: Plan): Super
    requires Feasible(p)
  {
    var root := RecordBlock(p, p.SuperZone() + 1);
    Super(0x50465300, 3, 0, 0, p.zone, 0, NoBlock(), root)
  }

  // ---- the image ----

  /** Byte `r` of a zone before the data. */
  function RecordByte(p: Plan, i: nat, r: nat): Byte
    requires Feasible(p) && i < p.DataZone()
  {
    if i == p.SuperZone() then (if r < 512 then EncodeSuper(SuperOf(p))[r] else 0)
    else if i == p.SuperZone() + 1 then (if r < 1024 then EncodeSegd(SegdOf(p))[r] else 0)
    else if p.SuperZone() + 2 <= i then (if r < 1024 then EncodeSegi(SegiOf(p, i - p.SuperZone() - 2))[r] else 0)
    else 0
  }

  function ImageByte(p: Plan, q: nat): Byte
    requires Feasible(p)
  {
    if q / p.zone < p.DataZone() then RecordByte(p, q / p.zone, q % p.zone)
    else if p.DataZone() * p.zone <= q < p.DataZone() * p.zone + |p.content| then
      p.content[q - p.DataZone() * p.zone]
    else 0
  }

  function Image(p: Plan): (r: seq<Byte>)
    requires Feasible(p)
    ensures |r| == p.Zones() * p.zone && forall q :: 0 <= q < |r| ==> r[q] == ImageByte(p, q)
  {
    seq(p.Zones() * p.zone, (q: nat) => ImageByte(p, q))
  }

  function VolumeOf(p: Plan): Volume
    requires Feasible(p)
  {
    Volume(Disk(Image(p), {}), [Extent(0, p.Zones() * p.Spz())])
  }

  function SuperBlockOf(p: Plan): SuperBlock
    requires Feasible(p)
  {
    SuperBlock(0x50465300, 3, p.zone, 0, NoBlock(), RecordBlock(p, p.SuperZone() + 1))
  }

  // ---- the records are where they are looked for ----

  lemma InZone(i: nat, z: nat, r: nat)
    requires z > 0 && r < z
    ensures (i * z + r) / z == i && (i * z + r) % z == r
  {
    var n := i * z + r;
    var q, rest := n / z, n % z;
    assert n == q * z + rest && 0 <= rest < z;
    assert q > i ==> q * z >= (i + 1) * z;
    assert q < i ==> i * z >= (q + 1) * z;
    assert (i + 1) * z == i * z + z && (q + 1) * z == q * z + z;
  }

  lemma ZoneEnds(i: nat, n: nat, z: nat)
    requires i < n
    ensures (i + 1) * z <= n * z
  {
  }

  lemma Scaled(i: nat, n: nat, z: nat)
    ensures i < n ==> i * z + z <= n * z
  {
    if i < n {
      ZoneEnds(i, n, z);
    }
  }

  lemma ZoneByte(p: Plan, i: nat, r: nat)
    requires Feasible(p) && i < p.DataZone() && r < p.zone
    ensures i * p.zone + r < |Image(p)| && Image(p)[i * p.zone + r] == RecordByte(p, i, r)
  {
    hide RecordByte, Total;
    InZone(i, p.zone, r);
    ZoneEnds(i, p.Zones(), p.zone);
  }

  /** Bytes put at the start of zone `i` are held from that zone's first sector on. */
  lemma ZoneHeld(p: Plan, i: nat, bytes: seq<Byte>)
    requires Feasible(p) && i < p.DataZone() && |bytes| in {512, 1024}
    requires forall r :: 0 <= r < |bytes| ==> RecordByte(p, i, r) == bytes[r]
    ensures Holds(VolumeOf(p), 0, i * p.Spz(), bytes)
  {
    hide RecordByte, ImageByte, Total;
    ZoneSectors(p);
    ZoneEnds(i, p.Zones(), p.Spz());
    ZoneEnds(i, p.Zones(), p.zone);
    var at := i * p.zone;
    assert i * p.Spz() * 512 == at;
    forall r | 0 <= r < |bytes| ensures Image(p)[at..at + |bytes|][r] == bytes[r] {
      ZoneByte(p, i, r);
    }
    assert Image(p)[at..at + |bytes|] == bytes;
  }

  lemma SuperHeld(p: Plan)
    requires Feasible(p)
    ensures Holds(VolumeOf(p), 0, 8192, EncodeSuper(SuperOf(p)))
  {
    hide EncodeSuper, SuperOf, Total, Holds;
    ZoneSectors(p);
    ZoneHeld(p, p.SuperZone(), EncodeSuper(SuperOf(p)));
  }

  lemma SegdHeld(p: Plan)
    requires Feasible(p)
    ensures Holds(VolumeOf(p), 0, (p.SuperZone() + 1) * p.Spz(), EncodeSegd(SegdOf(p)))
  {
    hide EncodeSegd, SegdOf, Total, Holds;
    ZoneHeld(p, p.SuperZone() + 1, EncodeSegd(SegdOf(p)));
  }

  lemma SegiHeld(p: Plan, k: nat)
    requires Feasible(p) && k < p.Segments()
    ensures Holds(VolumeOf(p), 0, (p.SuperZone() + 2 + k) * p.Spz(), EncodeSegi(SegiOf(p, k)))
  {
    hide EncodeSegi, SegiOf, Total, Holds;
    ZoneHeld(p, p.SuperZone() + 2 + k, EncodeSegi(SegiOf(p, k)));
  }

  /** The partition mounts with the superblock laid out. */
  lemma Mounts(p: Plan)
    requires Feasible(p)
    ensures ProbeAt(VolumeOf(p), 0x0100, false) == Some(SuperBlockOf(p))
  {
    hide EncodeSuper, Holds, ProbeAt, Total;
    SuperHeld(p);
    SuperOnVolume(VolumeOf(p), 0x0100, false, SuperOf(p));
  }

  lemma ZoneAddressed(p: Plan, zone: nat, bytes: seq<Byte>)
    requires Feasible(p) && zone < p.Zones() && |bytes| == 1024
    requires Holds(VolumeOf(p), 0, zone * p.Spz(), bytes)
    ensures Addressed(VolumeOf(p), SuperBlockOf(p), RecordBlock(p, zone), bytes)
  {
    hide Holds, Total;
    ZoneEnds(zone, p.Zones(), p.Spz());
  }

  function NodeOf(p: Plan): Inode
    requires Feasible(p)
  {
    InodeOf(SegdOf(p))
  }

  /** The file's inode is at its place. */
  lemma InodeThere(p: Plan)
    requires Feasible(p)
    ensures var loc := SuperBlockOf(p).root;
      InodeAt(VolumeOf(p), SuperBlockOf(p), loc) == Some(Node(loc, NodeOf(p)))
  {
    hide Holds, Addressed, EncodeSegd, InodeAt, Total, InodeOf, Slots;
    SegdHeld(p);
    ZoneAddressed(p, p.SuperZone() + 1, EncodeSegd(SegdOf(p)));
    InodeOnVolume(VolumeOf(p), SuperBlockOf(p), SuperBlockOf(p).root, SegdOf(p));
  }

  lemma SegmentThere(p: Plan, k: nat)
    requires Feasible(p) && k < p.Segments()
    ensures SegmentAt(VolumeOf(p), SuperBlockOf(p), RecordBlock(p, p.SuperZone() + 2 + k))
         == Some(SegmentOf(SegiOf(p, k)))
  {
    hide Holds, Addressed, EncodeSegi, SegmentAt, Total, SegmentOf, SegiOf;
    SegiHeld(p, k);
    ZoneAddressed(p, p.SuperZone() + 2 + k, EncodeSegi(SegiOf(p, k)));
    SegmentOnVolume(VolumeOf(p), SuperBlockOf(p), RecordBlock(p, p.SuperZone() + 2 + k), SegiOf(p, k));
  }

  // ---- the file is described by its descriptors ----

  function Descriptors(p: Plan, k: nat): (r: seq<BlockInfo>)
    requires Feasible(p) && k <= |p.counts|
    ensures |r| == k && forall i :: 0 <= i < k ==> r[i] == Descriptor(p, i)
  {
    seq(k, (i: nat) requires i < k => Descriptor(p, i))
  }

  lemma {:induction false} ChainThere(p: Plan, k: nat)
    requires Feasible(p) && k < p.Segments()
    ensures Chain(VolumeOf(p), SuperBlockOf(p), NodeOf(p), k) == Some(SegmentOf(SegiOf(p, k)))
  {
    hide SegmentAt, Total, Image, Slots, Sum, SuperBlockOf, VolumeOf;
    SegmentThere(p, k);
    if k > 0 {
      ChainThere(p, k - 1);
    }
  }

  /** Below the declared count every slot that is not a record's own holds a descriptor. */
  lemma SlotThere(p: Plan, g: nat)
    requires Feasible(p) && 1 <= g < p.NumberData()
    ensures Slot(VolumeOf(p), SuperBlockOf(p), NodeOf(p), g).Some?
    ensures !IsHeader(g) ==>
      && DescriptorsBelow(g) < |p.counts| && DescriptorsBelow(g + 1) == DescriptorsBelow(g) + 1
      && Slot(VolumeOf(p), SuperBlockOf(p), NodeOf(p), g) == Some(Descriptor(p, DescriptorsBelow(g)))
    ensures IsHeader(g) ==> DescriptorsBelow(g + 1) == DescriptorsBelow(g)
  {
    hide SegmentAt, Total, Image, Sum, SuperBlockOf, VolumeOf, HeadersBelow, Chain, Descriptor, RecordBlock;
    HeaderArithmetic(g);
    SlotCounts(p);
    DescriptorsMonotone(g + 1, p.NumberData());
    if g >= 114 {
      ChainThere(p, (g - 114) / 123);
    }
  }

  lemma {:induction false} PayloadThere(p: Plan, g: nat)
    requires Feasible(p) && 1 <= g <= p.NumberData()
    ensures DescriptorsBelow(g) <= |p.counts|
    ensures Payload(VolumeOf(p), SuperBlockOf(p), NodeOf(p), g) == Some(Descriptors(p, DescriptorsBelow(g)))
  {
    hide SuperBlockOf, VolumeOf, NodeOf, DescriptorsBelow, Slot, IsHeader, Total;
    SlotCounts(p);
    DescriptorsMonotone(g, p.NumberData());
    if g > 1 {
      PayloadThere(p, g - 1);
      SlotThere(p, g - 1);
      if !IsHeader(g - 1) {
        var k := DescriptorsBelow(g - 1);
        assert Descriptors(p, k + 1) == Descriptors(p, k) + [Descriptor(p, k)];
      }
    } else {
      NoneBelow();
    }
  }

  lemma NoneBelow()
    ensures DescriptorsBelow(1) == 0
  {
  }

  /** The sectors of the descriptors, in order, are those of the data zones. */
  lemma {:induction false} MapThere(p: Plan, k: nat)
    requires Feasible(p) && k <= |p.counts|
    ensures var sectors := Flatten(Descriptors(p, k), p.Spz());
      && |sectors| == SectorsOf(p, Total(p.counts[..k]))
      && forall j :: 0 <= j < |sectors| ==> sectors[j] == Addr(0, p.DataStart() + j)
  {
    hide Times, Total, Descriptor;
    if k > 0 {
      var spz, bs, b := p.Spz(), Descriptors(p, k - 1), Descriptor(p, k - 1);
      MapThere(p, k - 1);
      assert Descriptors(p, k) == bs + [b];
      FlattenAppend(bs, b, spz);
      DescriptorPlace(p, k - 1);
      TotalSplits(p.counts, k - 1);
      TimesIsProduct(b.count, spz);
      TimesIsProduct(b.number, spz);
      Distribute(Total(p.counts[..k - 1]), b.count, spz);
      Distribute(p.DataZone(), Total(p.counts[..k - 1]), spz);
    } else {
      NothingTotal(p.counts);
    }
  }

  lemma NothingTotal(counts: seq<U16>)
    ensures Total(counts[..0]) == 0
  {
  }

  lemma DescriptorPlace(p: Plan, k: nat)
    requires Feasible(p) && k < |p.counts|
    ensures Descriptor(p, k).number == p.DataZone() + Total(p.counts[..k]) && Descriptor(p, k).subpart == 0
    ensures Descriptor(p, k).count == p.counts[k]
  {
  }

  lemma Distribute(a: nat, b: nat, c: nat)
    ensures (a + b) * c == a * c + b * c
  {
  }

  /** A sector of the data zones can be read. */
  lemma DataSector(p: Plan, s: nat)
    requires Feasible(p) && s < SectorsOf(p, Total(p.counts))
    ensures DataOk(VolumeOf(p), SuperBlockOf(p), Addr(0, p.DataStart() + s))
  {
    hide Total, ImageByte;
    ZoneSectors(p);
    Distribute(p.DataZone(), Total(p.counts), p.Spz());
    var at := p.DataStart() + s;
    assert (at + 1) * 512 <= p.Zones() * p.Spz() * 512 == p.Zones() * p.zone;
  }

  /** Its bytes are those of the content. */
  lemma DataByte(p: Plan, q: nat)
    requires Feasible(p) && q < |p.content|
    ensures VolumeOf(p).ByteAt(Addr(0, p.DataStart() + q / 512), q % 512) == p.content[q]
  {
    hide Total, ImageByte;
    ZoneSectors(p);
    Distribute(p.DataZone(), Total(p.counts), p.zone);
    var at := p.DataStart() + q / 512;
    assert p.DataZone() * p.zone == p.DataZone() * p.Spz() * 512;
    assert at * 512 + q % 512 == p.DataZone() * p.zone + q;
    ContentByte(p, q);
  }

  lemma ContentByte(p: Plan, q: nat)
    requires Feasible(p) && q < |p.content|
    ensures ImageByte(p, p.DataZone() * p.zone + q) == p.content[q]
  {
    hide Total, RecordByte;
    AtOrAbove(p.DataZone(), p.zone, q);
  }

  lemma AtOrAbove(d: nat, z: nat, q: nat)
    requires z > 0
    ensures (d * z + q) / z >= d
  {
    var n := d * z + q;
    assert n == (n / z) * z + n % z;
    Scaled(n / z, d, z);
  }

  /** Mounting finds the inode, and its slots describe the content in readable sectors. */
  lemma FileThere(p: Plan)
    requires Feasible(p)
    ensures WellDescribed(VolumeOf(p), SuperBlockOf(p), NodeOf(p)) && NodeOf(p).size == |p.content|
    ensures WholeSectors(SuperBlockOf(p).zoneSize)
    ensures Payload(VolumeOf(p), SuperBlockOf(p), NodeOf(p), p.NumberData()) == Some(Descriptors(p, |p.counts|))
  {
    hide VolumeOf, Payload, Flatten, Length, DataOk, Slots, Sum, Descriptors, Total, DescriptorsBelow;
    var n, sb, bs := p.NumberData(), SuperBlockOf(p), Descriptors(p, |p.counts|);
    ZoneSectors(p);
    SlotCounts(p);
    PayloadThere(p, n);
    MapThere(p, |p.counts|);
    assert p.counts[..|p.counts|] == p.counts;
    FlattenLength(sb, bs);
    ContentFits(p);
    forall a | a in Flatten(bs, p.Spz()) ensures DataOk(VolumeOf(p), sb, a) {
      var j :| 0 <= j < |Flatten(bs, p.Spz())| && Flatten(bs, p.Spz())[j] == a;
      DataSector(p, j);
    }
  }

  /** Whatever a read walks over is a stretch of the data zones. */
  lemma SectorsThere(p: Plan, limit: nat)
    requires Feasible(p) && WalkTo(VolumeOf(p), SuperBlockOf(p), NodeOf(p), limit).Walked?
    ensures var sectors := FileSectors(VolumeOf(p), SuperBlockOf(p), NodeOf(p), limit);
      forall j :: 0 <= j < |sectors| ==> sectors[j] == Addr(0, p.DataStart() + j)
  {
    hide VolumeOf, Flatten, Total, Descriptors, WalkFrom, DescriptorsBelow, HeadersBelow, Slots, Sum;
    var v, sb, node := VolumeOf(p), SuperBlockOf(p), NodeOf(p);
    WalkMeaning(v, sb, node, limit);
    var g :| StopsAt(v, sb, node, limit, g);
    PayloadThere(p, g);
    MapThere(p, DescriptorsBelow(g));
  }

  lemma BytesThere(p: Plan, offset: nat, len: nat)
    requires Feasible(p) && offset + len <= |p.content|
    requires ReadOk(VolumeOf(p), SuperBlockOf(p), NodeOf(p), offset, len)
    ensures ReadBytes(VolumeOf(p), SuperBlockOf(p), NodeOf(p), offset, len) == p.content[offset..offset + len]
  {
    hide VolumeOf, NodeOf, SuperBlockOf, WalkTo, FileSectors, Total;
    var v, sb, node := VolumeOf(p), SuperBlockOf(p), NodeOf(p);
    if len > 0 {
      SectorsReach(v, sb, node, offset, len);
      SectorsThere(p, offset + len);
      var sectors := FileSectors(v, sb, node, offset + len);
      forall q | offset <= q < offset + len ensures StreamByte(v, sectors, q) == p.content[q] {
        DataByte(p, q);
      }
    }
  }

  lemma {:induction false} SectorsReach(v: Volume, sb: SuperBlock, node: Inode, offset: nat, len: nat)
    requires len > 0 && ReadOk(v, sb, node, offset, len)
    ensures WalkTo(v, sb, node, offset + len).Walked?
    ensures offset + len <= |FileSectors(v, sb, node, offset + len)| * SECTOR
    ensures ReadBytes(v, sb, node, offset, len)
         == StreamBytes(v, FileSectors(v, sb, node, offset + len), offset, len)
  {
    hide WalkFrom, Flatten;
  }

  /** The image mounts, and its inode is found. */
  lemma ImageMounts(p: Plan)
    requires Feasible(p)
    ensures var v, sb := VolumeOf(p), SuperBlockOf(p);
      && ProbeAt(v, 0x0100, false) == Some(sb)
      && InodeAt(v, sb, sb.root) == Some(Node(sb.root, NodeOf(p))) && NodeOf(p).size == |p.content|
  {
    hide VolumeOf, NodeOf, SuperBlockOf, WellDescribed, Payload, Descriptors, ProbeAt, InodeAt, Feasible;
    Mounts(p);
    InodeThere(p);
    FileThere(p);
  }

  /**
   * Any content, cut into descriptors in any way: every range of the file can be read, and what is
   * read is that range of the content.
   */
  lemma WrittenIsRead(p: Plan, offset: nat, len: nat)
    requires Feasible(p) && offset + len <= |p.content|
    ensures ReadOk(VolumeOf(p), SuperBlockOf(p), NodeOf(p), offset, len)
    ensures ReadBytes(VolumeOf(p), SuperBlockOf(p), NodeOf(p), offset, len) == p.content[offset..offset + len]
  {
    hide VolumeOf, NodeOf, SuperBlockOf, WellDescribed, ReadOk, ReadBytes, Payload, Descriptors, WholeSectors, Feasible;
    FileThere(p);
    WellDescribedReads(VolumeOf(p), SuperBlockOf(p), NodeOf(p), offset, len);
    BytesThere(p, offset, len);
  }

  /**
   * A directory written with any permission bits, in whole sectors of entries, lists those entries,
   * up to 64 MiB; anything else and anything larger does not list.
   */
  lemma {:induction false} WrittenIsListed(p: Plan, sectors: seq<seq<DirEntry>>, dots: bool)
    requires Feasible(p) && (forall es :: es in sectors ==> FitsSector(es)) && p.content == EncodeDirectory(sectors)
    ensures Listing(VolumeOf(p), SuperBlockOf(p), Node(SuperBlockOf(p).root, NodeOf(p)), dots) ==
      if p.mode / 0x1000 == 1 && |p.content| <= 67108864 then Some(Visible(Concat(sectors), dots)) else None
  {
    hide VolumeOf, SuperBlockOf, ReadOk, ReadBytes, Parse, Feasible, FitsSector, EncodeDirectory, Visible, Concat,
      Slots, Sum;
    WrittenIsRead(p, 0, |p.content|);
    assert p.content[0..|p.content|] == p.content;
    ParseInvertsEncode(sectors, dots);
  }

  /** Mounting an image, opening its file and reading it: the buffer is the content. */
  method ReadBack(p: Plan) returns (out: array<Byte>)
    requires Feasible(p)
    ensures out[..] == p.content
  {
    hide Image, NodeOf, SuperBlockOf, ProbeAt, InodeAt, ReadOk, ReadBytes, Confined, Touched, Feasible, Total,
      ValidZoneSize;
    ImageMounts(p);
    WrittenIsRead(p, 0, |p.content|);
    assert p.content[0..|p.content|] == p.content;
    var image := VolumeOf(p);
    var device := new BlockDevice(image.disk, false);
    var volume := new ApaVolume(device, image.extents[0].start, image.extents[0].length, []);
    assert volume.Vol() == image;
    var probe := Probe(volume, TYPE_PFS, false);
    assert volume.Vol() == image;
    var reader := new Reader(volume, probe);
    var node := reader.ReadInode(probe.super.root);
    assert reader.V() == image;
    out := new Byte[|p.content|];
    var ok := reader.Read(node.value.inode, 0, out);
  }
}

/**
 * Directory entries inside the byte stream of a directory: `list_directory` of `src/core/pfs.cpp`,
 * and the encoder its end-to-end tests write directories with.
 */
module PfsDirectory {
  import opened Bytes
  import opened Disk
  import opened ApaVolume
  import opened PfsFormat
  import opened PfsStream
  import opened PfsReader

  const MAX_DIRECTORY_SIZE: nat := 64 * 1024 * 1024

  /** Names are byte strings; every character stands for one byte. */
  datatype DirEntry = DirEntry(name: string, inode: BlockInfo, mode: U16)

  /** One allocated slot of a directory sector, live or free. */
  datatype Dentry = Dentry(at: nat, number: U32, subpart: Byte, name: seq<Byte>, span: nat, mode: U16)

  function Text(raw: seq<Byte>): (s: string)
    ensures |s| == |raw|
  {
    seq(|raw|, (i: nat) requires i < |raw| => raw[i] as char)
  }

  predicate IsByteString(s: string) {
    forall c :: c in s ==> c as int < 0x100
  }

  function ByteOf(c: char): Byte
    requires c as int < 0x100
  {
    c as int
  }

  function Raw(s: string): (r: seq<Byte>)
    requires IsByteString(s)
    ensures |r| == |s|
  {
    seq(|s|, (i: nat) requires i < |s| => assert s[i] in s; ByteOf(s[i]))
  }

  lemma TextOfRaw(s: string)
    requires IsByteString(s)
    ensures Text(Raw(s)) == s
  {
  }

  // ---- parsing ----

  /** The end of the 512-byte sector `at` lies in, cut off at the end of the directory. */
  function SectorEnd(bytes: seq<Byte>, at: nat): (end: nat)
    ensures end <= |bytes|
  {
    Min((at / SECTOR) * SECTOR + SECTOR, |bytes|)
  }

  /** The slot at `at`, unless its lengths are malformed. */
  function DentryAt(bytes: seq<Byte>, at: nat): Option<Dentry>
    requires at + 8 <= SectorEnd(bytes, at)
  {
    var rawLen: nat := Load16(bytes, at + 6);
    var span := rawLen % 0x1000;
    var pathLen: nat := bytes[at + 5];
    if span < 8 || span % 4 != 0 || at + span > SectorEnd(bytes, at) || pathLen > span - 8 then None
    else Some(Dentry(at, Load32(bytes, at), bytes[at + 4], bytes[at + 8..at + 8 + pathLen], span, rawLen - span))
  }

  /** Every slot from `at` on, or nothing when one of them is malformed. */
  function Scan(bytes: seq<Byte>, at: nat): Option<seq<Dentry>>
    decreases |bytes| - at
  {
    if at >= |bytes| then Some([])
    else if at + 8 > SectorEnd(bytes, at) then Scan(bytes, SectorEnd(bytes, at))
    else
      match DentryAt(bytes, at)
      case None => None
      case Some(d) =>
        match Scan(bytes, at + d.span)
        case None => None
        case Some(ds) => Some([d] + ds)
  }

  predicate IsLive(d: Dentry, dots: bool) {
    && d.number != 0 && d.name != []
    && (dots || (Text(d.name) != "." && Text(d.name) != ".."))
  }

  function EntryOf(d: Dentry): DirEntry {
    DirEntry(Text(d.name), BlockInfo(d.number, d.subpart, 1), d.mode)
  }

  /** What is listed: the live slots, in order. */
  function Live(ds: seq<Dentry>, dots: bool): seq<DirEntry> {
    if ds == [] then []
    else (if IsLive(ds[0], dots) then [EntryOf(ds[0])] else []) + Live(ds[1..], dots)
  }

  function Parse(bytes: seq<Byte>, dots: bool): Option<seq<DirEntry>> {
    match Scan(bytes, 0)
    case None => None
    case Some(ds) => Some(Live(ds, dots))
  }

  /** The parse has consumed the slots `seen` and stands at `at`. */
  ghost predicate Consumed(bytes: seq<Byte>, at: nat, seen: seq<Dentry>) {
    && (Scan(bytes, 0).Some? <==> Scan(bytes, at).Some?)
    && (Scan(bytes, 0).Some? ==> Scan(bytes, 0).value == seen + Scan(bytes, at).value)
  }

  lemma ConsumeNothing(bytes: seq<Byte>)
    ensures Consumed(bytes, 0, [])
  {
    hide Scan;
    if Scan(bytes, 0).Some? {
      assert [] + Scan(bytes, 0).value == Scan(bytes, 0).value;
    }
  }

  lemma {:induction false} ConsumeOne(bytes: seq<Byte>, at: nat, seen: seq<Dentry>)
    requires Consumed(bytes, at, seen) && at < |bytes|
    ensures
      if at + 8 > SectorEnd(bytes, at) then Consumed(bytes, SectorEnd(bytes, at), seen)
      else
        match DentryAt(bytes, at)
        case None => Scan(bytes, 0) == None
        case Some(d) => d.span >= 8 && Consumed(bytes, at + d.span, seen + [d])
  {
    hide DentryAt, SectorEnd;
    if at + 8 <= SectorEnd(bytes, at) {
      DentryShape(bytes, at);
      var d := DentryAt(bytes, at);
      if d.Some? && Scan(bytes, at + d.value.span).Some? {
        var rest := Scan(bytes, at + d.value.span).value;
        assert seen + ([d.value] + rest) == (seen + [d.value]) + rest;
      }
    }
  }

  method ParseEntries(bytes: seq<Byte>, dots: bool) returns (r: Option<seq<DirEntry>>)
    ensures r == Parse(bytes, dots)
  {
    hide Consumed, Scan, Live, DentryAt, IsLive, EntryOf;
    var entries: seq<DirEntry> := [];
    var position: nat := 0;
    ghost var seen: seq<Dentry> := [];
    ConsumeNothing(bytes);
    NothingLive(dots);
    while position < |bytes|
      invariant entries == Live(seen, dots) && Consumed(bytes, position, seen)
      decreases |bytes| - position
    {
      var sectorEnd := SectorEnd(bytes, position);
      ConsumeOne(bytes, position, seen);
      if position + 8 > sectorEnd {
        position := sectorEnd;
      } else {
        var d := DentryAt(bytes, position);
        if d.None? {
          return None;
        }
        LiveAppend(seen, [d.value], dots);
        OneLive(d.value, dots);
        if IsLive(d.value, dots) {
          entries := entries + [EntryOf(d.value)];
        }
        position := position + d.value.span;
        seen := seen + [d.value];
      }
    }
    ConsumedAll(bytes, position, seen);
    return Some(entries);
  }

  lemma {:induction false} ConsumedAll(bytes: seq<Byte>, at: nat, seen: seq<Dentry>)
    requires Consumed(bytes, at, seen) && at >= |bytes|
    ensures Scan(bytes, 0) == Some(seen)
  {
    assert Scan(bytes, at) == Some([]) && seen + [] == seen;
  }

  lemma DentryShape(bytes: seq<Byte>, at: nat)
    requires at + 8 <= SectorEnd(bytes, at)
    ensures var d := DentryAt(bytes, at); d.Some? ==>
      && d.value.at == at && d.value.span >= 8 + |d.value.name| && d.value.span % 4 == 0
      && at + d.value.span <= SectorEnd(bytes, at)
  {
  }

  lemma {:induction false} NothingLive(dots: bool)
    ensures Live([], dots) == []
  {
  }

  lemma {:induction false} OneLive(d: Dentry, dots: bool)
    ensures Live([d], dots) == if IsLive(d, dots) then [EntryOf(d)] else []
  {
    hide IsLive, EntryOf;
  }

  lemma {:induction false} LiveAppend(a: seq<Dentry>, b: seq<Dentry>, dots: bool)
    ensures Live(a + b, dots) == Live(a, dots) + Live(b, dots)
  {
    hide IsLive, EntryOf;
    if a == [] {
      assert a + b == b;
    } else {
      LiveAppend(a[1..], b, dots);
      assert (a + b)[1..] == a[1..] + b;
    }
  }

  /** Lists a directory; an error always comes with the empty list. */
  method ListDirectory(reader: Reader, directory: Node, dots: bool) returns (entries: seq<DirEntry>)
    requires reader.Valid()
    modifies reader`failed, reader.volume.device`log
    ensures Confined(reader.V(), Touched(reader.V(), reader.probe.super, directory.inode, 0, directory.inode.size),
                     old(reader.volume.device.log), reader.volume.device.log)
    ensures reader.failed ==> entries == []
    ensures !reader.failed ==>
      reader.probe.valid && Listing(reader.V(), reader.probe.super, directory, dots) == Some(entries)
    ensures !reader.volume.device.flaky && reader.probe.valid ==>
      reader.failed == Listing(reader.V(), reader.probe.super, directory, dots).None?
  {
    reader.failed := false;
    ConfinedReflexive(reader.V(), Touched(reader.V(), reader.probe.super, directory.inode, 0, directory.inode.size),
                      reader.volume.device.log);
    if Kind(directory.inode.mode) != MODE_DIRECTORY {
      reader.failed := true;
      return [];
    }
    if directory.inode.size > MAX_DIRECTORY_SIZE {
      reader.failed := true;
      return [];
    }
    var bytes := new Byte[directory.inode.size];
    ghost var v := reader.V();
    var ok := reader.Read(directory.inode, 0, bytes);
    assert reader.V() == v;
    if !ok {
      return [];
    }
    var parsed := ParseEntries(bytes[..], dots);
    if parsed.None? {
      reader.failed := true;
      return [];
    }
    return parsed.value;
  }

  /** The entries of a directory as a function of the volume. */
  function Listing(v: Volume, sb: SuperBlock, directory: Node, dots: bool): Option<seq<DirEntry>> {
    var inode := directory.inode;
    if Kind(inode.mode) != MODE_DIRECTORY || inode.size > MAX_DIRECTORY_SIZE || !ReadOk(v, sb, inode, 0, inode.size)
    then None
    else Parse(ReadBytes(v, sb, inode, 0, inode.size), dots)
  }

  // ---- what holds of arbitrary bytes ----

  /** The slots from `at` on lie inside single sectors, do not overlap, and stay inside the directory. */
  ghost predicate WellPlaced(bytes: seq<Byte>, at: nat, ds: seq<Dentry>) {
    && (forall k :: 0 <= k < |ds| ==> at <= ds[k].at && ds[k].span >= 8 + |ds[k].name|)
    && (forall k :: 0 <= k < |ds| ==> ds[k].at + ds[k].span <= SectorEnd(bytes, ds[k].at))
    && (forall j, k :: 0 <= j < k < |ds| ==> ds[j].at + ds[j].span <= ds[k].at)
  }

  lemma {:induction false} ScanWellPlaced(bytes: seq<Byte>, at: nat)
    requires Scan(bytes, at).Some?
    ensures WellPlaced(bytes, at, Scan(bytes, at).value)
    decreases |bytes| - at
  {
    hide DentryAt;
    if at >= |bytes| {
    } else if at + 8 > SectorEnd(bytes, at) {
      ScanWellPlaced(bytes, SectorEnd(bytes, at));
    } else {
      DentryShape(bytes, at);
      var d := DentryAt(bytes, at).value;
      ScanWellPlaced(bytes, at + d.span);
    }
  }

  /** Twelve bytes of directory hold at most one listed entry. */
  lemma {:induction false} ListedBound(bytes: seq<Byte>, at: nat, dots: bool)
    requires at <= |bytes| && Scan(bytes, at).Some?
    ensures 12 * |Live(Scan(bytes, at).value, dots)| <= |bytes| - at
    decreases |bytes| - at
  {
    hide DentryAt;
    if at >= |bytes| {
    } else if at + 8 > SectorEnd(bytes, at) {
      ListedBound(bytes, SectorEnd(bytes, at), dots);
    } else {
      DentryShape(bytes, at);
      var d := DentryAt(bytes, at).value;
      ListedBound(bytes, at + d.span, dots);
      var rest := Scan(bytes, at + d.span).value;
      assert ([d] + rest)[1..] == rest;
    }
  }

  // ---- the encoder ----

  function Zeros(n: nat): (r: seq<Byte>)
    ensures |r| == n
  {
    seq(n, _ => 0)
  }

  /** 8 bytes of header and the name, rounded up to a multiple of four. */
  function AllocatedSize(name: string): nat {
    (8 + |name| + 3) / 4 * 4
  }

  predicate Encodable(e: DirEntry) {
    && 0 < |e.name| < 0x100 && IsByteString(e.name)
    && e.inode.number != 0 && e.inode.subpart < 0x100 && e.inode.count == 1
    && e.mode % 0x1000 == 0
  }

  function EncodeEntry(e: DirEntry): (r: seq<Byte>)
    requires Encodable(e)
    ensures |r| == AllocatedSize(e.name)
  {
    Store32(e.inode.number) + [e.inode.subpart, |e.name|] + Store16(e.mode + AllocatedSize(e.name))
    + Raw(e.name) + Zeros(AllocatedSize(e.name) - 8 - |e.name|)
  }

  function EncodeEntries(es: seq<DirEntry>): seq<Byte>
    requires forall e :: e in es ==> Encodable(e)
  {
    if es == [] then [] else EncodeEntry(es[0]) + EncodeEntries(es[1..])
  }

  /** The free slot that closes a sector. */
  function Filler(n: nat): (r: seq<Byte>)
    requires n == 0 || 8 <= n <= SECTOR
    ensures |r| == n
  {
    if n == 0 then [] else Zeros(6) + Store16(n) + Zeros(n - 8)
  }

  /** The encoder's own checks: the entries fit one sector and leave room for a closing slot. */
  predicate FitsSector(es: seq<DirEntry>) {
    && (forall e :: e in es ==> Encodable(e))
    && |EncodeEntries(es)| <= SECTOR
    && (SECTOR - |EncodeEntries(es)| == 0 || SECTOR - |EncodeEntries(es)| >= 8)
  }

  function EncodeSector(es: seq<DirEntry>): (r: seq<Byte>)
    requires FitsSector(es)
    ensures |r| == SECTOR
  {
    EncodeEntries(es) + Filler(SECTOR - |EncodeEntries(es)|)
  }

  function EncodeDirectory(sectors: seq<seq<DirEntry>>): (r: seq<Byte>)
    requires forall es :: es in sectors ==> FitsSector(es)
    ensures |r| == |sectors| * SECTOR
  {
    if sectors == [] then [] else EncodeSector(sectors[0]) + EncodeDirectory(sectors[1..])
  }

  function Concat(sectors: seq<seq<DirEntry>>): seq<DirEntry> {
    if sectors == [] then [] else sectors[0] + Concat(sectors[1..])
  }

  predicate Shown(e: DirEntry, dots: bool) {
    dots || (e.name != "." && e.name != "..")
  }

  function Visible(es: seq<DirEntry>, dots: bool): seq<DirEntry> {
    if es == [] then []
    else (if Shown(es[0], dots) then [es[0]] else []) + Visible(es[1..], dots)
  }

  lemma EncodedFields(e: DirEntry)
    requires Encodable(e)
    ensures var enc, n := EncodeEntry(e), AllocatedSize(e.name);
      && e.mode % 0x1000 == 0 && 12 <= n <= 268 && n % 4 == 0 && 8 + |e.name| <= n
      && Load32(enc, 0) == e.inode.number && enc[4] == e.inode.subpart && enc[5] == |e.name|
      && Load16(enc, 6) == e.mode + n && enc[8..8 + |e.name|] == Raw(e.name)
  {
    var enc, n := EncodeEntry(e), AllocatedSize(e.name);
    StoreLoad32(e.inode.number);
    StoreLoad16(e.mode + n);
    hide Store32, Store16, Load32, Load16, Raw, Zeros;
    Load32Of(enc, 0);
    assert enc[0..4] == Store32(e.inode.number);
    assert enc[6..8] == Store16(e.mode + n);
    assert enc[8..8 + |e.name|] == Raw(e.name);
  }

  /** Where an encoded entry is found, the parser sees that entry. */
  lemma EncodedDentry(bytes: seq<Byte>, at: nat, e: DirEntry)
    requires Encodable(e)
    requires at + AllocatedSize(e.name) <= SectorEnd(bytes, at)
    requires bytes[at..at + AllocatedSize(e.name)] == EncodeEntry(e)
    ensures AllocatedSize(e.name) >= 8
    ensures DentryAt(bytes, at)
         == Some(Dentry(at, e.inode.number, e.inode.subpart, Raw(e.name), AllocatedSize(e.name), e.mode))
  {
    hide EncodeEntry, Raw, AllocatedSize, Load32, Load16, SectorEnd, Encodable;
    var n := AllocatedSize(e.name);
    var enc := bytes[at..at + n];
    EncodedFields(e);
    Loads(bytes, at, enc);
    SliceOfSlice(bytes, at, n, 8, |e.name|);
  }

  lemma Loads(bytes: seq<Byte>, at: nat, enc: seq<Byte>)
    requires |enc| >= 8 && at + |enc| <= |bytes| && enc == bytes[at..at + |enc|]
    ensures Load32(bytes, at) == Load32(enc, 0) && Load16(bytes, at + 6) == Load16(enc, 6)
    ensures bytes[at + 4] == enc[4] && bytes[at + 5] == enc[5]
  {
    assert forall k :: 0 <= k < |enc| ==> bytes[at + k] == enc[k];
  }

  lemma Load32Of(s: seq<Byte>, at: nat)
    requires at + 4 <= |s|
    ensures Load32(s, at) == Load32(s[at..at + 4], 0)
  {
  }

  lemma StoreLoad16(x: U16)
    ensures Load16(Store16(x), 0) == x
  {
  }

  lemma StoreLoad32(x: U32)
    ensures Load32(Store32(x), 0) == x
  {
    var low, high := x % 0x1_0000, x / 0x1_0000;
    StoreLoad16(low);
    StoreLoad16(high);
    assert Store32(x) == Store16(low) + Store16(high);
    assert Store32(x)[2..4] == Store16(high);
  }

  lemma FillerFields(n: nat)
    requires 8 <= n <= SECTOR
    ensures var enc := Filler(n); Load32(enc, 0) == 0 && enc[4] == 0 && enc[5] == 0 && Load16(enc, 6) == n
  {
    var enc := Filler(n);
    StoreLoad16(n);
    assert enc[6..8] == Store16(n);
  }

  lemma FillerDentry(bytes: seq<Byte>, at: nat, n: nat)
    requires 8 <= n <= SECTOR && n % 4 == 0 && at + n <= SectorEnd(bytes, at)
    requires bytes[at..at + n] == Filler(n)
    ensures DentryAt(bytes, at) == Some(Dentry(at, 0, 0, [], n, 0))
  {
    hide Filler, Load32, Load16;
    FillerFields(n);
    Loads(bytes, at, bytes[at..at + n]);
    assert bytes[at + 8..at + 8] == [];
  }

  lemma {:induction false} EncodedAligned(es: seq<DirEntry>)
    requires forall e :: e in es ==> Encodable(e)
    ensures |EncodeEntries(es)| % 4 == 0
  {
    if es != [] {
      EncodedAligned(es[1..]);
    }
  }

  /** `bytes` holds the entries `es` and a closing slot from `at` to the end of its sector. */
  ghost predicate HoldsTail(bytes: seq<Byte>, at: nat, es: seq<DirEntry>, filler: nat) {
    && (forall e :: e in es ==> Encodable(e))
    && (filler == 0 || 8 <= filler <= SECTOR) && filler % 4 == 0
    && var rest := EncodeEntries(es) + Filler(filler);
      rest != [] && at + |rest| <= |bytes| && at % SECTOR + |rest| == SECTOR && bytes[at..at + |rest|] == rest
  }

  lemma {:induction false} FirstEncoded(bytes: seq<Byte>, at: nat, es: seq<DirEntry>, filler: nat)
    requires es != [] && HoldsTail(bytes, at, es, filler)
    ensures var n := AllocatedSize(es[0].name);
      && at + 8 <= SectorEnd(bytes, at) && DentryAt(bytes, at).Some?
      && var d := DentryAt(bytes, at).value;
         d.number != 0 && d.name != [] && EntryOf(d) == es[0] && d.span == n
    ensures var n := AllocatedSize(es[0].name);
      && |EncodeEntries(es)| == n + |EncodeEntries(es[1..])|
      && (if es[1..] == [] && filler == 0 then true else HoldsTail(bytes, at + n, es[1..], filler))
  {
    hide DentryAt, EncodeEntry, EncodeEntries, Filler, EntryOf, AllocatedSize, Raw, Encodable, SectorEnd;
    var n := AllocatedSize(es[0].name);
    var tail := EncodeEntries(es[1..]) + Filler(filler);
    SplitEntries(es, filler);
    EncodedSize(es[0]);
    SectorEndAt(bytes, at, n + |tail|);
    SliceSplit(bytes, at, EncodeEntry(es[0]), tail);
    EncodedDentry(bytes, at, es[0]);
    EntryOfEncoded(es[0], DentryAt(bytes, at).value);
    EntriesNonEmpty(es[1..]);
  }

  lemma {:induction false} SplitEntries(es: seq<DirEntry>, filler: nat)
    requires es != [] && (forall e :: e in es ==> Encodable(e)) && (filler == 0 || 8 <= filler <= SECTOR)
    ensures EncodeEntries(es) + Filler(filler) == EncodeEntry(es[0]) + (EncodeEntries(es[1..]) + Filler(filler))
    ensures |EncodeEntries(es)| == |EncodeEntry(es[0])| + |EncodeEntries(es[1..])|
  {
    hide EncodeEntry, Filler, Encodable;
    var first, others := EncodeEntry(es[0]), EncodeEntries(es[1..]);
    assert EncodeEntries(es) == first + others;
  }

  lemma EncodedSize(e: DirEntry)
    requires Encodable(e)
    ensures |EncodeEntry(e)| == AllocatedSize(e.name) && AllocatedSize(e.name) >= 8
    ensures AllocatedSize(e.name) % 4 == 0 && e.inode.number != 0
  {
  }

  /** Parsing the rest of one encoded sector yields its entries, then whatever the next sectors hold. */
  lemma {:induction false} ScanEncodedSector(bytes: seq<Byte>, at: nat, es: seq<DirEntry>, filler: nat, dots: bool)
    requires HoldsTail(bytes, at, es, filler)
    ensures var next := at + |EncodeEntries(es)| + filler;
      && (Scan(bytes, at).Some? <==> Scan(bytes, next).Some?)
      && (Scan(bytes, at).Some? ==>
            Live(Scan(bytes, at).value, dots) == Visible(es, dots) + Live(Scan(bytes, next).value, dots))
    decreases |es|
  {
    hide DentryAt, EncodeEntries, Scan, Live, EntryOf, SectorEnd, Shown, AllocatedSize, HoldsTail;
    if es == [] {
      FillerOnly(bytes, at, filler);
      SkipFree(bytes, at, DentryAt(bytes, at).value, dots);
    } else {
      FirstEncoded(bytes, at, es, filler);
      var d := DentryAt(bytes, at).value;
      TakeLive(bytes, at, d, es[0], dots);
      if es[1..] == [] && filler == 0 {
        NothingEncoded();
        assert Visible(es, dots) == (if Shown(es[0], dots) then [es[0]] else []) + [];
      } else {
        ScanEncodedSector(bytes, at + d.span, es[1..], filler, dots);
      }
    }
  }

  lemma NothingEncoded()
    ensures EncodeEntries([]) == []
  {
  }

  lemma FillerOnly(bytes: seq<Byte>, at: nat, filler: nat)
    requires HoldsTail(bytes, at, [], filler)
    ensures at + 8 <= SectorEnd(bytes, at) && DentryAt(bytes, at) == Some(Dentry(at, 0, 0, [], filler, 0))
    ensures EncodeEntries([]) == []
  {
    hide DentryAt, SectorEnd, Filler;
    assert EncodeEntries([]) + Filler(filler) == Filler(filler);
    SectorEndAt(bytes, at, filler);
    FillerDentry(bytes, at, filler);
  }

  lemma EntryOfEncoded(e: DirEntry, d: Dentry)
    requires Encodable(e) && d.number == e.inode.number && d.subpart == e.inode.subpart && d.mode == e.mode
    requires d.name == Raw(e.name)
    ensures EntryOf(d) == e && d.name != []
  {
    TextOfRaw(e.name);
  }

  lemma {:induction false} EntriesNonEmpty(es: seq<DirEntry>)
    requires forall e :: e in es ==> Encodable(e)
    ensures EncodeEntries(es) == [] ==> es == []
  {
  }

  lemma SectorEndAt(bytes: seq<Byte>, at: nat, n: nat)
    requires n > 0 && at + n <= |bytes| && at % SECTOR + n == SECTOR
    ensures SectorEnd(bytes, at) == at + n
  {
  }

  lemma SliceOfSlice(bytes: seq<Byte>, at: nat, n: nat, from: nat, k: nat)
    requires at + n <= |bytes| && from + k <= n
    ensures bytes[at + from..at + from + k] == bytes[at..at + n][from..from + k]
  {
    var a, b := bytes[at + from..at + from + k], bytes[at..at + n][from..from + k];
    assert |a| == |b| && forall i :: 0 <= i < k ==> a[i] == b[i];
  }

  lemma SliceSplit(bytes: seq<Byte>, at: nat, a: seq<Byte>, b: seq<Byte>)
    requires at + |a| + |b| <= |bytes| && bytes[at..at + |a| + |b|] == a + b
    ensures bytes[at..at + |a|] == a && bytes[at + |a|..at + |a| + |b|] == b
  {
    var whole := bytes[at..at + |a| + |b|];
    assert bytes[at..at + |a|] == whole[..|a|];
    assert bytes[at + |a|..at + |a| + |b|] == whole[|a|..];
  }

  lemma SkipFree(bytes: seq<Byte>, at: nat, d: Dentry, dots: bool)
    requires at + 8 <= SectorEnd(bytes, at) && DentryAt(bytes, at) == Some(d) && d.number == 0
    ensures Scan(bytes, at).Some? <==> Scan(bytes, at + d.span).Some?
    ensures Scan(bytes, at).Some? ==> Live(Scan(bytes, at).value, dots) == Live(Scan(bytes, at + d.span).value, dots)
  {
    hide DentryAt;
    if Scan(bytes, at + d.span).Some? {
      var rest := Scan(bytes, at + d.span).value;
      assert ([d] + rest)[1..] == rest;
    }
  }

  lemma TakeLive(bytes: seq<Byte>, at: nat, d: Dentry, e: DirEntry, dots: bool)
    requires at + 8 <= SectorEnd(bytes, at) && DentryAt(bytes, at) == Some(d)
    requires d.number != 0 && d.name != [] && EntryOf(d) == e
    ensures Scan(bytes, at).Some? <==> Scan(bytes, at + d.span).Some?
    ensures Scan(bytes, at).Some? ==>
      Live(Scan(bytes, at).value, dots)
      == (if Shown(e, dots) then [e] else []) + Live(Scan(bytes, at + d.span).value, dots)
  {
    hide DentryAt;
    if Scan(bytes, at + d.span).Some? {
      var rest := Scan(bytes, at + d.span).value;
      assert ([d] + rest)[1..] == rest;
    }
  }

  lemma {:induction false} ScanEncodedDirectory(bytes: seq<Byte>, at: nat, sectors: seq<seq<DirEntry>>, dots: bool)
    requires forall es :: es in sectors ==> FitsSector(es)
    requires at % SECTOR == 0 && at + |sectors| * SECTOR == |bytes|
    requires bytes[at..] == EncodeDirectory(sectors)
    ensures Scan(bytes, at).Some? && Live(Scan(bytes, at).value, dots) == Visible(Concat(sectors), dots)
    decreases |sectors|
  {
    hide EncodeSector, EncodeEntries, FitsSector;
    if sectors != [] {
      var es := sectors[0];
      var code := EncodeDirectory(sectors);
      assert code[..SECTOR] == EncodeSector(es) && code[SECTOR..] == EncodeDirectory(sectors[1..]);
      assert bytes[at..at + SECTOR] == bytes[at..][..SECTOR];
      assert bytes[at + SECTOR..] == bytes[at..][SECTOR..];
      ScanEncodedDirectory(bytes, at + SECTOR, sectors[1..], dots);
      OneSector(bytes, at, es, dots);
      VisibleConcat(es, Concat(sectors[1..]), dots);
    }
  }

  lemma OneSector(bytes: seq<Byte>, at: nat, es: seq<DirEntry>, dots: bool)
    requires FitsSector(es) && at % SECTOR == 0 && at + SECTOR <= |bytes|
    requires bytes[at..at + SECTOR] == EncodeSector(es)
    ensures Scan(bytes, at).Some? <==> Scan(bytes, at + SECTOR).Some?
    ensures Scan(bytes, at).Some? ==>
      Live(Scan(bytes, at).value, dots) == Visible(es, dots) + Live(Scan(bytes, at + SECTOR).value, dots)
  {
    hide Scan, Live, Visible, EncodeEntries, Filler, Encodable;
    EncodedAligned(es);
    ScanEncodedSector(bytes, at, es, SECTOR - |EncodeEntries(es)|, dots);
  }

  lemma {:induction false} VisibleConcat(a: seq<DirEntry>, b: seq<DirEntry>, dots: bool)
    ensures Visible(a + b, dots) == Visible(a, dots) + Visible(b, dots)
  {
    hide Shown;
    if a == [] {
      assert a + b == b;
    } else {
      VisibleConcat(a[1..], b, dots);
      assert (a + b)[1..] == a[1..] + b;
    }
  }

  /** Parsing what the encoder wrote gives back exactly the entries, in order. */
  lemma {:induction false} ParseInvertsEncode(sectors: seq<seq<DirEntry>>, dots: bool)
    requires forall es :: es in sectors ==> FitsSector(es)
    ensures Parse(EncodeDirectory(sectors), dots) == Some(Visible(Concat(sectors), dots))
  {
    hide FitsSector, EncodeSector, Scan, Live;
    var bytes := EncodeDirectory(sectors);
    assert bytes[0..] == bytes;
    ScanEncodedDirectory(bytes, 0, sectors, dots);
  }
}

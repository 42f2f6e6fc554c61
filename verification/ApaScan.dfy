/**
 * The APA partition chain: `src/core/apa.cpp`. Headers form a linked list on disk; the scan follows
 * it over hostile data with a visited set and a header limit.
 */
module ApaScan {
  import opened Bytes
  import opened Disk
  import opened ApaVolume
  import PfsFormat
  import PfsDirectory

  const APA_MAGIC: U32 := 0x00415041
  const HEADER_SIZE: nat := 1024
  const MAX_SUB: nat := 64
  const SONY_MBR_MAGIC: string := "Sony Computer Entertainment Inc."

  datatype RawHeader = RawHeader(
    checksum: U32, magic: U32, next: U32, prev: U32, id: string, start: U32, length: U32,
    kind: U16, flags: U16, nsub: U32, main: U32, number: U32, mbrMagic: seq<Byte>, version: U32, subs: seq<Extent>)

  /** A header record always carries 64 sub-partition slots. */
  type Header = h: RawHeader | |h.subs| == MAX_SUB
    witness RawHeader(0, 0, 0, 0, "", 0, 0, 0, 0, 0, 0, 0, [], 0, seq(64, _ => Extent(0, 0)))

  datatype Partition = Partition(
    id: string, start: U32, length: U32, total: nat, kind: U16, flags: U16, main: U32, number: U32, subs: seq<Extent>)
  {
    predicate IsSub() {
      flags % 2 == 1
    }

    /** The partition as an address space: its main extent followed by its recorded sub extents. */
    function Extents(): (r: seq<Extent>) {
      [Extent(start, length)] + subs
    }
  }

  datatype Issue = Issue(error: bool, lba: U32)

  datatype ScanResult = ScanResult(mbrValid: bool, version: U32, partitions: seq<Partition>, issues: seq<Issue>) {
    predicate Ok() {
      mbrValid && Clean(issues)
    }
  }

  // ---- headers ----

  /** The bytes before the first NUL. */
  function CString(s: seq<Byte>): string {
    if s == [] || s[0] == 0 then "" else [s[0] as char] + CString(s[1..])
  }

  function LoadExtents(s: seq<Byte>, at: nat, n: nat): (r: seq<Extent>)
    requires at + 8 * n <= |s|
    ensures |r| == n
  {
    seq(n, (i: nat) requires i < n => Extent(Load32(s, at + 8 * i), Load32(s, at + 8 * i + 4)))
  }

  function DecodeHeader(s: seq<Byte>): Header
    requires |s| == HEADER_SIZE
  {
    RawHeader(Load32(s, 0), Load32(s, 4), Load32(s, 8), Load32(s, 12), CString(s[16..48]), Load32(s, 64), Load32(s, 68),
           Load16(s, 72), Load16(s, 74), Load32(s, 76), Load32(s, 88), Load32(s, 92), s[256..288], Load32(s, 288),
           LoadExtents(s, 512, MAX_SUB))
  }

  /** Magic and checksum of a header record are right. */
  predicate WellFormed(raw: seq<Byte>)
    requires |raw| == HEADER_SIZE
  {
    Load32(raw, 4) == APA_MAGIC && PfsFormat.Checksum(raw) == Load32(raw, 0)
  }

  /** The header at an LBA, when the device delivers one that is well-formed. */
  function HeaderAt(d: Disk, lba: U32): Option<Header> {
    if d.Readable(lba * SECTOR, HEADER_SIZE) then
      var raw := d.bytes[lba * SECTOR..lba * SECTOR + HEADER_SIZE];
      if WellFormed(raw) then Some(DecodeHeader(raw)) else None
    else None
  }

  predicate MbrOk(d: Disk) {
    HeaderAt(d, 0).Some? && PfsDirectory.Text(HeaderAt(d, 0).value.mbrMagic) == SONY_MBR_MAGIC
  }

  predicate RangeFits(offset: nat, size: nat, deviceSize: nat) {
    offset <= deviceSize && size <= deviceSize - offset
  }

  predicate ExtentFits(e: Extent, deviceSize: nat) {
    RangeFits(e.start * SECTOR, e.length * SECTOR, deviceSize)
  }

  /** The sub extents the scan keeps: the declared number, clamped to the format limit. */
  function KeptSubs(h: Header): seq<Extent> {
    h.subs[..Min(h.nsub, MAX_SUB)]
  }

  function TotalSectors(length: nat, subs: seq<Extent>): nat {
    if subs == [] then length else TotalSectors(length, subs[..|subs| - 1]) + subs[|subs| - 1].length
  }

  function PartitionOf(h: Header): Partition {
    Partition(h.id, h.start, h.length, TotalSectors(h.length, KeptSubs(h)), h.kind, h.flags, h.main, h.number,
              KeptSubs(h))
  }

  /** The main extent and every kept sub extent lie inside the device. */
  predicate ExtentsFit(p: Partition, deviceSize: nat) {
    forall e :: e in p.Extents() ==> ExtentFits(e, deviceSize)
  }

  // ---- the chain ----

  /** The header at `a` links to a header at `b`. */
  ghost predicate Links(d: Disk, a: U32, b: U32) {
    HeaderAt(d, a).Some? && HeaderAt(d, a).value.next == b && b != 0
  }

  ghost predicate Linked(d: Disk, c: seq<U32>) {
    forall i, j :: 0 <= i < j < |c| && j == i + 1 ==> Links(d, c[i], c[j])
  }

  /** `c` follows `next` links from LBA 0 through well-formed headers. */
  ghost predicate Follows(d: Disk, c: seq<U32>) {
    && |c| > 0 && c[0] == 0
    && (forall i :: 0 <= i < |c| ==> HeaderAt(d, c[i]).Some?)
    && Linked(d, c)
  }

  ghost predicate Distinct(c: seq<U32>) {
    forall i, j :: 0 <= i < j < |c| ==> c[i] != c[j]
  }

  /** A complete chain: acyclic, within the limit, ending in 0, every extent inside the device. */
  ghost predicate GoodChain(d: Disk, c: seq<U32>, max: nat) {
    && Follows(d, c) && Distinct(c) && |c| <= max
    && HeaderAt(d, c[|c| - 1]).value.next == 0
    && forall i :: 0 <= i < |c| ==> ExtentsFit(PartitionOf(HeaderAt(d, c[i]).value), |d.bytes|)
  }

  function PartitionsOf(d: Disk, c: seq<U32>): seq<Partition>
    requires forall i :: 0 <= i < |c| ==> HeaderAt(d, c[i]).Some?
  {
    seq(|c|, (i: nat) requires i < |c| => PartitionOf(HeaderAt(d, c[i]).value))
  }

  /** Any good chain begins with whatever was followed so far, and does not stop inside it. */
  lemma {:induction false} ChainExtends(d: Disk, path: seq<U32>, c: seq<U32>)
    requires |path| > 0 && path[0] == 0 && Linked(d, path)
    requires Follows(d, c) && HeaderAt(d, c[|c| - 1]).value.next == 0
    ensures |path| <= |c| && path == c[..|path|] && path[|path| - 1] == c[|path| - 1]
    decreases |path|
  {
    hide HeaderAt, PartitionOf, ExtentsFit;
    if |path| > 1 {
      var shorter := path[..|path| - 1];
      ChainExtends(d, shorter, c);
      var k := |path| - 2;
      assert Links(d, path[k], path[k + 1]) && path[k] == c[k];
      assert Links(d, c[k], c[k + 1]);
      assert path == shorter + [c[k + 1]];
    }
  }

  /** There is at most one good chain. */
  lemma ChainUnique(d: Disk, a: seq<U32>, b: seq<U32>, max: nat)
    requires GoodChain(d, a, max) && GoodChain(d, b, max)
    ensures a == b
  {
    hide HeaderAt, PartitionOf, ExtentsFit;
    ChainExtends(d, a, b);
    ChainExtends(d, b, a);
  }

  // ---- the scan ----

  /** Between two logs of the device, only requests inside the device were added. */
  ghost predicate OnDevice(d: Disk, before: seq<Access>, after: seq<Access>) {
    && |before| <= |after|
    && after[..|before|] == before
    && forall k :: |before| <= k < |after| ==> after[k].offset + after[k].len <= |d.bytes|
  }

  lemma OnDeviceReflexive(d: Disk, a: seq<Access>)
    ensures OnDevice(d, a, a)
  {
  }

  lemma OnDeviceTransitive(d: Disk, a: seq<Access>, b: seq<Access>, c: seq<Access>)
    requires OnDevice(d, a, b) && OnDevice(d, b, c)
    ensures OnDevice(d, a, c)
  {
    forall k | |a| <= k < |c| ensures c[k].offset + c[k].len <= |d.bytes| {
      if k < |b| {
        assert c[k] == b[k];
      }
    }
    assert c[..|a|] == c[..|b|][..|a|];
  }

  method ReadHeader(device: BlockDevice, lba: U32) returns (ok: bool, header: Header, good: bool)
    modifies device`log
    ensures OnDevice(device.disk, old(device.log), device.log)
    ensures ok && good ==> HeaderAt(device.disk, lba) == Some(header)
    ensures !device.flaky && !(ok && good) ==> HeaderAt(device.disk, lba) == None
  {
    hide DecodeHeader;
    var raw := new Byte[HEADER_SIZE];
    ok := false;
    if RangeFits(lba * SECTOR, HEADER_SIZE, |device.disk.bytes|) {
      ok := device.Read(lba * SECTOR, raw, 0, HEADER_SIZE);
      assert raw[0..HEADER_SIZE] == raw[..];
    }
    header := DecodeHeader(raw[..]);
    var sum := PfsFormat.MetadataChecksum(raw[..]);
    good := Load32(raw[..], 4) == APA_MAGIC && sum == Load32(raw[..], 0);
  }

  predicate Clean(issues: seq<Issue>) {
    forall i :: i in issues ==> !i.error
  }

  /** A warning never affects acceptance. */
  function Warn(issues: seq<Issue>, lba: U32): (r: seq<Issue>)
    ensures Clean(r) <==> Clean(issues)
  {
    var r := issues + [Issue(false, lba)];
    assert forall i :: i in r <==> i in issues || i == Issue(false, lba);
    r
  }

  /** An error always does. */
  function Fail(issues: seq<Issue>, lba: U32): (r: seq<Issue>)
    ensures !Clean(r)
  {
    var r := issues + [Issue(true, lba)];
    assert r[|r| - 1].error;
    r
  }

  /** Turns a header into a partition, recording every extent that leaves the device. */
  method AddPartition(header: Header, lba: U32, deviceSize: nat, issues: seq<Issue>)
    returns (partition: Partition, r: seq<Issue>)
    ensures partition == PartitionOf(header)
    ensures Clean(r) <==> Clean(issues) && ExtentsFit(PartitionOf(header), deviceSize)
  {
    hide Clean, ExtentFits;
    r := issues;
    if header.nsub > MAX_SUB {
      r := Warn(r, lba);
    }
    if !ExtentFits(Extent(header.start, header.length), deviceSize) {
      r := Fail(r, lba);
    }
    ghost var before := Clean(r);
    var count := Min(header.nsub, MAX_SUB);
    var total: nat := header.length;
    var subs: seq<Extent> := [];
    for i := 0 to count
      invariant subs == header.subs[..i]
      invariant total == TotalSectors(header.length, subs)
      invariant Clean(r) <==> before && forall e :: e in subs ==> ExtentFits(e, deviceSize)
    {
      var sub := header.subs[i];
      if !ExtentFits(sub, deviceSize) {
        r := Fail(r, lba);
      }
      assert (subs + [sub])[..|subs|] == subs;
      assert forall e :: e in subs + [sub] <==> e in subs || e == sub;
      subs := subs + [sub];
      total := total + sub.length;
    }
    partition := Partition(header.id, header.start, header.length, total, header.kind, header.flags, header.main,
                           header.number, subs);
    assert forall e :: e in partition.Extents() <==> e == Extent(header.start, header.length) || e in subs;
  }

  /** What the scan knows after visiting the headers `path`, none of which broke the chain. */
  ghost predicate Visited(d: Disk, path: seq<U32>, partitions: seq<Partition>, clean: bool) {
    && Follows(d, path) && Distinct(path)
    && partitions == PartitionsOf(d, path)
    && (clean <==> forall p :: p in partitions ==> ExtentsFit(p, |d.bytes|))
  }

  /**
   * The result is acceptable exactly when a good chain exists, and then the partitions are that
   * chain in order; on a flaky device acceptance still implies the chain. With a limit of zero
   * headers the MBR alone decides, and no partition is listed.
   */
  method Scan(device: BlockDevice, max: nat) returns (r: ScanResult, ghost chain: seq<U32>)
    modifies device`log
    ensures OnDevice(device.disk, old(device.log), device.log)
    ensures r.Ok() ==> MbrOk(device.disk) && (if max == 0 then chain == [] else GoodChain(device.disk, chain, max))
    ensures r.Ok() ==> r.partitions == PartitionsOf(device.disk, chain)
    ensures !device.flaky && !r.Ok() ==>
      !(MbrOk(device.disk) && (max == 0 || exists c :: GoodChain(device.disk, c, max)))
  {
    hide HeaderAt, PartitionOf, ExtentsFit, Follows, Distinct, GoodChain, PartitionsOf, OnDevice;
    chain := [];
    r := ScanResult(false, 0, [], []);
    var d := device.disk;
    OnDeviceReflexive(d, device.log);
    if |d.bytes| < HEADER_SIZE {
      r := r.(issues := [Issue(true, 0)]);
      TooSmall(d);
      return;
    }
    var ok, header, good := ReadHeader(device, 0);
    if !ok || !good || PfsDirectory.Text(header.mbrMagic) != SONY_MBR_MAGIC {
      r := r.(issues := [Issue(true, 0)]);
      return;
    }
    r := r.(mbrValid := true, version := header.version);

    var visited: set<U32> := {};
    var current: U32 := 0;
    var expectedPrev := header.prev;
    var issues: seq<Issue> := [];
    var partitions: seq<Partition> := [];
    var count := 0;
    var done := false;
    assert [0][..0] == [];
    while count < max && !done
      invariant 0 <= count <= max
      invariant MbrOk(d) && OnDevice(d, old(device.log), device.log)
      invariant !done && count < max ==> Pending(d, chain, partitions, issues, current, count)
      invariant !done && count == 0 ==> Some(header) == HeaderAt(d, 0) && current == 0
      invariant !done && count < max ==> visited == set x | x in chain
      invariant max == 0 ==> chain == [] && partitions == [] && issues == []
      invariant max > 0 && (done || count == max) ==> Decided(d, chain, partitions, issues, max, device.flaky)
      decreases max - count, !done
    {
      if current in visited {
        CycleFound(d, chain, partitions, issues, current, count, max);
        issues := Fail(issues, current);
        done := true;
      } else {
        visited := visited + {current};
        var broken := false;
        if count != 0 {
          ghost var log := device.log;
          ok, header, good := ReadHeader(device, current);
          OnDeviceTransitive(d, old(device.log), log, device.log);
          broken := !ok || !good;
        }
        if broken {
          if !device.flaky {
            BrokenFound(d, chain, partitions, issues, current, count, max);
          }
          issues := Fail(issues, current);
          done := true;
        } else {
          if header.start != current {
            issues := Warn(issues, current);
          }
          if count != 0 && header.prev != expectedPrev {
            issues := Warn(issues, current);
          }
          var partition;
          ghost var before := issues;
          partition, issues := AddPartition(header, current, |d.bytes|, issues);
          HeaderAdded(d, chain, partitions, before, issues, current, count);
          ghost var chain0 := chain;
          chain := chain + [current];
          partitions := partitions + [partition];
          if header.next == 0 {
            ChainEnded(d, chain, partitions, issues, max);
            done := true;
          } else if !RangeFits(header.next * SECTOR, HEADER_SIZE, |d.bytes|) {
            OutOfRange(d, header.next);
            OutsideFound(d, chain, partitions, issues, max);
            issues := Fail(issues, header.next);
            done := true;
          } else {
            expectedPrev := current;
            current := header.next;
            if count + 1 == max {
              LimitFound(d, chain, partitions, issues, max);
              issues := Fail(issues, current);
            }
          }
        }
      }
      count := count + 1;
    }
    EmptyPartitions(d);
    r := r.(partitions := partitions, issues := issues);
  }

  lemma EmptyPartitions(d: Disk)
    ensures PartitionsOf(d, []) == []
  {
  }

  lemma TooSmall(d: Disk)
    requires |d.bytes| < HEADER_SIZE
    ensures !MbrOk(d)
  {
  }

  /** Between iterations: `chain` has been visited and leads on to `current`. */
  ghost predicate Pending(d: Disk, chain: seq<U32>, partitions: seq<Partition>, issues: seq<Issue>, current: U32,
                          count: nat) {
    && |chain| == count
    && (count == 0 ==> current == 0 && partitions == [] && Clean(issues))
    && (count > 0 ==>
          && Visited(d, chain, partitions, Clean(issues))
          && HeaderAt(d, chain[count - 1]).value.next == current && current != 0)
  }

  /** After the last iteration the issues decide whether a good chain exists. */
  ghost predicate Decided(d: Disk, chain: seq<U32>, partitions: seq<Partition>, issues: seq<Issue>, max: nat,
                          flaky: bool) {
    && (Clean(issues) ==> GoodChain(d, chain, max) && partitions == PartitionsOf(d, chain))
    && (!flaky && !Clean(issues) ==> forall c :: !GoodChain(d, c, max))
  }

  /** Any complete chain goes through what was visited and on to the current header. */
  lemma PendingExtends(d: Disk, chain: seq<U32>, partitions: seq<Partition>, issues: seq<Issue>, current: U32,
                       count: nat,
                       c: seq<U32>)
    requires Pending(d, chain, partitions, issues, current, count)
    requires Follows(d, c) && HeaderAt(d, c[|c| - 1]).value.next == 0
    ensures |c| > count && c[..count] == chain && c[count] == current
  {
    hide HeaderAt, PartitionOf, ExtentsFit, PartitionsOf, Clean;
    var path := chain + [current];
    ChainExtends(d, path, c);
    assert c[..count] == c[..count + 1][..count];
  }

  lemma CycleFound(d: Disk, chain: seq<U32>, partitions: seq<Partition>, issues: seq<Issue>, current: U32, count: nat,
                   max: nat)
    requires Pending(d, chain, partitions, issues, current, count) && current in chain
    ensures forall c :: !GoodChain(d, c, max)
  {
    hide HeaderAt, PartitionOf, ExtentsFit, PartitionsOf, Pending, Linked;
    forall c | Follows(d, c) && HeaderAt(d, c[|c| - 1]).value.next == 0 ensures !Distinct(c) {
      PendingExtends(d, chain, partitions, issues, current, count, c);
      var i :| 0 <= i < |chain| && chain[i] == current;
      assert |chain| == count && c[i] == c[..count][i];
    }
  }

  lemma BrokenFound(d: Disk, chain: seq<U32>, partitions: seq<Partition>, issues: seq<Issue>, current: U32, count: nat,
                    max: nat)
    requires Pending(d, chain, partitions, issues, current, count) && HeaderAt(d, current) == None
    ensures forall c :: !GoodChain(d, c, max)
  {
    hide HeaderAt, PartitionOf, ExtentsFit, PartitionsOf, Pending, Linked;
    forall c ensures !GoodChain(d, c, max) {
      if GoodChain(d, c, max) {
        PendingExtends(d, chain, partitions, issues, current, count, c);
      }
    }
  }

  lemma HeaderAdded(d: Disk, chain: seq<U32>, partitions: seq<Partition>, before: seq<Issue>, issues: seq<Issue>,
                    current: U32, count: nat)
    requires Pending(d, chain, partitions, before, current, count) && current !in chain
    requires HeaderAt(d, current).Some?
    requires Clean(issues) <==> Clean(before) && ExtentsFit(PartitionOf(HeaderAt(d, current).value), |d.bytes|)
    ensures Visited(d, chain + [current], partitions + [PartitionOf(HeaderAt(d, current).value)], Clean(issues))
  {
    hide HeaderAt, PartitionOf, ExtentsFit, Clean;
    var p := PartitionOf(HeaderAt(d, current).value);
    assert forall q :: q in partitions + [p] <==> q in partitions || q == p;
    assert partitions + [p] == PartitionsOf(d, chain + [current]);
  }

  lemma ChainEnded(d: Disk, chain: seq<U32>, partitions: seq<Partition>, issues: seq<Issue>, max: nat)
    requires Visited(d, chain, partitions, Clean(issues)) && |chain| <= max
    requires HeaderAt(d, chain[|chain| - 1]).value.next == 0
    ensures Decided(d, chain, partitions, issues, max, false)
  {
    hide HeaderAt, PartitionOf, ExtentsFit;
    assert forall i :: 0 <= i < |chain| ==> partitions[i] == PartitionOf(HeaderAt(d, chain[i]).value);
    if !Clean(issues) {
      forall c ensures !GoodChain(d, c, max) {
        if GoodChain(d, c, max) {
          ChainExtends(d, chain, c);
        }
      }
    }
  }

  lemma OutOfRange(d: Disk, lba: U32)
    requires !RangeFits(lba * SECTOR, HEADER_SIZE, |d.bytes|)
    ensures HeaderAt(d, lba) == None
  {
  }

  lemma OutsideFound(d: Disk, chain: seq<U32>, partitions: seq<Partition>, issues: seq<Issue>, max: nat)
    requires Visited(d, chain, partitions, Clean(issues))
    requires var next := HeaderAt(d, chain[|chain| - 1]).value.next;
      next != 0 && HeaderAt(d, next) == None
    ensures forall c :: !GoodChain(d, c, max)
  {
    hide HeaderAt, PartitionOf, ExtentsFit, PartitionsOf, Clean, Distinct;
    var path := chain + [HeaderAt(d, chain[|chain| - 1]).value.next];
    forall c ensures !GoodChain(d, c, max) {
      if GoodChain(d, c, max) {
        ChainExtends(d, path, c);
      }
    }
  }

  lemma LimitFound(d: Disk, chain: seq<U32>, partitions: seq<Partition>, issues: seq<Issue>, max: nat)
    requires Visited(d, chain, partitions, Clean(issues)) && |chain| == max
    requires HeaderAt(d, chain[|chain| - 1]).value.next != 0
    ensures forall c :: !GoodChain(d, c, max)
  {
    hide HeaderAt, PartitionOf, ExtentsFit, PartitionsOf, Clean, Distinct;
    var path := chain + [HeaderAt(d, chain[|chain| - 1]).value.next];
    forall c ensures !GoodChain(d, c, max) {
      if GoodChain(d, c, max) {
        ChainExtends(d, path, c);
      }
    }
  }

  // ---- what an accepted scan gives the layers above ----

  /** Whatever stays inside an extent of an accepted partition stays inside the device. */
  lemma AcceptedExtentsIsolate(d: Disk, c: seq<U32>, max: nat, p: Partition, subs: set<nat>, a: Access)
    requires GoodChain(d, c, max) && p in PartitionsOf(d, c)
    requires InsideExtent(Volume(d, p.Extents()), subs, a)
    ensures a.offset + a.len <= |d.bytes|
  {
    hide HeaderAt, PartitionOf, Linked, Distinct;
    var i :| 0 <= i < |c| && p == PartitionOf(HeaderAt(d, c[i]).value);
    var sub :| sub in subs && sub < |p.Extents()| && InExtent(p.Extents()[sub], a);
    assert p.Extents()[sub] in p.Extents();
  }

  /** The device has an MBR, and the partitions are those of an acceptable chain. */
  ghost predicate Accepted(d: Disk, ps: seq<Partition>, max: nat) {
    MbrOk(d) && exists c :: GoodChain(d, c, max) && ps == PartitionsOf(d, c)
  }

  lemma AcceptedIff(d: Disk, max: nat)
    ensures (exists ps :: Accepted(d, ps, max)) <==> MbrOk(d) && exists c :: GoodChain(d, c, max)
    ensures forall c :: MbrOk(d) && GoodChain(d, c, max) ==> Accepted(d, PartitionsOf(d, c), max)
  {
    hide HeaderAt, PartitionOf, ExtentsFit, MbrOk, Linked, Distinct;
    forall c | MbrOk(d) && GoodChain(d, c, max) ensures Accepted(d, PartitionsOf(d, c), max) {
    }
  }

  /** Every accepted scan of one disk finds the same partitions. */
  lemma AcceptedUnique(d: Disk, a: seq<Partition>, b: seq<Partition>, max: nat)
    requires Accepted(d, a, max) && Accepted(d, b, max)
    ensures a == b
  {
    hide HeaderAt, PartitionOf, ExtentsFit, MbrOk, Linked, Distinct;
    var c :| GoodChain(d, c, max) && a == PartitionsOf(d, c);
    var e :| GoodChain(d, e, max) && b == PartitionsOf(d, e);
    ChainUnique(d, c, e, max);
  }

  /** After an accepted scan, what a reader of one of its partitions asks for lies inside the device. */
  lemma AcceptedReadsIsolate(d: Disk, ps: seq<Partition>, max: nat, p: Partition, subs: set<nat>,
                             before: seq<Access>, after: seq<Access>)
    requires Accepted(d, ps, max) && p in ps
    requires Confined(Volume(d, p.Extents()), subs, before, after)
    ensures OnDevice(d, before, after)
  {
    hide PartitionsOf, InsideExtent, MbrOk;
    var c :| GoodChain(d, c, max) && ps == PartitionsOf(d, c);
    forall k | |before| <= k < |after| ensures after[k].offset + after[k].len <= |d.bytes| {
      AcceptedExtentsIsolate(d, c, max, p, subs, after[k]);
    }
  }
}

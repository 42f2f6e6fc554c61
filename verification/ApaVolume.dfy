/** Translation of (APA extent, relative sector) to the device: `src/core/apa_volume.cpp`. */
module ApaVolume {
  import opened Bytes
  import opened Disk

  datatype Extent = Extent(start: U32, length: U32)

  /** One 512-byte sector of a volume: extent 0 is the main partition, 1.. are its sub-partitions. */
  datatype Addr = Addr(sub: nat, sector: nat)

  /** What a partition means: a table of extents over an image. */
  datatype Volume = Volume(disk: Disk, extents: seq<Extent>) {

    /** The sector exists inside its extent and the device can deliver it. */
    predicate SectorOk(a: Addr) {
      && a.sub < |extents|
      && a.sector < extents[a.sub].length
      && disk.SectorReadable(extents[a.sub].start + a.sector)
    }

    /** Byte `i` of a sector; meaningful when `SectorOk(a)`. */
    function ByteAt(a: Addr, i: nat): Byte {
      if a.sub < |extents| then
        var at := (extents[a.sub].start + a.sector) * SECTOR + i;
        if at < |disk.bytes| then disk.bytes[at] else 0
      else 0
    }

    /** `count` consecutive sectors are all readable. */
    predicate RunOk(sub: nat, sector: nat, count: nat) {
      forall k :: sector <= k < sector + count ==> SectorOk(Addr(sub, k))
    }

    /** The bytes of `count` consecutive sectors. */
    function RunBytes(sub: nat, sector: nat, count: nat): seq<Byte> {
      seq(count * SECTOR, (j: nat) => ByteAt(Addr(sub, sector + j / SECTOR), j % SECTOR))
    }
  }

  /** The request stays inside one of the chosen extents of the volume. */
  ghost predicate InsideExtent(v: Volume, subs: set<nat>, a: Access) {
    exists sub :: sub in subs && sub < |v.extents| && InExtent(v.extents[sub], a)
  }

  predicate InExtent(e: Extent, a: Access) {
    e.start * SECTOR <= a.offset && a.offset + a.len <= (e.start + e.length) * SECTOR
  }

  /** Between two logs of the device, only requests inside the chosen extents were added. */
  ghost predicate Confined(v: Volume, subs: set<nat>, before: seq<Access>, after: seq<Access>) {
    && |before| <= |after|
    && after[..|before|] == before
    && forall k :: |before| <= k < |after| ==> InsideExtent(v, subs, after[k])
  }

  /** The first `n` extents. */
  function FirstSubs(n: nat): (r: set<nat>)
    ensures forall k: nat :: k in r <==> k < n
  {
    if n == 0 then {} else FirstSubs(n - 1) + {n - 1}
  }

  /** Every extent of the volume. */
  function AllSubs(v: Volume): set<nat> {
    FirstSubs(|v.extents|)
  }

  lemma ConfinedReflexive(v: Volume, subs: set<nat>, a: seq<Access>)
    ensures Confined(v, subs, a, a)
  {
  }

  lemma ConfinedTransitive(v: Volume, subs: set<nat>, a: seq<Access>, b: seq<Access>, c: seq<Access>)
    requires Confined(v, subs, a, b) && Confined(v, subs, b, c)
    ensures Confined(v, subs, a, c)
  {
    forall k | |a| <= k < |c| ensures InsideExtent(v, subs, c[k]) {
      if k < |b| {
        assert c[k] == b[k];
      }
    }
    assert c[..|a|] == c[..|b|][..|a|];
  }

  /** Allowing more extents allows the same requests; extents the volume lacks allow none. */
  lemma ConfinedWidens(v: Volume, subs: set<nat>, more: set<nat>, a: seq<Access>, b: seq<Access>)
    requires Confined(v, subs, a, b) && forall s :: s in subs && s < |v.extents| ==> s in more
    ensures Confined(v, more, a, b)
  {
    forall k | |a| <= k < |b| ensures InsideExtent(v, more, b[k]) {
      assert InsideExtent(v, subs, b[k]);
    }
  }

  class ApaVolume {
    const device: BlockDevice
    var extents: seq<Extent>

    ghost function Vol(): Volume
      reads this
    {
      Volume(device.disk, extents)
    }

    constructor (device: BlockDevice, start: U32, length: U32, subs: seq<Extent>)
      ensures this.device == device
      ensures extents == [Extent(start, length)] + subs
    {
      this.device := device;
      extents := [Extent(start, length)];
      new;
      for i := 0 to |subs|
        invariant extents == [Extent(start, length)] + subs[..i]
      {
        extents := extents + [subs[i]];
      }
      assert subs[..|subs|] == subs;
    }

    /**
     * Reads `count` sectors of extent `sub` into `out[lo..hi]`. The guard on the 64-bit byte
     * address is part of the source; the contract shows it never rejects anything, because the
     * result does not depend on it.
     */
    method ReadSectors(sub: nat, sector: U32, count: U32, out: array<Byte>, lo: nat, hi: nat) returns (ok: bool)
      requires lo <= hi <= out.Length
      modifies out, device`log
      ensures Confined(Vol(), {sub}, old(device.log), device.log)
      ensures sub >= |extents| ==> !ok && device.log == old(device.log)
      ensures forall i :: 0 <= i < out.Length && !(lo <= i < hi) ==> out[i] == old(out[i])
      ensures ok ==> hi - lo == count * SECTOR && Vol().RunOk(sub, sector, count)
      ensures ok ==> out[lo..hi] == Vol().RunBytes(sub, sector, count)
      ensures !device.flaky && count > 0 && hi - lo == count * SECTOR && Vol().RunOk(sub, sector, count) ==> ok
      ensures !device.flaky && count == 0 ==>
        ok == (lo == hi && sub < |extents| && sector <= extents[sub].length
               && (extents[sub].start + sector) * SECTOR <= |device.disk.bytes|)
    {
      if sub >= |extents| {
        assert !Vol().SectorOk(Addr(sub, sector));
        return false;
      }
      var e := extents[sub];
      if sector + count > e.length {
        assert count > 0 ==> !Vol().SectorOk(Addr(sub, sector + count - 1));
        return false;
      }
      if count * SECTOR != hi - lo {
        return false;
      }
      var physicalLba := e.start + sector;
      if physicalLba > U64_MAX / SECTOR {
        assert false;
        return false;
      }
      if count > 0 {
        RunOkIsReadable(Vol(), sub, sector, count);
      }
      ok := device.Read(physicalLba * SECTOR, out, lo, hi);
      assert InExtent(e, Access(physicalLba * SECTOR, hi - lo));
      if ok {
        RunBytesIsSlice(Vol(), sub, sector, count);
      }
    }
  }

  /** Inside an extent, the sectors of a run are readable exactly when the device range is. */
  lemma RunOkIsReadable(v: Volume, sub: nat, sector: nat, count: nat)
    requires sub < |v.extents| && sector + count <= v.extents[sub].length && count > 0
    ensures v.RunOk(sub, sector, count)
       <==> v.disk.Readable((v.extents[sub].start + sector) * SECTOR, count * SECTOR)
  {
    var lba := v.extents[sub].start + sector;
    ReadableBySector(v.disk, lba, count);
    forall k | lba <= k < lba + count
      ensures v.RunOk(sub, sector, count) ==> v.disk.SectorReadable(k)
    {
      assert v.RunOk(sub, sector, count) ==> v.SectorOk(Addr(sub, k - v.extents[sub].start));
    }
    forall k | sector <= k < sector + count
      ensures v.disk.SectorReadable(v.extents[sub].start + k) ==> v.SectorOk(Addr(sub, k))
    {
    }
  }

  /** A readable run is one contiguous slice of the image, relocated by the extent's start. */
  lemma RunBytesIsSlice(v: Volume, sub: nat, sector: nat, count: nat)
    requires sub < |v.extents|
    requires (v.extents[sub].start + sector + count) * SECTOR <= |v.disk.bytes|
    ensures var at := (v.extents[sub].start + sector) * SECTOR;
      v.RunBytes(sub, sector, count) == v.disk.bytes[at..at + count * SECTOR]
  {
    var at := (v.extents[sub].start + sector) * SECTOR;
    forall j | 0 <= j < count * SECTOR
      ensures v.RunBytes(sub, sector, count)[j] == v.disk.bytes[at + j]
    {
      assert j == (j / SECTOR) * SECTOR + j % SECTOR;
      assert (v.extents[sub].start + (sector + j / SECTOR)) * SECTOR + j % SECTOR == at + j;
    }
  }
}

/** The backing device: an immutable image with media errors, behind an exact-read interface. */
module Disk {
  import opened Bytes

  const SECTOR: nat := 512

  /** `bad` holds the sectors whose contents cannot be read. */
  datatype Disk = Disk(bytes: seq<Byte>, bad: set<nat>) {

    /** Sector `s` lies inside the image and can be read. */
    predicate SectorReadable(s: nat) {
      (s + 1) * SECTOR <= |bytes| && s !in bad
    }

    /** Every byte of the range lies inside the image and in a good sector. */
    predicate Readable(offset: nat, len: nat) {
      && offset + len <= |bytes|
      && forall s :: s in bad ==> len == 0 || (s + 1) * SECTOR <= offset || offset + len <= s * SECTOR
    }
  }

  /** One request made of the device. */
  datatype Access = Access(offset: nat, len: nat)

  /**
   * An exact read either delivers the whole range or reports failure. A `flaky` device may fail
   * any call; a device that is not flaky fails exactly the ranges that are not readable.
   */
  class BlockDevice {
    const disk: Disk
    const flaky: bool
    /** Every request made so far, successful or not. */
    ghost var log: seq<Access>

    constructor (disk: Disk, flaky: bool)
      ensures this.disk == disk && this.flaky == flaky && log == []
    {
      log := [];
      this.disk := disk;
      this.flaky := flaky;
    }

    method Read(offset: nat, out: array<Byte>, lo: nat, hi: nat) returns (ok: bool)
      requires lo <= hi <= out.Length
      modifies out, this`log
      ensures log == old(log) + [Access(offset, hi - lo)]
      ensures forall i :: 0 <= i < out.Length && !(lo <= i < hi) ==> out[i] == old(out[i])
      ensures ok ==> disk.Readable(offset, hi - lo) && out[lo..hi] == disk.bytes[offset..offset + (hi - lo)]
      ensures !flaky && disk.Readable(offset, hi - lo) ==> ok
    {
      log := log + [Access(offset, hi - lo)];
      ok := disk.Readable(offset, hi - lo);
      if ok && flaky {
        ok := *;
      }
      if ok {
        forall i | lo <= i < hi {
          out[i] := disk.bytes[offset + (i - lo)];
        }
      }
    }
  }

  /** A whole number of sectors is readable exactly when each of them is. */
  lemma ReadableBySector(d: Disk, lba: nat, count: nat)
    requires count > 0
    ensures d.Readable(lba * SECTOR, count * SECTOR) <==> forall k :: lba <= k < lba + count ==> d.SectorReadable(k)
  {
    forall k | lba <= k < lba + count
      ensures d.Readable(lba * SECTOR, count * SECTOR) ==> d.SectorReadable(k)
    {
      assert (k + 1) * SECTOR <= (lba + count) * SECTOR;
    }
    assert d.SectorReadable(lba + count - 1) ==> (lba + count) * SECTOR <= |d.bytes|;
    forall s | s in d.bad
      ensures s < lba || lba + count <= s || !d.SectorReadable(s)
    {
    }
  }
}

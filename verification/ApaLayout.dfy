/**
 * An encoder for the headers of `include/ps2hdd/apa.hpp`, field by field, and whole disks laid out
 * with it: exactly when the scan of `src/core/apa.cpp` accepts them, and what it then lists.
 */
module ApaLayout {
  import opened Bytes
  import opened Disk
  import opened ApaVolume
  import opened PfsFormat
  import opened PfsDirectory
  import opened ApaScan
  import opened Records

  // ---- one header ----

  /** The fields of a header the scan looks at; `text` is what makes the first one an MBR. */
  datatype Fields = Fields(
    next: U32, prev: U32, id: string, start: U32, length: U32, kind: U16, flags: U16, nsub: U32, main: U32,
    number: U32, text: string, version: U32, subs: seq<Extent>)

  predicate Holdable(f: Fields) {
    && |f.id| <= 32 && IsByteString(f.id) && '\0' !in f.id
    && |f.text| == 32 && IsByteString(f.text) && |f.subs| == 64
  }

  function CharAt(s: string, i: nat): Byte
    requires IsByteString(s)
  {
    if i < |s| then (assert s[i] in s; s[i] as int) else 0
  }

  /** Four characters in a word, padded with NULs. */
  function CharWord(s: string, i: nat): U32
    requires IsByteString(s)
  {
    var a: nat, b: nat, c: nat, d: nat := CharAt(s, 4 * i), CharAt(s, 4 * i + 1), CharAt(s, 4 * i + 2),
      CharAt(s, 4 * i + 3);
    a + 0x100 * b + 0x1_0000 * c + 0x100_0000 * d
  }

  function HeaderWord(f: Fields, i: nat): U32
    requires Holdable(f)
  {
    if i == 1 then 0x0041_5041
    else if i == 2 then f.next
    else if i == 3 then f.prev
    else if 4 <= i < 12 then CharWord(f.id, i - 4)
    else if i == 16 then f.start
    else if i == 17 then f.length
    else if i == 18 then (var low: nat, high: nat := f.kind, f.flags; low + 0x1_0000 * high)
    else if i == 19 then f.nsub
    else if i == 22 then f.main
    else if i == 23 then f.number
    else if 64 <= i < 72 then CharWord(f.text, i - 64)
    else if i == 72 then f.version
    else if 128 <= i < 256 then (if i % 2 == 0 then f.subs[(i - 128) / 2].start else f.subs[(i - 128) / 2].length)
    else 0
  }

  function HeaderWords(f: Fields): (ws: seq<U32>)
    requires Holdable(f)
    ensures |ws| == 255 && forall i :: 0 <= i < 255 ==> ws[i] == HeaderWord(f, i + 1)
  {
    seq(255, (i: nat) => HeaderWord(f, i + 1))
  }

  function EncodeHeader(f: Fields): (r: seq<Byte>)
    requires Holdable(f)
    ensures |r| == HEADER_SIZE
  {
    Sealed(HeaderWords(f))
  }

  /** All words of an encoded header, the sum included. */
  function HeaderRecord(f: Fields): (ws: seq<U32>)
    requires Holdable(f)
    ensures |ws| == 256 && Encode(ws) == EncodeHeader(f) && ws[1..] == HeaderWords(f)
    ensures ws[0] == Sum(HeaderWords(f)) % 0x1_0000_0000 && forall i :: 1 <= i < 256 ==> ws[i] == HeaderWord(f, i)
  {
    [Sum(HeaderWords(f)) % 0x1_0000_0000] + HeaderWords(f)
  }

  /** Whatever words a record holds: exactly when it is a header. */
  lemma {:induction false} WellFormedIff(ws: seq<U32>)
    requires |ws| == 256
    ensures WellFormed(Encode(ws)) <==> ws[1] == 0x0041_5041 && ws[0] == Sum(ws[1..]) % 0x1_0000_0000
  {
    hide Encode, Checksum, Sum, Load32;
    ChecksumIsSum(ws);
    LoadsWord(ws, 1);
  }

  lemma CharBytes(s: string, i: nat)
    requires IsByteString(s)
    ensures WordBytes(CharWord(s, i))
         == [CharAt(s, 4 * i), CharAt(s, 4 * i + 1), CharAt(s, 4 * i + 2), CharAt(s, 4 * i + 3)]
  {
    hide CharAt;
    var a: nat, b: nat, c: nat, d: nat := CharAt(s, 4 * i), CharAt(s, 4 * i + 1), CharAt(s, 4 * i + 2),
      CharAt(s, 4 * i + 3);
    var w := CharWord(s, i);
    assert w / 0x100 == b + 0x100 * c + 0x1_0000 * d;
    assert w / 0x1_0000 == c + 0x100 * d;
  }

  /** Text laid out in eight words reads back character by character. */
  lemma {:induction false} TextBytes(ws: seq<U32>, at: nat, s: string, q: nat)
    requires IsByteString(s) && at + 8 <= |ws| && q < 32
    requires forall i :: 0 <= i < 8 ==> ws[at + i] == CharWord(s, i)
    ensures Encode(ws)[4 * at + q] == CharAt(s, q)
  {
    hide Encode, CharWord, WordBytes, CharAt;
    var i := q / 4;
    EncodedWord(ws, at + i);
    CharBytes(s, i);
    assert Encode(ws)[4 * at + q] == Encode(ws)[4 * (at + i)..4 * (at + i) + 4][q - 4 * i];
  }

  lemma {:induction false} IdReadsBack(id: string, n: nat)
    requires IsByteString(id) && '\0' !in id
    ensures CString(Raw(id) + Zeros(n)) == id
  {
    if id != "" {
      assert forall c :: c in id[1..] ==> c in id;
      IdReadsBack(id[1..], n);
      assert Raw(id)[1..] == Raw(id[1..]);
      assert (Raw(id) + Zeros(n))[1..] == Raw(id[1..]) + Zeros(n);
      assert Raw(id)[0] == id[0] as int && id[0] in id;
    }
  }

  lemma HeaderChars(f: Fields)
    requires Holdable(f)
    ensures forall q :: 0 <= q < 32 ==> EncodeHeader(f)[16..48][q] == CharAt(f.id, q)
    ensures forall q :: 0 <= q < 32 ==> EncodeHeader(f)[256..288][q] == CharAt(f.text, q)
  {
    hide Encode, EncodeHeader, HeaderRecord, HeaderWords, CharWord, CharAt;
    var ws, raw := HeaderRecord(f), EncodeHeader(f);
    forall q | 0 <= q < 32 ensures raw[16..48][q] == CharAt(f.id, q) && raw[256..288][q] == CharAt(f.text, q) {
      TextBytes(ws, 4, f.id, q);
      TextBytes(ws, 64, f.text, q);
    }
  }

  lemma HeaderTexts(f: Fields)
    requires Holdable(f)
    ensures CString(EncodeHeader(f)[16..48]) == f.id && EncodeHeader(f)[256..288] == Raw(f.text)
  {
    hide EncodeHeader, CString;
    var raw := EncodeHeader(f);
    HeaderChars(f);
    IdReadsBack(f.id, 32 - |f.id|);
    assert raw[16..48] == Raw(f.id) + Zeros(32 - |f.id|);
    assert raw[256..288] == Raw(f.text);
  }

  lemma HeaderSubs(f: Fields)
    requires Holdable(f)
    ensures LoadExtents(EncodeHeader(f), 512, MAX_SUB) == f.subs
  {
    hide Encode, EncodeHeader, HeaderRecord, HeaderWords, Load32, CharWord;
    var ws, raw := HeaderRecord(f), EncodeHeader(f);
    forall k | 0 <= k < 64 ensures Extent(Load32(raw, 512 + 8 * k), Load32(raw, 512 + 8 * k + 4)) == f.subs[k] {
      LoadsWord(ws, 128 + 2 * k);
      LoadsWord(ws, 129 + 2 * k);
    }
  }

  /** The header an encoded record stands for. */
  function HeaderFrom(f: Fields): Header
    requires Holdable(f)
  {
    RawHeader(Sum(HeaderWords(f)) % 0x1_0000_0000, 0x0041_5041, f.next, f.prev, f.id, f.start, f.length, f.kind,
              f.flags, f.nsub, f.main, f.number, Raw(f.text), f.version, f.subs)
  }

  /** An encoded header is well-formed, and every field decodes to what it was made from. */
  lemma HeaderDecodes(f: Fields)
    requires Holdable(f)
    ensures WellFormed(EncodeHeader(f)) && DecodeHeader(EncodeHeader(f)) == HeaderFrom(f)
  {
    hide Encode, EncodeHeader, HeaderRecord, HeaderWords, Load32, Load16, Sum, WellFormed, CString, LoadExtents,
      CharWord;
    var ws := HeaderRecord(f);
    WellFormedIff(ws);
    HeaderTexts(f);
    HeaderSubs(f);
    LoadsWord(ws, 0);
    LoadsWord(ws, 1);
    LoadsWord(ws, 2);
    LoadsWord(ws, 3);
    LoadsWord(ws, 16);
    LoadsWord(ws, 17);
    LoadsWord(ws, 18);
    LoadsWord(ws, 19);
    LoadsWord(ws, 22);
    LoadsWord(ws, 23);
    LoadsWord(ws, 72);
  }

  // ---- a whole disk ----

  /** A partition whose header the disk is to hold. */
  datatype Spec = Spec(id: string, kind: U16, flags: U16, length: U32, nsub: U32, subs: seq<Extent>, main: U32,
                       number: U32)

  /** Headers at LBAs 0, 2, 4, ..., on a disk of a number of sectors. */
  datatype Layout = Layout(specs: seq<Spec>, text: string, sectors: nat)

  const MAX_SPECS: nat := 0x4000_0000

  predicate SpecOk(s: Spec) {
    |s.id| <= 32 && IsByteString(s.id) && '\0' !in s.id && |s.subs| == 64
  }

  predicate Shaped(l: Layout) {
    && 0 < |l.specs| <= MAX_SPECS && 2 * |l.specs| <= l.sectors
    && |l.text| == 32 && IsByteString(l.text)
    && forall i :: 0 <= i < |l.specs| ==> SpecOk(l.specs[i])
  }

  /** The headers link each to the next; the last one links to nothing. */
  function FieldsOf(l: Layout, i: nat): (f: Fields)
    requires Shaped(l) && i < |l.specs|
    ensures Holdable(f)
  {
    var s := l.specs[i];
    assert SpecOk(s);
    Fields(if i + 1 < |l.specs| then 2 * (i + 1) else 0, if i > 0 then 2 * (i - 1) else 0, s.id, 2 * i, s.length,
           s.kind, s.flags, s.nsub, s.main, s.number, l.text, 2, s.subs)
  }

  /** The sub extents a header declares, and the format has room for. */
  function Kept(s: Spec): seq<Extent> {
    if s.nsub < |s.subs| then s.subs[..s.nsub] else s.subs
  }

  function Lengths(subs: seq<Extent>): nat {
    if subs == [] then 0 else subs[0].length + Lengths(subs[1..])
  }

  /** What is listed for the `i`-th header. */
  function PartitionAt(l: Layout, i: nat): Partition
    requires i < |l.specs| <= MAX_SPECS
  {
    var s := l.specs[i];
    Partition(s.id, 2 * i, s.length, s.length + Lengths(Kept(s)), s.kind, s.flags, s.main, s.number, Kept(s))
  }

  /** The main extent and the declared sub extents end on the disk. */
  ghost predicate OnDisk(l: Layout, i: nat)
    requires i < |l.specs|
  {
    var s := l.specs[i];
    && 2 * i + s.length <= l.sectors
    && forall k :: 0 <= k < |s.subs| && k < s.nsub ==> s.subs[k].start + s.subs[k].length <= l.sectors
  }

  function DiskByte(l: Layout, q: nat): Byte
    requires Shaped(l)
  {
    if q / 1024 < |l.specs| then EncodeHeader(FieldsOf(l, q / 1024))[q % 1024] else 0
  }

  function DiskOf(l: Layout): Disk
    requires Shaped(l)
  {
    Disk(seq(l.sectors * 512, (q: nat) => DiskByte(l, q)), {})
  }

  function Listed(l: Layout): (r: seq<Partition>)
    requires Shaped(l)
    ensures |r| == |l.specs| && forall i :: 0 <= i < |r| ==> r[i] == PartitionAt(l, i)
  {
    seq(|l.specs|, (i: nat) requires i < |l.specs| => PartitionAt(l, i))
  }

  function ChainOf(l: Layout): (r: seq<U32>)
    requires Shaped(l)
    ensures |r| == |l.specs| && forall i :: 0 <= i < |r| ==> r[i] == 2 * i
  {
    seq(|l.specs|, (i: nat) requires i < |l.specs| => 2 * i)
  }

  lemma {:induction false} LengthsTotal(length: nat, subs: seq<Extent>)
    ensures TotalSectors(length, subs) == length + Lengths(subs)
  {
    if subs != [] {
      var last := subs[|subs| - 1];
      LengthsTotal(length, subs[..|subs| - 1]);
      LengthsSnoc(subs[..|subs| - 1], last);
      assert subs == subs[..|subs| - 1] + [last];
    }
  }

  lemma {:induction false} LengthsSnoc(subs: seq<Extent>, last: Extent)
    ensures Lengths(subs + [last]) == Lengths(subs) + last.length
  {
    if subs != [] {
      LengthsSnoc(subs[1..], last);
      assert (subs + [last])[1..] == subs[1..] + [last];
    } else {
      assert [last][1..] == [];
    }
  }

  lemma RecordThere(l: Layout, i: nat)
    requires Shaped(l) && i < |l.specs|
    ensures |DiskOf(l).bytes| == l.sectors * 512 && 2 * i + 2 <= l.sectors
    ensures DiskOf(l).bytes[i * 1024..i * 1024 + 1024] == EncodeHeader(FieldsOf(l, i))
  {
    hide EncodeHeader;
  }

  /** The header the scan finds at each place. */
  lemma HeaderThere(l: Layout, i: nat)
    requires Shaped(l) && i < |l.specs|
    ensures HeaderAt(DiskOf(l), 2 * i) == Some(HeaderFrom(FieldsOf(l, i)))
  {
    hide EncodeHeader, WellFormed, DecodeHeader, HeaderFrom, FieldsOf, DiskByte;
    RecordThere(l, i);
    HeaderDecodes(FieldsOf(l, i));
  }

  lemma HeaderOf(l: Layout, i: nat)
    requires Shaped(l) && i < |l.specs|
    ensures var h := HeaderAt(DiskOf(l), 2 * i);
      && h.Some? && h.value.next == (if i + 1 < |l.specs| then 2 * (i + 1) else 0)
      && Text(h.value.mbrMagic) == l.text && PartitionOf(h.value) == PartitionAt(l, i)
  {
    hide HeaderAt, DiskOf, Lengths, TotalSectors, Sum, HeaderWords, Raw, Text;
    var f := FieldsOf(l, i);
    HeaderThere(l, i);
    TextOfRaw(f.text);
    LengthsTotal(f.length, Kept(l.specs[i]));
    assert KeptSubs(HeaderFrom(f)) == Kept(l.specs[i]);
  }

  lemma ChainFollows(l: Layout)
    requires Shaped(l)
    ensures Follows(DiskOf(l), ChainOf(l)) && Distinct(ChainOf(l))
    ensures HeaderAt(DiskOf(l), ChainOf(l)[|l.specs| - 1]).value.next == 0
  {
    hide HeaderAt, DiskOf, PartitionOf, PartitionAt, Text;
    var d, c := DiskOf(l), ChainOf(l);
    forall i | 0 <= i < |l.specs|
      ensures HeaderAt(d, c[i]).Some?
      ensures HeaderAt(d, c[i]).value.next == if i + 1 < |l.specs| then 2 * (i + 1) else 0
    {
      HeaderOf(l, i);
    }
  }

  lemma FitsIff(l: Layout, i: nat)
    requires Shaped(l) && i < |l.specs|
    ensures ExtentsFit(PartitionAt(l, i), |DiskOf(l).bytes|) <==> OnDisk(l, i)
  {
    hide DiskByte;
    var p, s := PartitionAt(l, i), l.specs[i];
    if ExtentsFit(p, |DiskOf(l).bytes|) {
      assert Extent(2 * i, s.length) in p.Extents();
      forall k | 0 <= k < |s.subs| && k < s.nsub ensures s.subs[k].start + s.subs[k].length <= l.sectors {
        assert Kept(s)[k] == s.subs[k] && Kept(s)[k] in p.Extents();
      }
    }
    if OnDisk(l, i) {
      forall e | e in p.Extents() ensures ExtentFits(e, |DiskOf(l).bytes|) {
        var k :| 0 <= k < |p.Extents()| && p.Extents()[k] == e;
        assert k > 0 ==> e == s.subs[k - 1];
      }
    }
  }

  /**
   * The scan accepts such a disk exactly when its first header carries Sony's text, there are no more
   * headers than the limit, and every extent any of them declares lies on the disk; then it lists
   * them as they were written.
   */
  lemma AcceptedIffOnDisk(l: Layout, max: nat)
    requires Shaped(l)
    ensures (exists ps :: Accepted(DiskOf(l), ps, max))
       <==> l.text == "Sony Computer Entertainment Inc." && |l.specs| <= max
            && forall i :: 0 <= i < |l.specs| ==> OnDisk(l, i)
    ensures (exists ps :: Accepted(DiskOf(l), ps, max)) ==> Accepted(DiskOf(l), Listed(l), max)
  {
    hide HeaderAt, PartitionOf, DiskOf, Text, ExtentsFit, PartitionAt, OnDisk;
    var d, c := DiskOf(l), ChainOf(l);
    ChainFollows(l);
    HeaderOf(l, 0);
    forall i | 0 <= i < |l.specs|
      ensures PartitionOf(HeaderAt(d, c[i]).value) == Listed(l)[i]
      ensures ExtentsFit(Listed(l)[i], |d.bytes|) <==> OnDisk(l, i)
    {
      HeaderOf(l, i);
      FitsIff(l, i);
    }
    assert PartitionsOf(d, c) == Listed(l);
    AcceptedIff(d, max);
    if g :| GoodChain(d, g, max) {
      ChainExtends(d, c, g);
      ChainExtends(d, g, c);
    }
  }

  // ---- disks of plain partitions ----

  predicate NamesOk(ids: seq<string>) {
    0 < |ids| <= MAX_SPECS && forall i :: 0 <= i < |ids| ==> |ids[i]| <= 32 && IsByteString(ids[i]) && '\0' !in ids[i]
  }

  /** Main partitions of one type, each just its own header. */
  function Plain(ids: seq<string>, kind: U16): (l: Layout)
    requires NamesOk(ids)
    ensures Shaped(l) && |l.specs| == |ids|
    ensures forall i :: 0 <= i < |ids| ==> PartitionAt(l, i) == Partition(ids[i], 2 * i, 2, 2, kind, 0, 0, 0, [])
  {
    SonyText();
    Layout(seq(|ids|, (i: nat) requires i < |ids| => PlainSpec(ids[i], kind)), "Sony Computer Entertainment Inc.",
           2 * |ids|)
  }

  function PlainSpec(id: string, kind: U16): Spec {
    Spec(id, kind, 0, 2, 0, seq(64, _ => Extent(0, 0)), 0, 0)
  }

  lemma SonyText()
    ensures var s := "Sony Computer Entertainment Inc."; |s| == 32 && IsByteString(s)
  {
    var s := "Sony Computer Entertainment Inc.";
    forall c | c in s ensures c as int < 0x100 {
      var k :| 0 <= k < |s| && s[k] == c;
      assert s[k] <= 'z';
    }
  }

  /** Whatever the ids are, some disk's scan lists such partitions. */
  lemma PlainAccepted(ids: seq<string>, kind: U16, max: nat)
    requires NamesOk(ids) && |ids| <= max
    ensures Accepted(DiskOf(Plain(ids, kind)), Listed(Plain(ids, kind)), max)
  {
    hide Accepted, DiskOf, Listed;
    AcceptedIffOnDisk(Plain(ids, kind), max);
  }
}

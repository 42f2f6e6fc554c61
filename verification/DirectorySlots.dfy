/**
 * What a directory's bytes mean, slot by slot and without a parser: a round of fixed conditions on
 * the bytes of each slot, and where the next slot starts.
 */
module DirectorySlots {
  import opened Bytes
  import opened PfsFormat
  import opened PfsDirectory

  /** The little-endian number in `n` bytes. */
  function Number(bytes: seq<Byte>, at: nat, n: nat): nat
    requires at + n <= |bytes|
    decreases n
  {
    if n == 0 then 0
    else
      var low: nat := bytes[at];
      low + 256 * Number(bytes, at + 1, n - 1)
  }

  /** The bytes at `d.at` are the slot `d`: its lengths are in range and it ends in its sector. */
  predicate IsSlot(bytes: seq<Byte>, d: Dentry) {
    && d.at + d.span <= |bytes| && 8 <= d.span < 4096 && d.span % 4 == 0
    && d.at / 512 == (d.at + d.span - 1) / 512
    && 8 + |d.name| <= d.span && d.mode % 4096 == 0
    && d.number == Number(bytes, d.at, 4) && d.subpart == bytes[d.at + 4] && |d.name| == Number(bytes, d.at + 5, 1)
    && d.mode + d.span == Number(bytes, d.at + 6, 2)
    && d.name == bytes[d.at + 8..d.at + 8 + |d.name|]
  }

  /** A slot header starting at `at` would lie in one sector of the directory. */
  predicate Room(bytes: seq<Byte>, at: nat) {
    at + 8 <= |bytes| && at / 512 == (at + 7) / 512
  }

  /** A slot may start at `q` when the one before ended at `end`: right there, or with a later sector. */
  predicate MayStart(bytes: seq<Byte>, end: nat, q: nat) {
    end <= q && (q == end || q % 512 == 0) && Room(bytes, q)
  }

  /** The next slot after `end` starts at `at`, the first place where one may. */
  ghost predicate NextStart(bytes: seq<Byte>, end: nat, at: nat) {
    MayStart(bytes, end, at) && forall q: nat :: MayStart(bytes, end, q) ==> at <= q
  }

  /** Where slot `k` may start when the first may start at `from`. */
  function EndOf(from: nat, ds: seq<Dentry>, k: nat): nat
    requires k <= |ds|
  {
    if k == 0 then from else ds[k - 1].at + ds[k - 1].span
  }

  /** The slots fill the directory: each starts at the first place it may, and there is none for another. */
  ghost predicate Fills(bytes: seq<Byte>, from: nat, ds: seq<Dentry>) {
    && (forall k :: 0 <= k < |ds| ==> IsSlot(bytes, ds[k]) && NextStart(bytes, EndOf(from, ds, k), ds[k].at))
    && forall q: nat :: !MayStart(bytes, EndOf(from, ds, |ds|), q)
  }

  lemma {:induction false} NumbersAreLoads(bytes: seq<Byte>, at: nat)
    requires at + 8 <= |bytes|
    ensures Number(bytes, at, 4) == Load32(bytes, at) && Number(bytes, at + 5, 1) == bytes[at + 5]
    ensures Number(bytes, at + 6, 2) == Load16(bytes, at + 6)
  {
    NumberOne(bytes, at + 5);
    NumberTwo(bytes, at + 6);
    NumberTwo(bytes, at + 2);
    assert Number(bytes, at + 1, 3) == bytes[at + 1] as nat + 256 * Number(bytes, at + 2, 2);
  }

  lemma {:induction false} NumberOne(bytes: seq<Byte>, at: nat)
    requires at + 1 <= |bytes|
    ensures Number(bytes, at, 1) == bytes[at]
  {
    assert Number(bytes, at + 1, 0) == 0;
  }

  lemma {:induction false} NumberTwo(bytes: seq<Byte>, at: nat)
    requires at + 2 <= |bytes|
    ensures Number(bytes, at, 2) == Load16(bytes, at)
  {
    NumberOne(bytes, at + 1);
  }

  lemma RoomIff(bytes: seq<Byte>, at: nat)
    ensures Room(bytes, at) <==> at + 8 <= SectorEnd(bytes, at)
  {
  }

  lemma {:induction false} SlotIff(bytes: seq<Byte>, d: Dentry)
    requires d.at + 8 <= SectorEnd(bytes, d.at)
    ensures DentryAt(bytes, d.at) == Some(d) <==> IsSlot(bytes, d)
  {
    hide Number, Load32, Load16;
    NumbersAreLoads(bytes, d.at);
  }

  lemma NowhereLeft(bytes: seq<Byte>, from: nat)
    requires from >= |bytes|
    ensures forall q: nat :: !MayStart(bytes, from, q)
  {
  }

  /** Where no slot fits any more, the next one may start where it may from the end of the sector on. */
  lemma RestOfSector(bytes: seq<Byte>, from: nat, q: nat)
    requires from < |bytes| && !Room(bytes, from)
    ensures SectorEnd(bytes, from) > from && (MayStart(bytes, from, q) <==> MayStart(bytes, SectorEnd(bytes, from), q))
  {
    var k, end := from / 512, SectorEnd(bytes, from);
    if end == |bytes| {
      NoRoomAtEnd(bytes, from, q);
    } else {
      assert end == k * 512 + 512 && end % 512 == 0;
      if q > from && q % 512 == 0 {
        assert q / 512 > k;
      }
    }
  }

  lemma NoRoomAtEnd(bytes: seq<Byte>, from: nat, q: nat)
    requires from < |bytes| == SectorEnd(bytes, from) && !Room(bytes, from)
    ensures !MayStart(bytes, from, q) && !MayStart(bytes, |bytes|, q)
  {
    var k := from / 512;
    if q > from && q % 512 == 0 {
      assert q / 512 > k;
      assert q >= k * 512 + 512;
    }
  }

  lemma {:induction false} SameStart(bytes: seq<Byte>, a: nat, b: nat, ds: seq<Dentry>)
    requires forall q: nat :: MayStart(bytes, a, q) <==> MayStart(bytes, b, q)
    ensures Fills(bytes, a, ds) ==> Fills(bytes, b, ds)
  {
    hide IsSlot, MayStart;
    forall k: nat, q: nat | k <= |ds|
      ensures MayStart(bytes, EndOf(a, ds, k), q) <==> MayStart(bytes, EndOf(b, ds, k), q)
    {
    }
    if Fills(bytes, a, ds) {
      forall k | 0 <= k < |ds| ensures NextStart(bytes, EndOf(b, ds, k), ds[k].at) {
        assert NextStart(bytes, EndOf(a, ds, k), ds[k].at);
      }
    }
  }

  lemma StartsHere(bytes: seq<Byte>, from: nat, at: nat)
    requires Room(bytes, from)
    ensures NextStart(bytes, from, at) <==> at == from
  {
    assert MayStart(bytes, from, from);
  }

  lemma NextEnd(from: nat, ds: seq<Dentry>, k: nat)
    requires k < |ds| && ds[0].at == from
    ensures EndOf(from + ds[0].span, ds[1..], k) == EndOf(from, ds, k + 1)
  {
    assert k > 0 ==> ds[1..][k - 1] == ds[k];
  }

  lemma {:induction false} RestFills(bytes: seq<Byte>, from: nat, ds: seq<Dentry>)
    requires ds != [] && ds[0].at == from && Fills(bytes, from, ds)
    ensures IsSlot(bytes, ds[0]) && Fills(bytes, from + ds[0].span, ds[1..])
  {
    hide IsSlot, MayStart, NextStart, EndOf;
    var rest, after := ds[1..], from + ds[0].span;
    forall k: nat | k < |rest| ensures IsSlot(bytes, rest[k]) && NextStart(bytes, EndOf(after, rest, k), rest[k].at) {
      NextEnd(from, ds, k);
      assert rest[k] == ds[k + 1];
    }
    NextEnd(from, ds, |rest|);
  }

  lemma {:induction false} WholeFills(bytes: seq<Byte>, from: nat, ds: seq<Dentry>)
    requires ds != [] && IsSlot(bytes, ds[0]) && ds[0].at == from && NextStart(bytes, from, from)
    requires Fills(bytes, from + ds[0].span, ds[1..])
    ensures Fills(bytes, from, ds)
  {
    hide IsSlot, MayStart, NextStart, EndOf;
    var rest, after := ds[1..], from + ds[0].span;
    FirstEnd(from, ds);
    forall k: nat | k < |ds| ensures IsSlot(bytes, ds[k]) && NextStart(bytes, EndOf(from, ds, k), ds[k].at) {
      if k > 0 {
        NextEnd(from, ds, k - 1);
        assert ds[k] == rest[k - 1];
      }
    }
    NextEnd(from, ds, |rest|);
  }

  lemma FirstEnd(from: nat, ds: seq<Dentry>)
    ensures EndOf(from, ds, 0) == from
  {
  }

  /** The first slot, and then the others. */
  lemma {:induction false} FirstFills(bytes: seq<Byte>, from: nat, ds: seq<Dentry>)
    requires Room(bytes, from)
    ensures Fills(bytes, from, ds) <==>
      ds != [] && ds[0].at == from && IsSlot(bytes, ds[0]) && Fills(bytes, from + ds[0].span, ds[1..])
  {
    hide IsSlot, MayStart, NextStart, Room, EndOf;
    FirstEnd(from, ds);
    HereMayStart(bytes, from);
    StartsHere(bytes, from, from);
    if ds != [] {
      StartsHere(bytes, from, ds[0].at);
      if Fills(bytes, from, ds) {
        assert NextStart(bytes, EndOf(from, ds, 0), ds[0].at);
        RestFills(bytes, from, ds);
      }
      if ds[0].at == from && IsSlot(bytes, ds[0]) && Fills(bytes, from + ds[0].span, ds[1..]) {
        WholeFills(bytes, from, ds);
      }
    }
  }

  lemma HereMayStart(bytes: seq<Byte>, from: nat)
    requires Room(bytes, from)
    ensures MayStart(bytes, from, from)
  {
  }

  /** Parsing succeeds exactly where slots fill the directory, and those are then the slots it finds. */
  lemma {:induction false} ScanIff(bytes: seq<Byte>, from: nat, ds: seq<Dentry>)
    ensures Scan(bytes, from) == Some(ds) <==> Fills(bytes, from, ds)
    decreases |bytes| - from
  {
    hide IsSlot, MayStart, NextStart, DentryAt, Fills, Room, SectorEnd;
    RoomIff(bytes, from);
    if from >= |bytes| {
      NowhereLeft(bytes, from);
      NoneFill(bytes, from, ds);
    } else if !Room(bytes, from) {
      forall q: nat ensures MayStart(bytes, from, q) <==> MayStart(bytes, SectorEnd(bytes, from), q) {
        RestOfSector(bytes, from, q);
      }
      RestOfSector(bytes, from, from);
      ScanIff(bytes, SectorEnd(bytes, from), ds);
      SameStart(bytes, from, SectorEnd(bytes, from), ds);
      SameStart(bytes, SectorEnd(bytes, from), from, ds);
    } else {
      FirstFills(bytes, from, ds);
      if ds != [] && ds[0].at == from {
        SlotIff(bytes, ds[0]);
        if IsSlot(bytes, ds[0]) {
          SlotsAreLong(bytes, ds[0]);
          ScanIff(bytes, from + ds[0].span, ds[1..]);
          assert ds == [ds[0]] + ds[1..];
        }
      }
      SlotIsThere(bytes, from);
    }
  }

  lemma SlotsAreLong(bytes: seq<Byte>, d: Dentry)
    requires IsSlot(bytes, d)
    ensures d.span >= 8 && d.at + d.span <= |bytes|
  {
  }

  lemma NoneFill(bytes: seq<Byte>, from: nat, ds: seq<Dentry>)
    requires forall q: nat :: !MayStart(bytes, from, q)
    ensures Fills(bytes, from, ds) <==> ds == []
  {
    hide IsSlot, MayStart;
    assert ds != [] && Fills(bytes, from, ds) ==> NextStart(bytes, EndOf(from, ds, 0), ds[0].at);
  }

  lemma SlotIsThere(bytes: seq<Byte>, from: nat)
    requires from + 8 <= SectorEnd(bytes, from)
    ensures DentryAt(bytes, from).Some? ==> DentryAt(bytes, from).value.at == from
  {
  }

  // ---- what is listed ----

  /** The slot holds an entry to be listed. */
  predicate Lists(d: Dentry, dots: bool) {
    d.number != 0 && |d.name| > 0 && (dots || (Text(d.name) != "." && Text(d.name) != ".."))
  }

  /** `at` are, in order, the positions of the slots with an entry to be listed. */
  ghost predicate PicksListed(ds: seq<Dentry>, dots: bool, at: seq<nat>) {
    && (forall k :: 0 <= k < |at| ==> at[k] < |ds|)
    && (forall j, k :: 0 <= j < k < |at| ==> at[j] < at[k])
    && forall i :: 0 <= i < |ds| ==> (i in at <==> Lists(ds[i], dots))
  }

  ghost predicate EntriesMatch(ds: seq<Dentry>, at: seq<nat>, es: seq<DirEntry>) {
    && |es| == |at|
    && forall k :: 0 <= k < |at| ==>
      at[k] < |ds| && var d := ds[at[k]]; es[k] == DirEntry(Text(d.name), BlockInfo(d.number, d.subpart, 1), d.mode)
  }

  function Later(at: seq<nat>): (r: seq<nat>)
    ensures |r| == |at| && forall k :: 0 <= k < |r| ==> r[k] == at[k] + 1
  {
    seq(|at|, (k: nat) requires k < |at| => at[k] + 1)
  }

  lemma {:induction false} PicksFirst(d: Dentry, ds: seq<Dentry>, dots: bool, at: seq<nat>)
    requires PicksListed(ds, dots, at)
    ensures PicksListed([d] + ds, dots, (if Lists(d, dots) then [0] else []) + Later(at))
  {
    hide Lists;
    var all, picked := [d] + ds, (if Lists(d, dots) then [0] else []) + Later(at);
    forall i | 0 <= i < |all| ensures i in picked <==> Lists(all[i], dots) {
      if i > 0 {
        assert all[i] == ds[i - 1];
        if i - 1 in at {
          var k :| 0 <= k < |at| && at[k] == i - 1;
          assert Later(at)[k] == i && i in Later(at);
        }
        if i in picked {
          assert i in Later(at);
          var k :| 0 <= k < |at| && Later(at)[k] == i;
        }
      }
    }
  }

  lemma {:induction false} LiveIsPicked(ds: seq<Dentry>, dots: bool)
    ensures exists at :: PicksListed(ds, dots, at) && EntriesMatch(ds, at, Live(ds, dots))
  {
    hide Lists, IsLive, Text, PicksListed, EntriesMatch, EntryOf, Later;
    if ds == [] {
      NothingListed(dots);
    } else {
      var d, rest := ds[0], ds[1..];
      LiveIsPicked(rest, dots);
      var at :| PicksListed(rest, dots, at) && EntriesMatch(rest, at, Live(rest, dots));
      PicksFirst(d, rest, dots, at);
      LiveMeans(d, dots);
      MatchFirst(d, rest, dots, at, Live(rest, dots));
      assert ds == [d] + rest;
    }
  }

  lemma {:induction false} NothingListed(dots: bool)
    ensures PicksListed([], dots, []) && EntriesMatch([], [], Live([], dots))
  {
  }

  lemma LiveMeans(d: Dentry, dots: bool)
    ensures IsLive(d, dots) <==> Lists(d, dots)
  {
  }

  lemma {:induction false} MatchFirst(d: Dentry, ds: seq<Dentry>, dots: bool, at: seq<nat>, es: seq<DirEntry>)
    requires EntriesMatch(ds, at, es)
    ensures EntriesMatch([d] + ds, (if Lists(d, dots) then [0] else []) + Later(at),
                         (if Lists(d, dots) then [EntryOf(d)] else []) + es)
  {
    hide Lists, Text;
  }

  /**
   * A directory's bytes are listed exactly when slots fill them; the entries are those of the slots
   * in use, dot entries only on request, in the order of the slots.
   */
  lemma ParseMeaning(bytes: seq<Byte>, dots: bool)
    ensures Parse(bytes, dots).Some? <==> exists ds :: Fills(bytes, 0, ds)
    ensures forall ds :: Fills(bytes, 0, ds) && Parse(bytes, dots).Some? ==>
      exists at :: PicksListed(ds, dots, at) && EntriesMatch(ds, at, Parse(bytes, dots).value)
  {
    hide Scan, Live, Fills, PicksListed, EntriesMatch;
    if Parse(bytes, dots).Some? {
      ScanIff(bytes, 0, Scan(bytes, 0).value);
    }
    forall ds | Fills(bytes, 0, ds)
      ensures Parse(bytes, dots).Some?
      ensures exists at :: PicksListed(ds, dots, at) && EntriesMatch(ds, at, Parse(bytes, dots).value)
    {
      ScanIff(bytes, 0, ds);
      LiveIsPicked(ds, dots);
    }
  }
}

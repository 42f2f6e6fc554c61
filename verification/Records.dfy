/**
 * On-disk records as the 32-bit words they are made of, for the encoders: the sum over words given
 * here is independent of the one the readers take over bytes.
 */
module Records {
  import opened Bytes
  import opened PfsFormat

  /** The bytes of a word, least significant first. */
  function WordBytes(w: U32): (r: seq<Byte>)
    ensures |r| == 4
  {
    [w % 0x100, w / 0x100 % 0x100, w / 0x1_0000 % 0x100, w / 0x100_0000]
  }

  function Encode(ws: seq<U32>): (r: seq<Byte>)
    ensures |r| == 4 * |ws|
  {
    if ws == [] then [] else Encode(ws[..|ws| - 1]) + WordBytes(ws[|ws| - 1])
  }

  function Sum(ws: seq<U32>): nat {
    if ws == [] then 0 else ws[0] + Sum(ws[1..])
  }

  lemma {:induction false} EncodedWord(ws: seq<U32>, i: nat)
    requires i < |ws|
    ensures Encode(ws)[4 * i..4 * i + 4] == WordBytes(ws[i])
  {
    hide WordBytes;
    if i < |ws| - 1 {
      EncodedWord(ws[..|ws| - 1], i);
      assert Encode(ws)[4 * i..4 * i + 4] == Encode(ws[..|ws| - 1])[4 * i..4 * i + 4];
    }
  }

  /** Loads read words and their halves back. */
  lemma {:induction false} LoadsWord(ws: seq<U32>, i: nat)
    requires i < |ws|
    ensures Load32(Encode(ws), 4 * i) == ws[i]
    ensures Load16(Encode(ws), 4 * i) == ws[i] % 0x1_0000 && Load16(Encode(ws), 4 * i + 2) == ws[i] / 0x1_0000
  {
    hide Encode;
    EncodedWord(ws, i);
    var s, w := Encode(ws), ws[i];
    assert forall k :: 4 * i <= k < 4 * i + 4 ==> s[k] == s[4 * i..4 * i + 4][k - 4 * i];
  }

  lemma {:induction false} LoadsDouble(ws: seq<U32>, i: nat)
    requires i + 1 < |ws|
    ensures var low: nat, high: nat := ws[i], ws[i + 1]; Load64(Encode(ws), 4 * i) == low + 0x1_0000_0000 * high
  {
    hide Encode, Load32;
    LoadsWord(ws, i);
    LoadsWord(ws, i + 1);
  }

  lemma {:induction false} TotalIsSum(ws: seq<U32>, k: nat)
    requires k <= |ws|
    ensures WordTotal(Encode(ws), 4 * k) == Sum(ws[k..])
    decreases |ws| - k
  {
    hide Encode, Load32;
    if k < |ws| {
      LoadsWord(ws, k);
      TotalIsSum(ws, k + 1);
      assert ws[k..][1..] == ws[k + 1..];
    }
  }

  /** A metadata record: the sum of its other words, and these. */
  function Sealed(ws: seq<U32>): (r: seq<Byte>)
    requires |ws| == 255
    ensures |r| == METADATA_SIZE
  {
    Encode([Sum(ws) % 0x1_0000_0000] + ws)
  }

  /** The readers accept the checksum of a record exactly when its first word is the sum of the others. */
  lemma {:induction false} ChecksumIsSum(ws: seq<U32>)
    requires |ws| == 256
    ensures Checksum(Encode(ws)) == Sum(ws[1..]) % 0x1_0000_0000 && Load32(Encode(ws), 0) == ws[0]
  {
    hide Encode, WordTotal, Sum;
    TotalIsSum(ws, 1);
    LoadsWord(ws, 0);
  }

  lemma {:induction false} BytesAreWord(s: seq<Byte>)
    requires |s| == 4
    ensures s == WordBytes(Load32(s, 0))
  {
    var a: nat, b: nat, c: nat, d: nat := s[0], s[1], s[2], s[3];
    var w := Load32(s, 0);
    assert w == a + 0x100 * b + 0x1_0000 * c + 0x100_0000 * d;
    assert w / 0x100 == b + 0x100 * c + 0x1_0000 * d;
    assert w / 0x1_0000 == c + 0x100 * d;
  }

  /** Every record is made of words. */
  function Words(s: seq<Byte>): (ws: seq<U32>)
    requires |s| % 4 == 0
    ensures 4 * |ws| == |s| && Encode(ws) == s
  {
    if s == [] then []
    else
      var front := s[..|s| - 4];
      var ws := Words(front) + [Load32(s[|s| - 4..], 0)];
      BytesAreWord(s[|s| - 4..]);
      assert ws[..|ws| - 1] == Words(front);
      assert s == front + s[|s| - 4..];
      ws
  }
}

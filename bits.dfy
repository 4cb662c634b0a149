/**
  Word- and byte-level helpers shared by the SM3 and SM4 models: the 32-bit
  word operations (addition mod 2^32, xor, rotation), big-endian conversion
  between bytes and 32-bit words, and the big-endian encoding of a 64-bit
  length.

  The word operations are named functions rather than inline operators: the
  expressions of the hash rounds are then compared term by term instead of
  bit by bit.
 */
module Bits {

  const TWO_POW_64: nat := 0x1_0000_0000_0000_0000

  /** The machine type uint64_t. */
  type Uint64 = x: int | 0 <= x < TWO_POW_64

  /** uint32_t addition, which wraps around mod 2^32. */
  function Add(x: bv32, y: bv32): bv32 { x + y }

  function Xor(x: bv32, y: bv32): bv32 { x ^ y }

  /** Rotation left by n < 32 bits; n = 0 is the identity. */
  function Rotl(x: bv32, n: nat): bv32
    requires n < 32
  {
    x.RotateLeft(n)
  }

  /** Byte k (0 = most significant) of a word. */
  function ByteOf(w: bv32, k: nat): bv8
    requires k < 4
  {
    if k == 0 then (w >> 24) as bv8
    else if k == 1 then ((w >> 16) & 0xFF) as bv8
    else if k == 2 then ((w >> 8) & 0xFF) as bv8
    else (w & 0xFF) as bv8
  }

  /** The big-endian word held in b[off..off+4]. */
  function LoadBE32(b: seq<bv8>, off: nat): bv32
    requires off + 4 <= |b|
  {
    ((b[off] as bv32) << 24) | ((b[off + 1] as bv32) << 16) |
    ((b[off + 2] as bv32) << 8) | (b[off + 3] as bv32)
  }

  /** Big-endian serialization of a word sequence: word i at offset 4i. */
  function WordsToBytes(ws: seq<bv32>): (bs: seq<bv8>)
    ensures |bs| == 4 * |ws|
  {
    seq(4 * |ws|, i requires 0 <= i < 4 * |ws| => ByteOf(ws[i / 4], i % 4))
  }

  /** Big-endian decoding of a byte sequence into words. */
  function BytesToWords(bs: seq<bv8>): (ws: seq<bv32>)
    requires |bs| % 4 == 0
    ensures |ws| == |bs| / 4
  {
    seq(|bs| / 4, i requires 0 <= i < |bs| / 4 => LoadBE32(bs, 4 * i))
  }

  /** Loading the four bytes of a word gives the word back. */
  lemma LoadStoreWord(w: bv32)
    ensures ((ByteOf(w, 0) as bv32) << 24) | ((ByteOf(w, 1) as bv32) << 16) |
            ((ByteOf(w, 2) as bv32) << 8) | (ByteOf(w, 3) as bv32) == w
  {
  }

  /** Splitting a loaded word gives the four bytes back. */
  lemma StoreLoadWord(b0: bv8, b1: bv8, b2: bv8, b3: bv8)
    ensures var w := ((b0 as bv32) << 24) | ((b1 as bv32) << 16) | ((b2 as bv32) << 8) | (b3 as bv32);
            ByteOf(w, 0) == b0 && ByteOf(w, 1) == b1 && ByteOf(w, 2) == b2 && ByteOf(w, 3) == b3
  {
  }

  /** Byte m of the word loaded at off is the byte at off + m. */
  lemma ByteOfLoad(b: seq<bv8>, off: nat, m: nat)
    requires off + 4 <= |b| && m < 4
    ensures ByteOf(LoadBE32(b, off), m) == b[off + m]
  {
    var b0, b1, b2, b3 := b[off], b[off + 1], b[off + 2], b[off + 3];
    var w := ((b0 as bv32) << 24) | ((b1 as bv32) << 16) | ((b2 as bv32) << 8) | (b3 as bv32);
    assert LoadBE32(b, off) == w;
    StoreLoadWord(b0, b1, b2, b3);
  }

  /** Byte k of word i sits at offset 4i + k of the serialization. */
  lemma WordsToBytesAt(ws: seq<bv32>, i: nat, k: nat)
    requires i < |ws| && k < 4
    ensures WordsToBytes(ws)[4 * i + k] == ByteOf(ws[i], k)
  {
    assert (4 * i + k) / 4 == i && (4 * i + k) % 4 == k;
  }

  /** Word i is read back from offset 4i of the serialization. */
  lemma DecodeWordAt(ws: seq<bv32>, i: nat)
    requires i < |ws|
    ensures LoadBE32(WordsToBytes(ws), 4 * i) == ws[i]
  {
    WordsToBytesAt(ws, i, 0);
    WordsToBytesAt(ws, i, 1);
    WordsToBytesAt(ws, i, 2);
    WordsToBytesAt(ws, i, 3);
    LoadStoreWord(ws[i]);
  }

  /** Decoding inverts serialization. */
  lemma {:induction false} DecodeEncode(ws: seq<bv32>)
    ensures BytesToWords(WordsToBytes(ws)) == ws
  {
    forall i | 0 <= i < |ws|
      ensures BytesToWords(WordsToBytes(ws))[i] == ws[i]
    {
      DecodeWordAt(ws, i);
    }
  }

  /** Byte i is written back at offset i by serializing the decoded words. */
  lemma EncodeByteAt(bs: seq<bv8>, i: nat)
    requires |bs| % 4 == 0 && i < |bs|
    ensures WordsToBytes(BytesToWords(bs))[i] == bs[i]
  {
    var q, k := i / 4, i % 4;
    assert i == 4 * q + k;
    WordsToBytesAt(BytesToWords(bs), q, k);
    ByteOfLoad(bs, 4 * q, k);
  }

  /** Serialization inverts decoding. */
  lemma {:induction false} EncodeDecode(bs: seq<bv8>)
    requires |bs| % 4 == 0
    ensures WordsToBytes(BytesToWords(bs)) == bs
  {
    forall i | 0 <= i < |bs|
      ensures WordsToBytes(BytesToWords(bs))[i] == bs[i]
    {
      EncodeByteAt(bs, i);
    }
  }

  /** Byte i (0 = most significant) of a 64-bit value: bits 63 - 8i down
      to 56 - 8i. */
  function ByteOf64(x: bv64, i: nat): bv8
    requires i < 8
  {
    if i == 0 then ((x >> 56) & 0xFF) as bv8
    else if i == 1 then ((x >> 48) & 0xFF) as bv8
    else if i == 2 then ((x >> 40) & 0xFF) as bv8
    else if i == 3 then ((x >> 32) & 0xFF) as bv8
    else if i == 4 then ((x >> 24) & 0xFF) as bv8
    else if i == 5 then ((x >> 16) & 0xFF) as bv8
    else if i == 6 then ((x >> 8) & 0xFF) as bv8
    else (x & 0xFF) as bv8
  }

  /** The eight big-endian bytes of a uint64 value. */
  function BE64(x: Uint64): (r: seq<bv8>)
    ensures |r| == 8
  {
    var b := x as bv64;
    [ByteOf64(b, 0), ByteOf64(b, 1), ByteOf64(b, 2), ByteOf64(b, 3),
     ByteOf64(b, 4), ByteOf64(b, 5), ByteOf64(b, 6), ByteOf64(b, 7)]
  }

  /** Byte i of the encoding is byte i of the value. */
  lemma BE64At(x: Uint64, i: nat)
    requires i < 8
    ensures BE64(x)[i] == ByteOf64(x as bv64, i)
  {
  }

  /** Reading the eight bytes back as a big-endian number gives x. */
  lemma BE64Value(x: Uint64)
    ensures var r := BE64(x);
            (((r[0] as bv64) << 56) | ((r[1] as bv64) << 48) | ((r[2] as bv64) << 40) | ((r[3] as bv64) << 32) |
             ((r[4] as bv64) << 24) | ((r[5] as bv64) << 16) | ((r[6] as bv64) << 8) | (r[7] as bv64)) == x as bv64
  {
    var b := x as bv64;
    Join64(b);
  }

  lemma Join64(b: bv64)
    ensures ((((b >> 56) & 0xFF) as bv8 as bv64) << 56) | ((((b >> 48) & 0xFF) as bv8 as bv64) << 48) |
            ((((b >> 40) & 0xFF) as bv8 as bv64) << 40) | ((((b >> 32) & 0xFF) as bv8 as bv64) << 32) |
            ((((b >> 24) & 0xFF) as bv8 as bv64) << 24) | ((((b >> 16) & 0xFF) as bv8 as bv64) << 16) |
            ((((b >> 8) & 0xFF) as bv8 as bv64) << 8) | ((b & 0xFF) as bv8 as bv64) == b
  {
  }

  /** The byte count mod 64 survives the uint64 wrap-around of the bit count. */
  lemma {:induction false} WrappedBitCount(n: nat)
    ensures (8 * n) % TWO_POW_64 / 8 % 64 == n % 64
  {
    var q := (8 * n) / TWO_POW_64;
    var r := (8 * n) % TWO_POW_64;
    assert 8 * n == TWO_POW_64 * q + r;
    var m := n - 0x2000_0000_0000_0000 * q;
    assert r == 8 * m;
    assert r / 8 == m;
    assert n == m + 64 * (0x0080_0000_0000_0000 * q);
  }

  lemma {:induction false} ModShift(x: int, q: int)
    ensures (x - TWO_POW_64 * q) % TWO_POW_64 == x % TWO_POW_64
  {
    var r := x % TWO_POW_64;
    var d := x / TWO_POW_64;
    assert x - TWO_POW_64 * q == TWO_POW_64 * (d - q) + r;
  }

  /** One iteration of a big-endian output loop: the four bytes of word i
      of ws go to a[4i..4i+4). */
  method StoreWord(a: array<bv8>, ghost ws: seq<bv32>, w: bv32, i: nat)
    requires a.Length == 4 * |ws| && i < |ws| && w == ws[i]
    requires forall k :: 0 <= k < 4 * i ==> a[k] == WordsToBytes(ws)[k]
    modifies a
    ensures forall k :: 0 <= k < 4 * i + 4 ==> a[k] == WordsToBytes(ws)[k]
  {
    a[4 * i] := ByteOf(w, 0);
    a[4 * i + 1] := ByteOf(w, 1);
    a[4 * i + 2] := ByteOf(w, 2);
    a[4 * i + 3] := ByteOf(w, 3);
    WordsToBytesAt(ws, i, 0);
    WordsToBytesAt(ws, i, 1);
    WordsToBytesAt(ws, i, 2);
    WordsToBytesAt(ws, i, 3);
  }
}

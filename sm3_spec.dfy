/**
  The SM3 hash function of GB/T 32905-2016 as pure functions: the constants
  and functions of its section 4, the padding of section 5.2, the message
  expansion of section 5.3.2, the compression function of section 5.3.3 and
  the iterated hash of section 5.4.

  Every backend (reference, unrolled, single-pass, AVX2 lanes) is proved
  against these definitions.
 */
module Sm3Spec {
  import opened Bits

  type Word = bv32
  type Byte = bv8

  /** The initial value V(0). */
  const IV: seq<Word> := [0x7380166F, 0x4914B2B9, 0x172442D7, 0xDA8A0600,
                          0xA96F30BC, 0x163138AA, 0xE38DEE4D, 0xB0FB0E4E]

  /** The round constant T_j. */
  function T(j: nat): Word {
    if j < 16 then 0x79CC4519 else 0x7A879D8A
  }

  /** T_j rotated left by j mod 32: the constant added in round j. */
  function TjRot(j: nat): Word {
    Rotl(T(j), j % 32)
  }

  /** The boolean function FF_j: xor for j < 16, majority afterwards. */
  function FF(a: Word, b: Word, c: Word, j: nat): Word {
    if j < 16 then Xor(Xor(a, b), c) else (a & b) | (a & c) | (b & c)
  }

  /** The boolean function GG_j: xor for j < 16, choose afterwards. */
  function GG(e: Word, f: Word, g: Word, j: nat): Word {
    if j < 16 then Xor(Xor(e, f), g) else (e & f) | (!e & g)
  }

  /** The permutation P0 of the compression function. */
  function P0(x: Word): Word {
    Xor(Xor(x, Rotl(x, 9)), Rotl(x, 17))
  }

  /** The permutation P1 of the message expansion. */
  function P1(x: Word): Word {
    Xor(Xor(x, Rotl(x, 15)), Rotl(x, 23))
  }

  function SS1(a: Word, e: Word, tjRot: Word): Word {
    Rotl(Add(Add(Rotl(a, 12), e), tjRot), 7)
  }

  function SS2(ss1: Word, a: Word): Word {
    Xor(ss1, Rotl(a, 12))
  }

  /** The four-term sums TT1 and TT2 of a round. */
  function Sum4(x: Word, y: Word, z: Word, w: Word): Word {
    Add(Add(Add(x, y), z), w)
  }

  /** The eight working registers A..H. */
  datatype Regs = Regs(a: Word, b: Word, c: Word, d: Word, e: Word, f: Word, g: Word, h: Word)

  function RegsOf(v: seq<Word>): Regs
    requires |v| == 8
  {
    Regs(v[0], v[1], v[2], v[3], v[4], v[5], v[6], v[7])
  }

  /** The registers as the word sequence A, B, .., H. */
  function Words(r: Regs): (s: seq<Word>)
    ensures |s| == 8
  {
    [r.a, r.b, r.c, r.d, r.e, r.f, r.g, r.h]
  }

  /** The register update every backend shares, given the round's rotated
      constant and the values of its two boolean functions. */
  function RoundWith(r: Regs, tjRot: Word, ff: Word, gg: Word, wj: Word, wpj: Word): Regs {
    var ss1 := SS1(r.a, r.e, tjRot);
    Regs(Sum4(ff, r.d, SS2(ss1, r.a), wpj), r.a, Rotl(r.b, 9), r.c,
         P0(Sum4(gg, r.h, ss1, wj)), r.e, Rotl(r.f, 19), r.g)
  }

  /** Round j of the compression function over message words W_j and W'_j. */
  function Round(r: Regs, j: nat, wj: Word, wpj: Word): Regs {
    RoundWith(r, TjRot(j), FF(r.a, r.b, r.c, j), GG(r.e, r.f, r.g, j), wj, wpj)
  }

  /** The expansion recurrence, given W_{i-16}, W_{i-9}, W_{i-3}, W_{i-13}
      and W_{i-6}. */
  function ExpandWord(w16: Word, w9: Word, w3: Word, w13: Word, w6: Word): Word {
    Xor(Xor(P1(Xor(Xor(w16, w9), Rotl(w3, 15))), Rotl(w13, 7)), w6)
  }

  /** The value of W_i from the words before it. */
  function NextW(w: seq<Word>, i: nat): Word
    requires 16 <= i <= |w|
  {
    ExpandWord(w[i - 16], w[i - 9], w[i - 3], w[i - 13], w[i - 6])
  }

  /** W_0 .. W_{n-1}, built word by word from the sixteen block words. */
  function ExpandTo(w16: seq<Word>, n: nat): (w: seq<Word>)
    requires |w16| == 16 && 16 <= n <= 68
    ensures |w| == n
    decreases n
  {
    if n == 16 then w16 else var p := ExpandTo(w16, n - 1); p + [NextW(p, n - 1)]
  }

  /** The expanded words start with the block words and satisfy the
      expansion recurrence of section 5.3.2 from word 16 on. */
  lemma {:induction false} ExpandRecurrence(w16: seq<Word>, n: nat)
    requires |w16| == 16 && 16 <= n <= 68
    ensures var w := ExpandTo(w16, n);
            w[..16] == w16 && forall i {:trigger NextW(w, i)} :: 16 <= i < n ==> w[i] == NextW(w, i)
    decreases n
  {
    if n > 16 {
      ExpandRecurrence(w16, n - 1);
      var p := ExpandTo(w16, n - 1);
      var w := ExpandTo(w16, n);
      assert w == p + [NextW(p, n - 1)];
      forall i | 16 <= i < n
        ensures w[i] == NextW(w, i)
      {
        if i < n - 1 {
          assert NextW(w, i) == NextW(p, i);
        }
      }
    }
  }

  /** The 68 expanded words W_0 .. W_67 of a block. */
  function Expand(block: seq<Byte>): (w: seq<Word>)
    requires |block| == 64
    ensures |w| == 68
  {
    var w16 := BytesToWords(block);
    ExpandTo(w16, |w16| + 52)
  }

  /** The expanded words of a block start with its sixteen big-endian words
      and satisfy the expansion recurrence from word 16 on. */
  lemma ExpandShape(block: seq<Byte>)
    requires |block| == 64
    ensures var w := Expand(block);
            w[..16] == BytesToWords(block) &&
            forall i {:trigger NextW(w, i)} :: 16 <= i < 68 ==> w[i] == NextW(w, i)
  {
    var w16 := BytesToWords(block);
    ExpandRecurrence(w16, |w16| + 52);
  }

  /** The 64 words W'_j = W_j xor W_{j+4}. */
  function WPrime(w: seq<Word>): (wp: seq<Word>)
    requires |w| == 68
    ensures |wp| == 64
  {
    seq(64, j requires 0 <= j < 64 => Xor(w[j], w[j + 4]))
  }

  /** The registers after rounds 0 .. j-1, from r0. */
  function RoundsUpTo(r0: Regs, w: seq<Word>, wp: seq<Word>, j: nat): Regs
    requires |w| == 68 && |wp| == 64 && j <= 64
  {
    if j == 0 then r0 else Round(RoundsUpTo(r0, w, wp, j - 1), j - 1, w[j - 1], wp[j - 1])
  }

  /** The new chaining value: the old one xor the final registers. */
  function FeedForward(v: seq<Word>, r: Regs): (v': seq<Word>)
    requires |v| == 8
    ensures |v'| == 8
  {
    seq(8, i requires 0 <= i < 8 => Xor(v[i], Words(r)[i]))
  }

  /** The compression function CF(V, B). */
  function Compress(v: seq<Word>, block: seq<Byte>): (v': seq<Word>)
    requires |v| == 8 && |block| == 64
    ensures |v'| == 8
  {
    var w := Expand(block);
    FeedForward(v, RoundsUpTo(RegsOf(v), w, WPrime(w), |WPrime(w)|))
  }

  /** Compression iterated over the blocks of a block-aligned message. */
  function Iterate(v: seq<Word>, m: seq<Byte>): (v': seq<Word>)
    requires |v| == 8 && |m| % 64 == 0
    ensures |v'| == 8
    decreases |m|
  {
    if |m| == 0 then v else Compress(Iterate(v, m[..|m| - 64]), m[|m| - 64..])
  }

  /** Iterating over no blocks leaves the chaining value as it is. */
  lemma IterateEmpty(v: seq<Word>)
    requires |v| == 8
    ensures Iterate(v, []) == v
  {
  }

  /** Compress unfolded over given expanded words and final registers. */
  lemma CompressBy(v: seq<Word>, block: seq<Byte>, w: seq<Word>, wp: seq<Word>, r: Regs)
    requires |v| == 8 && |block| == 64
    requires w == Expand(block) && wp == WPrime(w) && r == RoundsUpTo(RegsOf(v), w, wp, |wp|)
    ensures Compress(v, block) == FeedForward(v, r)
  {
  }

  /** Iterating over a + b is iterating over a, then over b. */
  lemma {:induction false} IterateAppend(v: seq<Word>, a: seq<Byte>, b: seq<Byte>)
    requires |v| == 8 && |a| % 64 == 0 && |b| % 64 == 0
    ensures Iterate(v, a + b) == Iterate(Iterate(v, a), b)
    decreases |b|
  {
    if |b| == 0 {
      assert a + b == a;
    } else {
      Aligned(|b|);
      var b', last := b[..|b| - 64], b[|b| - 64..];
      assert b == b' + last;
      assert a + b == (a + b') + last;
      calc {
        Iterate(v, a + b);
        { IterateBlock(v, a + b', last); }
        Compress(Iterate(v, a + b'), last);
        { IterateAppend(v, a, b'); }
        Compress(Iterate(Iterate(v, a), b'), last);
        { IterateBlock(Iterate(v, a), b', last); }
        Iterate(Iterate(v, a), b);
      }
    }
  }

  /** A nonzero multiple of 64 has another multiple of 64 below it. */
  lemma Aligned(n: nat)
    requires n % 64 == 0 && n != 0
    ensures n >= 64 && (n - 64) % 64 == 0
  {
  }

  /** Iterating over one more block compresses it into the previous value. */
  lemma IterateBlock(v: seq<Word>, m: seq<Byte>, block: seq<Byte>)
    requires |v| == 8 && |m| % 64 == 0 && |block| == 64
    ensures Iterate(v, m + block) == Compress(Iterate(v, m), block)
  {
    assert (m + block)[..|m + block| - 64] == m;
    assert (m + block)[|m + block| - 64..] == block;
  }

  function Zeros(n: nat): (z: seq<Byte>)
    ensures |z| == n && forall i :: 0 <= i < n ==> z[i] == 0
  {
    seq(n, i => 0)
  }

  /** The number of zero bytes between 0x80 and the length field. */
  function PadZeros(len: nat): nat {
    (55 - len % 64) % 64
  }

  /** The padding appended to a len-byte message: 0x80, zeros up to 56 mod 64,
      then the bit count as a big-endian uint64 (which wraps mod 2^64). */
  function Padding(len: nat): seq<Byte> {
    [0x80] + Zeros(PadZeros(len)) + BE64((8 * len) % TWO_POW_64)
  }

  /** The padding is 9 to 72 bytes long and makes the message block-aligned;
      it is 0x80, then zeros, then the big-endian bit count. */
  lemma PaddingShape(len: nat)
    ensures var p := Padding(len);
            9 <= |p| <= 72 && (len + |p|) % 64 == 0 &&
            p[0] == 0x80 && (forall i :: 0 < i < |p| - 8 ==> p[i] == 0) &&
            p[|p| - 8..] == BE64((8 * len) % TWO_POW_64)
  {
    var p := Padding(len);
    assert |p| == PadZeros(len) + 9;
    assert p[|p| - 8..] == BE64((8 * len) % TWO_POW_64);
  }

  /** SM3(m): the serialized result of iterating over the padded message. */
  function Hash(m: seq<Byte>): (d: seq<Byte>)
    ensures |d| == 32
  {
    PaddingShape(|m|);
    WordsToBytes(Iterate(IV, m + Padding(|m|)))
  }
}

/**
  The eight-way compression sm3_compress_avx2: eight independent SM3
  compressions, one per 32-bit lane of eight 256-bit register vectors.

  A 256-bit vector is a sequence of eight words, lane k being word k, and
  every vector instruction the routine uses acts lane by lane. The layout
  is the one the routine's loads use: the 64-word state is word-major,
  V[8w + k] holding word w of lane k, and the 512 bytes of message hold
  word i of lane k at offset 32i + 4k.
 */
module Sm3Avx2 {
  import opened Bits
  import opened Sm3Spec
  import Sm3Unrolled

  /** A __m256i register as eight 32-bit lanes. */
  type Vec = s: seq<Word> | |s| == 8 witness [0, 0, 0, 0, 0, 0, 0, 0]

  function VAdd(x: Vec, y: Vec): Vec { seq(8, k requires 0 <= k < 8 => Add(x[k], y[k])) }
  function VXor(x: Vec, y: Vec): Vec { seq(8, k requires 0 <= k < 8 => Xor(x[k], y[k])) }
  function VAnd(x: Vec, y: Vec): Vec { seq(8, k requires 0 <= k < 8 => x[k] & y[k]) }
  function VOr(x: Vec, y: Vec): Vec { seq(8, k requires 0 <= k < 8 => x[k] | y[k]) }
  function VNotAnd(x: Vec, y: Vec): Vec { seq(8, k requires 0 <= k < 8 => !x[k] & y[k]) }
  function VSet1(c: Word): Vec { seq(8, k requires 0 <= k < 8 => c) }

  /** One lane of rotl32_vec: the or of a left shift by n and a right shift
      by 32 - n. As with the AVX2 shifts, a shift by 32 gives 0. */
  function ShiftOr(w: Word, n: nat): Word
    requires n <= 32
  {
    (w << n) | (w >> (32 - n))
  }

  /** The shift-or at each amount 0..32. */
  lemma ShiftAmounts(w: Word)
    ensures ShiftOr(w, 0) == Rotl(w, 0)
    ensures ShiftOr(w, 1) == Rotl(w, 1)
    ensures ShiftOr(w, 2) == Rotl(w, 2)
    ensures ShiftOr(w, 3) == Rotl(w, 3)
    ensures ShiftOr(w, 4) == Rotl(w, 4)
    ensures ShiftOr(w, 5) == Rotl(w, 5)
    ensures ShiftOr(w, 6) == Rotl(w, 6)
    ensures ShiftOr(w, 7) == Rotl(w, 7)
    ensures ShiftOr(w, 8) == Rotl(w, 8)
    ensures ShiftOr(w, 9) == Rotl(w, 9)
    ensures ShiftOr(w, 10) == Rotl(w, 10)
    ensures ShiftOr(w, 11) == Rotl(w, 11)
    ensures ShiftOr(w, 12) == Rotl(w, 12)
    ensures ShiftOr(w, 13) == Rotl(w, 13)
    ensures ShiftOr(w, 14) == Rotl(w, 14)
    ensures ShiftOr(w, 15) == Rotl(w, 15)
    ensures ShiftOr(w, 16) == Rotl(w, 16)
    ensures ShiftOr(w, 17) == Rotl(w, 17)
    ensures ShiftOr(w, 18) == Rotl(w, 18)
    ensures ShiftOr(w, 19) == Rotl(w, 19)
    ensures ShiftOr(w, 20) == Rotl(w, 20)
    ensures ShiftOr(w, 21) == Rotl(w, 21)
    ensures ShiftOr(w, 22) == Rotl(w, 22)
    ensures ShiftOr(w, 23) == Rotl(w, 23)
    ensures ShiftOr(w, 24) == Rotl(w, 24)
    ensures ShiftOr(w, 25) == Rotl(w, 25)
    ensures ShiftOr(w, 26) == Rotl(w, 26)
    ensures ShiftOr(w, 27) == Rotl(w, 27)
    ensures ShiftOr(w, 28) == Rotl(w, 28)
    ensures ShiftOr(w, 29) == Rotl(w, 29)
    ensures ShiftOr(w, 30) == Rotl(w, 30)
    ensures ShiftOr(w, 31) == Rotl(w, 31)
    ensures ShiftOr(w, 32) == Rotl(w, 0)
  {
  }

  /** The shift-or is a rotation by n mod 32, for every amount 0..32. */
  lemma ShiftOrRotl(w: Word, n: nat)
    requires n <= 32
    ensures ShiftOr(w, n) == Rotl(w, n % 32)
  {
    hide ShiftOr, Rotl;
    ShiftAmounts(w);
    if n == 0 {
    } else if n == 1 {
    } else if n == 2 {
    } else if n == 3 {
    } else if n == 4 {
    } else if n == 5 {
    } else if n == 6 {
    } else if n == 7 {
    } else if n == 8 {
    } else if n == 9 {
    } else if n == 10 {
    } else if n == 11 {
    } else if n == 12 {
    } else if n == 13 {
    } else if n == 14 {
    } else if n == 15 {
    } else if n == 16 {
    } else if n == 17 {
    } else if n == 18 {
    } else if n == 19 {
    } else if n == 20 {
    } else if n == 21 {
    } else if n == 22 {
    } else if n == 23 {
    } else if n == 24 {
    } else if n == 25 {
    } else if n == 26 {
    } else if n == 27 {
    } else if n == 28 {
    } else if n == 29 {
    } else if n == 30 {
    } else if n == 31 {
    }
  }

  lemma VShiftOrRotl(x: Vec, n: nat)
    requires n <= 32
    ensures forall k :: 0 <= k < 8 ==> ShiftOr(x[k], n) == Rotl(x[k], n % 32)
  {
    forall k | 0 <= k < 8 {
      ShiftOrRotl(x[k], n);
    }
  }

  /** rotl32_vec rotates every lane by n mod 32: by n for 0 < n < 32, and
      not at all for n = 0 or 32. */
  function VRotl(x: Vec, n: nat): (r: Vec)
    requires n <= 32
    ensures n < 32 ==> forall k :: 0 <= k < 8 ==> r[k] == Rotl(x[k], n)
    ensures n == 0 || n == 32 ==> r == x
  {
    VShiftOrRotl(x, n);
    seq(8, k requires 0 <= k < 8 => ShiftOr(x[k], n))
  }

  /** P0 and P1 applied to a vector act on every lane. */
  function VP0(x: Vec): (r: Vec)
    ensures forall k :: 0 <= k < 8 ==> r[k] == P0(x[k])
  {
    VXor(VXor(x, VRotl(x, 9)), VRotl(x, 17))
  }

  function VP1(x: Vec): (r: Vec)
    ensures forall k :: 0 <= k < 8 ==> r[k] == P1(x[k])
  {
    VXor(VXor(x, VRotl(x, 15)), VRotl(x, 23))
  }

  /** The expansion recurrence on vectors is the recurrence in every lane. */
  function VExpandWord(w16: Vec, w9: Vec, w3: Vec, w13: Vec, w6: Vec): (r: Vec)
    ensures forall k :: 0 <= k < 8 ==> r[k] == ExpandWord(w16[k], w9[k], w3[k], w13[k], w6[k])
  {
    VXor(VXor(VP1(VXor(VXor(w16, w9), VRotl(w3, 15))), VRotl(w13, 7)), w6)
  }

  /** The register vectors A..H. */
  datatype VRegs = VRegs(a: Vec, b: Vec, c: Vec, d: Vec, e: Vec, f: Vec, g: Vec, h: Vec)

  /** The eight registers of lane k. */
  function Lane(v: VRegs, k: nat): Regs
    requires k < 8
  {
    Regs(v.a[k], v.b[k], v.c[k], v.d[k], v.e[k], v.f[k], v.g[k], v.h[k])
  }

  /** V[8w + k]: word w of lane k in the word-major layout. */
  function At(v: seq<Word>, w: nat, k: nat): Word
    requires |v| == 64 && w < 8 && k < 8
  {
    v[8 * w + k]
  }

  /** The eight state words of lane k. */
  function LaneState(v: seq<Word>, k: nat): (s: seq<Word>)
    requires |v| == 64 && k < 8
    ensures |s| == 8 && forall w :: 0 <= w < 8 ==> s[w] == At(v, w, k)
  {
    seq(8, w requires 0 <= w < 8 => At(v, w, k))
  }

  /** The sixteen message words of lane k: word i at byte offset 32i + 4k. */
  function LaneWords16(blocks: seq<Byte>, k: nat): (ws: seq<Word>)
    requires |blocks| == 512 && k < 8
    ensures |ws| == 16 && forall i :: 0 <= i < 16 ==> ws[i] == LoadBE32(blocks, 32 * i + 4 * k)
  {
    seq(16, i requires 0 <= i < 16 => LoadBE32(blocks, 32 * i + 4 * k))
  }

  /** The 64-byte block of lane k, whose big-endian words are the lane's
      sixteen message words. */
  function LaneBlock(blocks: seq<Byte>, k: nat): (b: seq<Byte>)
    requires |blocks| == 512 && k < 8
    ensures |b| == 64
  {
    WordsToBytes(LaneWords16(blocks, k))
  }

  /** Decoding lane k's block gives the lane's sixteen message words. */
  lemma LaneBlockWords(blocks: seq<Byte>, k: nat)
    requires |blocks| == 512 && k < 8
    ensures BytesToWords(LaneBlock(blocks, k)) == LaneWords16(blocks, k)
  {
    DecodeEncode(LaneWords16(blocks, k));
  }

  /** Byte m of word i of lane k's block is byte 32i + 4k + m of the
      message. */
  lemma LaneBlockBytes(blocks: seq<Byte>, k: nat, i: nat, m: nat)
    requires |blocks| == 512 && k < 8 && i < 16 && m < 4
    ensures LaneBlock(blocks, k)[4 * i + m] == blocks[32 * i + 4 * k + m]
  {
    WordsToBytesAt(LaneWords16(blocks, k), i, m);
    ByteOfLoad(blocks, 32 * i + 4 * k, m);
  }

  /** The routine's effect: state word w of lane k becomes word w of the
      compression of lane k's state and block. */
  function LanewiseCompress(v: seq<Word>, blocks: seq<Byte>): (v': seq<Word>)
    requires |v| == 64 && |blocks| == 512
    ensures |v'| == 64
  {
    seq(64, n requires 0 <= n < 64 => Compress(LaneState(v, n % 8), LaneBlock(blocks, n % 8))[n / 8])
  }

  /** Each lane of the result is the scalar compression of that lane. */
  lemma LaneIsCompress(v: seq<Word>, blocks: seq<Byte>, k: nat)
    requires |v| == 64 && |blocks| == 512 && k < 8
    ensures LaneState(LanewiseCompress(v, blocks), k) == Compress(LaneState(v, k), LaneBlock(blocks, k))
  {
    var out := LanewiseCompress(v, blocks);
    forall w | 0 <= w < 8
      ensures LaneState(out, k)[w] == Compress(LaneState(v, k), LaneBlock(blocks, k))[w]
    {
      LanewiseAt(v, blocks, w, k);
    }
  }

  /** Lanes are independent: lane k of the result depends only on lane k's
      state and block. */
  lemma LanesIndependent(v1: seq<Word>, b1: seq<Byte>, v2: seq<Word>, b2: seq<Byte>, k: nat)
    requires |v1| == 64 && |b1| == 512 && |v2| == 64 && |b2| == 512 && k < 8
    requires LaneState(v1, k) == LaneState(v2, k) && LaneBlock(b1, k) == LaneBlock(b2, k)
    ensures LaneState(LanewiseCompress(v1, b1), k) == LaneState(LanewiseCompress(v2, b2), k)
  {
    LaneIsCompress(v1, b1, k);
    LaneIsCompress(v2, b2, k);
  }

  /** load_be256 at offset 32i: the big-endian word i of each lane. */
  function LoadBE256(blocks: seq<Byte>, i: nat): (r: Vec)
    requires |blocks| == 512 && i < 16
  {
    seq(8, k requires 0 <= k < 8 => LoadBE32(blocks, 32 * i + 4 * k))
  }

  /** The first loop: W[i] = load_be256(blocks + 32i). */
  method LoadVecWords(W: array<Vec>, blocks: seq<Byte>)
    requires W.Length == 68 && |blocks| == 512
    modifies W
    ensures forall i, k :: 0 <= i < 16 && 0 <= k < 8 ==> W[i][k] == LaneWords16(blocks, k)[i]
  {
    for i := 0 to 16
      invariant forall i', k :: 0 <= i' < i && 0 <= k < 8 ==> W[i'][k] == LaneWords16(blocks, k)[i']
    {
      W[i] := LoadBE256(blocks, i);
    }
  }

  /** The expanded words of the eight lanes. */
  ghost function LaneWords(blocks: seq<Byte>): (ws: seq<seq<Word>>)
    requires |blocks| == 512
    ensures |ws| == 8 && forall k :: 0 <= k < 8 ==> ws[k] == Expand(LaneBlock(blocks, k))
  {
    seq(8, k requires 0 <= k < 8 => Expand(LaneBlock(blocks, k)))
  }

  /** The second loop: W[16..68) by the vector recurrence; lane k of W holds
      the expanded words of lane k's block. */
  method ExtendVecWords(W: array<Vec>, blocks: seq<Byte>)
    requires W.Length == 68 && |blocks| == 512
    requires forall i, k :: 0 <= i < 16 && 0 <= k < 8 ==> W[i][k] == LaneWords16(blocks, k)[i]
    modifies W
    ensures forall i, k :: 0 <= i < 68 && 0 <= k < 8 ==> W[i][k] == LaneWords(blocks)[k][i]
  {
    ghost var ws := LaneWords(blocks);
    forall k | 0 <= k < 8
      ensures ws[k][..16] == LaneWords16(blocks, k)
      ensures forall j {:trigger NextW(ws[k], j)} :: 16 <= j < 68 ==> ws[k][j] == NextW(ws[k], j)
    {
      ExpandShape(LaneBlock(blocks, k));
      LaneBlockWords(blocks, k);
    }
    forall i, k | 0 <= i < 16 && 0 <= k < 8
      ensures W[i][k] == ws[k][i]
    {
      assert ws[k][i] == ws[k][..16][i];
    }
    for i := 16 to 68
      invariant forall i', k :: 0 <= i' < i && 0 <= k < 8 ==> W[i'][k] == ws[k][i']
    {
      VecExtendStep(W, ws, i);
    }
  }

  /** One step of the second loop. */
  method VecExtendStep(W: array<Vec>, ghost ws: seq<seq<Word>>, i: nat)
    requires W.Length == 68 && 16 <= i < 68 && |ws| == 8
    requires forall k :: 0 <= k < 8 ==> |ws[k]| == 68
    requires forall k, j {:trigger NextW(ws[k], j)} :: 0 <= k < 8 && 16 <= j < 68 ==> ws[k][j] == NextW(ws[k], j)
    requires forall i', k :: 0 <= i' < i && 0 <= k < 8 ==> W[i'][k] == ws[k][i']
    modifies W
    ensures forall i', k :: 0 <= i' < i + 1 && 0 <= k < 8 ==> W[i'][k] == ws[k][i']
  {
    var x := VExpandWord(W[i - 16], W[i - 9], W[i - 3], W[i - 13], W[i - 6]);
    forall k | 0 <= k < 8
      ensures x[k] == ws[k][i]
    {
      assert x[k] == ExpandWord(ws[k][i - 16], ws[k][i - 9], ws[k][i - 3], ws[k][i - 13], ws[k][i - 6]);
      assert ws[k][i] == NextW(ws[k], i);
    }
    W[i] := x;
  }

  /** The round's expressions on vectors, each the scalar one in every
      lane. */
  function VSS1(a: Vec, e: Vec, tj: Vec): (r: Vec)
    ensures forall k :: 0 <= k < 8 ==> r[k] == SS1(a[k], e[k], tj[k])
  {
    VRotl(VAdd(VAdd(VRotl(a, 12), e), tj), 7)
  }

  function VSS2(ss1: Vec, a: Vec): (r: Vec)
    ensures forall k :: 0 <= k < 8 ==> r[k] == SS2(ss1[k], a[k])
  {
    VXor(ss1, VRotl(a, 12))
  }

  function VSum4(x: Vec, y: Vec, z: Vec, w: Vec): (r: Vec)
    ensures forall k :: 0 <= k < 8 ==> r[k] == Sum4(x[k], y[k], z[k], w[k])
  {
    VAdd(VAdd(VAdd(x, y), z), w)
  }

  /** FF00/GG00 and FF16/GG16 applied to vectors. */
  function VFF00(a: Vec, b: Vec, c: Vec): (r: Vec)
    ensures forall k :: 0 <= k < 8 ==> r[k] == Sm3Unrolled.FF00(a[k], b[k], c[k])
  {
    VXor(VXor(a, b), c)
  }

  function VGG00(e: Vec, f: Vec, g: Vec): (r: Vec)
    ensures forall k :: 0 <= k < 8 ==> r[k] == Sm3Unrolled.GG00(e[k], f[k], g[k])
  {
    VXor(VXor(e, f), g)
  }

  function VFF16(a: Vec, b: Vec, c: Vec): (r: Vec)
    ensures forall k :: 0 <= k < 8 ==> r[k] == Sm3Unrolled.FF16(a[k], b[k], c[k])
  {
    VOr(VOr(VAnd(a, b), VAnd(a, c)), VAnd(b, c))
  }

  function VGG16(e: Vec, f: Vec, g: Vec): (r: Vec)
    ensures forall k :: 0 <= k < 8 ==> r[k] == Sm3Unrolled.GG16(e[k], f[k], g[k])
  {
    VOr(VAnd(e, f), VNotAnd(e, g))
  }

  /** One iteration of the round loop: W'[j] computed on the fly as
      W[j] xor W[j+4], then the round over all eight lanes, with FF00/GG00
      for j < 16 and FF16/GG16 afterwards. */
  method VRound(v: VRegs, j: nat, wj: Vec, wj4: Vec) returns (v': VRegs)
    requires j < 64
    ensures forall k :: 0 <= k < 8 ==> Lane(v', k) == Round(Lane(v, k), j, wj[k], Xor(wj[k], wj4[k]))
  {
    hide ShiftOr, VRotl;
    var tj := VSet1(Sm3Unrolled.TJROT[j]);
    var ss1 := VSS1(v.a, v.e, tj);
    var ss2 := VSS2(ss1, v.a);
    var wp := VXor(wj, wj4);
    var ff, gg;
    if j < 16 {
      ff, gg := VFF00(v.a, v.b, v.c), VGG00(v.e, v.f, v.g);
    } else {
      ff, gg := VFF16(v.a, v.b, v.c), VGG16(v.e, v.f, v.g);
    }
    assert forall k :: 0 <= k < 8 ==> ff[k] == FF(v.a[k], v.b[k], v.c[k], j) && gg[k] == GG(v.e[k], v.f[k], v.g[k], j);
    var tt1 := VSum4(ff, v.d, ss2, wp);
    var tt2 := VSum4(gg, v.h, ss1, wj);
    v' := VRegs(tt1, v.a, VRotl(v.b, 9), v.c, VP0(tt2), v.e, VRotl(v.f, 19), v.g);
  }

  /** The round loop: lane k runs the 64 rounds over its own words. */
  method VecRounds(v0: VRegs, W: array<Vec>, ghost ws: seq<seq<Word>>) returns (v: VRegs)
    requires W.Length == 68 && |ws| == 8
    requires forall k :: 0 <= k < 8 ==> |ws[k]| == 68
    requires forall i, k :: 0 <= i < 68 && 0 <= k < 8 ==> W[i][k] == ws[k][i]
    ensures forall k :: 0 <= k < 8 ==>
              Lane(v, k) == RoundsUpTo(Lane(v0, k), ws[k], WPrime(ws[k]), |WPrime(ws[k])|)
  {
    v := v0;
    for j := 0 to 64
      invariant forall k :: 0 <= k < 8 ==> Lane(v, k) == RoundsUpTo(Lane(v0, k), ws[k], WPrime(ws[k]), j)
    {
      v := VRoundStep(v0, v, W, ws, j);
    }
  }

  /** The round loop's step, lane by lane. */
  method VRoundStep(v0: VRegs, v: VRegs, W: array<Vec>, ghost ws: seq<seq<Word>>, j: nat) returns (v': VRegs)
    requires W.Length == 68 && |ws| == 8 && j < 64
    requires forall k :: 0 <= k < 8 ==> |ws[k]| == 68
    requires forall i, k :: 0 <= i < 68 && 0 <= k < 8 ==> W[i][k] == ws[k][i]
    requires forall k :: 0 <= k < 8 ==> Lane(v, k) == RoundsUpTo(Lane(v0, k), ws[k], WPrime(ws[k]), j)
    ensures forall k :: 0 <= k < 8 ==> Lane(v', k) == RoundsUpTo(Lane(v0, k), ws[k], WPrime(ws[k]), j + 1)
  {
    v' := VRound(v, j, W[j], W[j + 4]);
    forall k | 0 <= k < 8
      ensures Lane(v', k) == RoundsUpTo(Lane(v0, k), ws[k], WPrime(ws[k]), j + 1)
    {
      assert Xor(W[j][k], W[j + 4][k]) == WPrime(ws[k])[j];
    }
  }

  /** The state vectors loaded from V: A from V[0..8), B from V[8..16), ... */
  function LoadState(v: seq<Word>): (r: VRegs)
    requires |v| == 64
    ensures forall k :: 0 <= k < 8 ==> Lane(r, k) == RegsOf(LaneState(v, k))
  {
    VRegs(v[0..8], v[8..16], v[16..24], v[24..32], v[32..40], v[40..48], v[48..56], v[56..64])
  }

  /** The register vectors in the order they are stored, A first. */
  function VWords(v: VRegs): (s: seq<Vec>)
    ensures |s| == 8
  {
    [v.a, v.b, v.c, v.d, v.e, v.f, v.g, v.h]
  }

  /** Word w of lane k's registers is lane k of the w-th register vector. */
  lemma VWordsLane(v: VRegs, w: nat, k: nat)
    requires w < 8 && k < 8
    ensures VWords(v)[w][k] == Words(Lane(v, k))[w]
  {
  }

  /** One feed-forward and store: V[off..off+8) ^= x. */
  method StoreXor(V: array<Word>, off: nat, x: Vec)
    requires off + 8 <= V.Length
    modifies V
    ensures forall k :: 0 <= k < 8 ==> V[off + k] == Xor(old(V[off + k]), x[k])
    ensures forall n :: 0 <= n < V.Length && !(off <= n < off + 8) ==> V[n] == old(V[n])
  {
    forall k | 0 <= k < 8 {
      V[off + k] := Xor(V[off + k], x[k]);
    }
  }

  /** The feed-forward and the stores: V[8w + k] ^= lane k of register w. */
  method FeedForwardStore(V: array<Word>, v: VRegs)
    requires V.Length == 64
    modifies V
    ensures forall w, k :: 0 <= w < 8 && 0 <= k < 8 ==>
              At(V[..], w, k) == Xor(At(old(V[..]), w, k), Words(Lane(v, k))[w])
  {
    ghost var v0 := V[..];
    var vw := VWords(v);
    for w := 0 to 8
      invariant forall w', k :: 0 <= w' < w && 0 <= k < 8 ==> At(V[..], w', k) == Xor(At(v0, w', k), vw[w'][k])
      invariant forall n :: 8 * w <= n < 64 ==> V[n] == v0[n]
    {
      ghost var before := V[..];
      StoreXor(V, 8 * w, vw[w]);
      forall w', k | 0 <= w' < w + 1 && 0 <= k < 8
        ensures At(V[..], w', k) == Xor(At(v0, w', k), vw[w'][k])
      {
        if w' < w {
          assert At(V[..], w', k) == V[8 * w' + k] == before[8 * w' + k];
        } else {
          assert At(V[..], w', k) == V[8 * w + k];
        }
      }
    }
    forall w, k | 0 <= w < 8 && 0 <= k < 8
      ensures vw[w][k] == Words(Lane(v, k))[w]
    {
      VWordsLane(v, w, k);
    }
  }

  /** Word w of lane k of the routine's effect. */
  lemma LanewiseAt(v: seq<Word>, blocks: seq<Byte>, w: nat, k: nat)
    requires |v| == 64 && |blocks| == 512 && w < 8 && k < 8
    ensures At(LanewiseCompress(v, blocks), w, k) == Compress(LaneState(v, k), LaneBlock(blocks, k))[w]
  {
    assert (8 * w + k) % 8 == k && (8 * w + k) / 8 == w;
  }

  /** Two states that agree in every lane are equal. */
  lemma SameLanes(a: seq<Word>, b: seq<Word>)
    requires |a| == 64 && |b| == 64
    requires forall w, k :: 0 <= w < 8 && 0 <= k < 8 ==> At(a, w, k) == At(b, w, k)
    ensures a == b
  {
    forall n | 0 <= n < 64
      ensures a[n] == b[n]
    {
      var w, k := n / 8, n % 8;
      assert At(a, w, k) == At(b, w, k);
    }
  }

  /** The stored state is the routine's effect once every lane has run
      its rounds over its own expanded words. */
  lemma LanesFedForward(v: seq<Word>, blocks: seq<Byte>, ws: seq<seq<Word>>, r: VRegs, out: seq<Word>)
    requires |v| == 64 && |blocks| == 512 && |out| == 64 && ws == LaneWords(blocks)
    requires forall k :: 0 <= k < 8 ==>
               Lane(r, k) == RoundsUpTo(RegsOf(LaneState(v, k)), ws[k], WPrime(ws[k]), |WPrime(ws[k])|)
    requires forall w, k :: 0 <= w < 8 && 0 <= k < 8 ==> At(out, w, k) == Xor(At(v, w, k), Words(Lane(r, k))[w])
    ensures out == LanewiseCompress(v, blocks)
  {
    forall w, k | 0 <= w < 8 && 0 <= k < 8
      ensures At(out, w, k) == At(LanewiseCompress(v, blocks), w, k)
    {
      LanewiseAt(v, blocks, w, k);
      CompressBy(LaneState(v, k), LaneBlock(blocks, k), ws[k], WPrime(ws[k]), Lane(r, k));
    }
    SameLanes(out, LanewiseCompress(v, blocks));
  }

  /** sm3_compress_avx2: every lane of V becomes the compression of its
      state and its block. */
  method CompressAvx2(V: array<Word>, blocks: seq<Byte>)
    requires V.Length == 64 && |blocks| == 512
    modifies V
    ensures V[..] == LanewiseCompress(old(V[..]), blocks)
  {
    ghost var v := V[..];
    var v0 := LoadState(V[..]);
    var W := new Vec[68](_ => VSet1(0));
    LoadVecWords(W, blocks);
    ExtendVecWords(W, blocks);
    ghost var ws := LaneWords(blocks);
    var r := VecRounds(v0, W, ws);
    FeedForwardStore(V, r);
    LanesFedForward(v, blocks, ws, r, V[..]);
  }
}

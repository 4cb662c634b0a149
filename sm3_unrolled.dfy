/**
  The unrolled backend sm3_compress (Stage 1): the same message expansion,
  then sixteen ROUND00 and forty-eight ROUND16 macro expansions which read
  the rotated round constant T_j <<< j from the table TJROT.
 */
module Sm3Unrolled {
  import opened Bits
  import opened Sm3Spec
  import Sm3Reference

  /** The pre-rotated round constants, entry j being T_j <<< (j mod 32). */
  const TJROT: seq<Word> := seq(64, j requires 0 <= j < 64 => TjRot(j))

  /** The boolean functions of rounds 0..15 and of rounds 16..63. */
  function FF00(a: Word, b: Word, c: Word): Word { Xor(Xor(a, b), c) }
  function GG00(e: Word, f: Word, g: Word): Word { Xor(Xor(e, f), g) }
  function FF16(a: Word, b: Word, c: Word): Word { (a & b) | (a & c) | (b & c) }
  function GG16(e: Word, f: Word, g: Word): Word { (e & f) | (!e & g) }

  /** ROUND00(i): a round of the first band, which is round i of the
      compression function. */
  method Round00(r: Regs, i: nat, wi: Word, wpi: Word) returns (r': Regs)
    requires i < 16
    ensures r' == Round(r, i, wi, wpi)
  {
    var ss1 := Rotl(Add(Add(Rotl(r.a, 12), r.e), TJROT[i]), 7);
    var ss2 := Xor(ss1, Rotl(r.a, 12));
    var tt1 := Add(Add(Add(FF00(r.a, r.b, r.c), r.d), ss2), wpi);
    var tt2 := Add(Add(Add(GG00(r.e, r.f, r.g), r.h), ss1), wi);
    r' := Regs(tt1, r.a, Rotl(r.b, 9), r.c, P0(tt2), r.e, Rotl(r.f, 19), r.g);
  }

  /** ROUND16(i): a round of the second band, which is round i of the
      compression function. */
  method Round16(r: Regs, i: nat, wi: Word, wpi: Word) returns (r': Regs)
    requires 16 <= i < 64
    ensures r' == Round(r, i, wi, wpi)
  {
    var ss1 := Rotl(Add(Add(Rotl(r.a, 12), r.e), TJROT[i]), 7);
    var ss2 := Xor(ss1, Rotl(r.a, 12));
    var tt1 := Add(Add(Add(FF16(r.a, r.b, r.c), r.d), ss2), wpi);
    var tt2 := Add(Add(Add(GG16(r.e, r.f, r.g), r.h), ss1), wi);
    r' := Regs(tt1, r.a, Rotl(r.b, 9), r.c, P0(tt2), r.e, Rotl(r.f, 19), r.g);
  }

  /** The sixteen ROUND00 expansions: rounds 0..15 from r0. */
  method FirstBand(r0: Regs, W: array<Word>, Wp: array<Word>) returns (r: Regs)
    requires W.Length == 68 && Wp.Length == 64
    ensures r == RoundsUpTo(r0, W[..], Wp[..], 16)
  {
    r := r0;
    for i := 0 to 16
      invariant r == RoundsUpTo(r0, W[..], Wp[..], i)
    {
      r := Round00(r, i, W[i], Wp[i]);
    }
  }

  /** The forty-eight ROUND16 expansions: rounds 16..63 after rounds 0..15. */
  method SecondBand(r0: Regs, r16: Regs, W: array<Word>, Wp: array<Word>) returns (r: Regs)
    requires W.Length == 68 && Wp.Length == 64
    requires r16 == RoundsUpTo(r0, W[..], Wp[..], 16)
    ensures r == RoundsUpTo(r0, W[..], Wp[..], Wp.Length)
  {
    r := r16;
    for i := 16 to 64
      invariant r == RoundsUpTo(r0, W[..], Wp[..], i)
    {
      r := Round16(r, i, W[i], Wp[i]);
    }
  }

  /** The unrolled sm3_compress computes CF(V, block), as the reference does. */
  method Compress(V: array<Word>, block: seq<Byte>)
    requires V.Length == 8 && |block| == 64
    modifies V
    ensures V[..] == Sm3Spec.Compress(old(V[..]), block)
  {
    var W, Wp := Sm3Reference.ExpandBlock(block);
    var r0 := Regs(V[0], V[1], V[2], V[3], V[4], V[5], V[6], V[7]);
    var r16 := FirstBand(r0, W, Wp);
    var r := SecondBand(r0, r16, W, Wp);
    assert r0 == RegsOf(V[..]);
    CompressBy(V[..], block, W[..], Wp[..], r);
    Sm3Reference.FeedForwardInto(V, r);
  }

  /** The table TJROT as printed, one sequence per printed line: 72
      initialisers for 64 slots. */
  const TJROT_PRINTED: seq<Word> :=
    [0x79CC4519, 0xF3988A32, 0xE7311465, 0xCE6228CB, 0x9CC45197, 0x3988A32F, 0x7311465E, 0xE6228CBC] +
    [0xC4519799, 0x88A32F33, 0x11465E67, 0x228CBCCE, 0x4519799C, 0x8A32F339, 0x1465E673, 0x28CBCCE6] +
    [0xDE6E56C6, 0xBCDCAD8D, 0x79B95B1B, 0xF372B637, 0xE6E56C6E, 0xCDCAD8DD, 0x9B95B1BB, 0x372B6377] +
    [0x6E56C6EE, 0x0CDCACDD, 0xB95B1BB9, 0x72B63773, 0xE56C6EE6, 0xCAD8DCCD, 0x95B1BB9B, 0x2B637737] +
    [0x56C6EE6E, 0x0AD8DCCD, 0x5B1BB9B9, 0xB6377373, 0x6C6EE6E6, 0xD8DCCDCD, 0xB1BB9B9B, 0x63773737] +
    [0xC6EE6E6E, 0x8DCCDCDC, 0x1BB9B9B9, 0x37737373, 0x6EE6E6E6, 0xDCCDCDCC, 0xBB9B9B99, 0x77373733] +
    [0xEE6E6E66, 0x00DCDCDC, 0xB9B9B998, 0x73737331, 0xE6E6E662, 0x00CDCDCC, 0x009B9B99, 0x00373731] +
    [0x006E6E62, 0x0000DCDC, 0x000B9B98, 0x00073731, 0x000E6E62, 0x0000CDCC, 0x00009B98, 0x00003731] +
    [0x00006E62, 0x00000DCC, 0x00000B98, 0x00000731, 0x00000E62, 0x000000CC, 0x00000098, 0x00000031]

  /** The table TJROT32 of the single-pass and AVX2 backends as printed. */
  const TJROT32_PRINTED: seq<Word> :=
    [0x79CC4519, 0xF3988A32, 0xE7311465, 0xCE6228CB, 0x9CC45197, 0x3988A32F, 0x7311465E, 0xE6228CBC] +
    [0xC4519799, 0x88A32F33, 0x11465E67, 0x228CBCCE, 0x4519799C, 0x8A32F339, 0x1465E673, 0x28CBCCE6] +
    [0xDE6E56C6, 0xBCDCAD8D, 0x79B95B1B, 0xF372B637, 0xE6E56C6E, 0xCDCAD8DD, 0x9B95B1BB, 0x372B6377] +
    [0x6E56C6EE, 0x0CDCACDD, 0xB95B1BB9, 0x72B63773, 0xE56C6EE6, 0xCAD8DCCD, 0x95B1BB9B, 0x2B637737] +
    [0x56C6EE6E, 0x0AD8DCCD, 0x5B1BB9B9, 0xB6377373, 0x6C6EE6E6, 0xD8DCCDCD, 0xB1BB9B9B, 0x63773737] +
    [0xC6EE6E6E, 0x8DCCDCDC, 0x1BB9B9B9, 0x37737373, 0x6EE6E6E6, 0xDCCDCDCC, 0xBB9B9B99, 0x77373733] +
    [0xEE6E6E66, 0x0DCDCDCC, 0xB9B9B998, 0x73737331, 0xE6E6E662, 0x00CDCDCC, 0x009B9B99, 0x00373731] +
    [0x006E6E62, 0x0000DCDC, 0x000B9B98, 0x00073731, 0x000E6E62, 0x0000CDCC, 0x00009B98, 0x00000031]

  /** The printed TJROT has 72 entries for its 64 slots. */
  lemma PrintedTableOverfull()
    ensures |TJROT_PRINTED| == 72 && |TJROT32_PRINTED| == 64
  {
  }

  /** Entry 8 (first band) of both printed tables is not T_8 <<< 8. */
  lemma PrintedEntry8Wrong()
    ensures TJROT_PRINTED[8] != TjRot(8) && TJROT32_PRINTED[8] != TjRot(8)
  {
  }

  /** Entry 16 (second band) of both printed tables is not T_16 <<< 16. */
  lemma PrintedEntry16Wrong()
    ensures TJROT_PRINTED[16] != TjRot(16) && TJROT32_PRINTED[16] != TjRot(16)
  {
  }

  /** The two printed tables disagree at entries 49 and 63. */
  lemma PrintedTablesDisagree()
    ensures TJROT_PRINTED[49] != TJROT32_PRINTED[49] && TJROT_PRINTED[63] != TJROT32_PRINTED[63]
  {
  }
}

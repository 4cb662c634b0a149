/**
  The scalar backend sm3_compress_scalar (Stage 2): one pass over the
  block computes W and W' together, W'[i-4] being written as soon as W[i]
  is known; then the ROUND00 and ROUND16 rounds of the unrolled backend,
  the second band as a loop whose two arms are the same.
 */
module Sm3SinglePass {
  import opened Bits
  import opened Sm3Spec
  import Sm3Reference
  import Sm3Unrolled

  /** The sixteen big-endian loads, W'[i-4] trailing from i = 4 on. */
  method LoadPass(W: array<Word>, Wp: array<Word>, block: seq<Byte>)
    requires W.Length == 68 && Wp.Length == 64 && W != Wp && |block| == 64
    modifies W, Wp
    ensures W[..16] == BytesToWords(block)
    ensures forall k :: 0 <= k < 12 ==> Wp[k] == Xor(W[k], W[k + 4])
  {
    for i := 0 to 16
      invariant forall k :: 0 <= k < i ==> W[k] == LoadBE32(block, 4 * k)
      invariant forall k :: 0 <= k < i - 4 ==> Wp[k] == Xor(W[k], W[k + 4])
    {
      W[i] := LoadBE32(block, 4 * i);
      if i >= 4 {
        Wp[i - 4] := Xor(W[i - 4], W[i]);
      }
    }
  }

  /** The recurrence for W[16..68), W'[i-4] trailing. */
  method ExtendPass(W: array<Word>, Wp: array<Word>, block: seq<Byte>)
    requires W.Length == 68 && Wp.Length == 64 && W != Wp && |block| == 64
    requires W[..16] == BytesToWords(block)
    requires forall k :: 0 <= k < 12 ==> Wp[k] == Xor(W[k], W[k + 4])
    modifies W, Wp
    ensures W[..] == Expand(block)
    ensures forall k :: 0 <= k < 64 ==> Wp[k] == Xor(W[k], W[k + 4])
  {
    ghost var w := Expand(block);
    ExpandShape(block);
    forall k | 0 <= k < 16
      ensures W[k] == w[k]
    {
      assert W[k] == W[..16][k] && w[k] == w[..16][k];
    }
    for i := 16 to 68
      invariant forall k :: 0 <= k < i ==> W[k] == w[k]
      invariant forall k :: 0 <= k < i - 4 ==> Wp[k] == Xor(w[k], w[k + 4])
    {
      PassStep(W, Wp, w, i);
    }
    Sm3Reference.SameWords(W[..], w);
  }

  /** One step of the pass: W[i] by the recurrence, then W'[i-4]. */
  method PassStep(W: array<Word>, Wp: array<Word>, ghost w: seq<Word>, i: nat)
    requires W.Length == 68 && Wp.Length == 64 && W != Wp && |w| == 68 && 16 <= i < 68
    requires forall j {:trigger NextW(w, j)} :: 16 <= j < 68 ==> w[j] == NextW(w, j)
    requires forall k :: 0 <= k < i ==> W[k] == w[k]
    requires forall k :: 0 <= k < i - 4 ==> Wp[k] == Xor(w[k], w[k + 4])
    modifies W, Wp
    ensures forall k :: 0 <= k < i + 1 ==> W[k] == w[k]
    ensures forall k :: 0 <= k < i - 3 ==> Wp[k] == Xor(w[k], w[k + 4])
  {
    var x16, x9, x3, x13, x6, x4 := W[i - 16], W[i - 9], W[i - 3], W[i - 13], W[i - 6], W[i - 4];
    assert x16 == w[i - 16] && x9 == w[i - 9] && x3 == w[i - 3] && x13 == w[i - 13] && x6 == w[i - 6];
    assert x4 == w[i - 4];
    var x := ExpandWord(x16, x9, x3, x13, x6);
    assert x == NextW(w, i);
    W[i] := x;
    Wp[i - 4] := Xor(x4, x);
  }

  /** The single-pass expansion writes every W'[j], and W and W' are the
      expanded words of the block and their W' words. */
  method SinglePassExpand(block: seq<Byte>) returns (W: array<Word>, Wp: array<Word>)
    requires |block| == 64
    ensures fresh(W) && fresh(Wp)
    ensures W[..] == Expand(block) && Wp[..] == WPrime(W[..])
  {
    W := new Word[68];
    Wp := new Word[64];
    LoadPass(W, Wp, block);
    ExtendPass(W, Wp, block);
  }

  /** Rounds 16..63 as a loop; both arms of the j < 32 test run ROUND16. */
  method ScalarSecondBand(r0: Regs, r16: Regs, W: array<Word>, Wp: array<Word>) returns (r: Regs)
    requires W.Length == 68 && Wp.Length == 64
    requires r16 == RoundsUpTo(r0, W[..], Wp[..], 16)
    ensures r == RoundsUpTo(r0, W[..], Wp[..], Wp.Length)
  {
    r := r16;
    for j := 16 to 64
      invariant r == RoundsUpTo(r0, W[..], Wp[..], j)
    {
      if j < 32 {
        r := Sm3Unrolled.Round16(r, j, W[j], Wp[j]);
      } else {
        r := Sm3Unrolled.Round16(r, j, W[j], Wp[j]);
      }
    }
  }

  /** sm3_compress_scalar computes CF(V, block), as the reference does. */
  method CompressScalar(V: array<Word>, block: seq<Byte>)
    requires V.Length == 8 && |block| == 64
    modifies V
    ensures V[..] == Sm3Spec.Compress(old(V[..]), block)
  {
    var W, Wp := SinglePassExpand(block);
    var r0 := Regs(V[0], V[1], V[2], V[3], V[4], V[5], V[6], V[7]);
    var r16 := Sm3Unrolled.FirstBand(r0, W, Wp);
    var r := ScalarSecondBand(r0, r16, W, Wp);
    assert r0 == RegsOf(V[..]);
    CompressBy(V[..], block, W[..], Wp[..], r);
    Sm3Reference.FeedForwardInto(V, r);
  }
}

/**
  The reference compression routine sm3_compress: message expansion into
  the arrays W[68] and W'[64], 64 rounds over the registers A..H, and the
  feed-forward xor into V[] in place.
 */
module Sm3Reference {
  import opened Bits
  import opened Sm3Spec

  /** The message expansion of sm3_compress: W[0..16) loaded big-endian
      from the block, W[16..68) by the recurrence, then W'[j] = W[j] xor
      W[j+4]. */
  method ExpandBlock(block: seq<Byte>) returns (W: array<Word>, Wp: array<Word>)
    requires |block| == 64
    ensures fresh(W) && fresh(Wp)
    ensures W[..] == Expand(block) && Wp[..] == WPrime(W[..])
  {
    W := new Word[68];
    LoadWords(W, block);
    ExtendWords(W, block);
    Wp := PrimeWords(W);
  }

  /** The first expansion loop: W[i] is the big-endian word at 4i. */
  method LoadWords(W: array<Word>, block: seq<Byte>)
    requires W.Length == 68 && |block| == 64
    modifies W
    ensures W[..16] == BytesToWords(block)
  {
    for i := 0 to 16
      invariant forall k :: 0 <= k < i ==> W[k] == LoadBE32(block, 4 * k)
    {
      W[i] := LoadBE32(block, 4 * i);
    }
  }

  /** The second expansion loop: W[16..68) by the recurrence. */
  method ExtendWords(W: array<Word>, block: seq<Byte>)
    requires W.Length == 68 && |block| == 64
    requires W[..16] == BytesToWords(block)
    modifies W
    ensures W[..] == Expand(block)
  {
    ghost var w16 := BytesToWords(block);
    for i := 16 to 68
      invariant W[..i] == ExpandTo(w16, i)
    {
      ExtendStep(W[..i], W[i - 16], W[i - 9], W[i - 3], W[i - 13], W[i - 6], i);
      W[i] := ExpandWord(W[i - 16], W[i - 9], W[i - 3], W[i - 13], W[i - 6]);
    }
    assert W[..] == W[..68];
  }

  /** The recurrence evaluated on W's entries is NextW of the prefix. */
  lemma ExtendStep(p: seq<Word>, x16: Word, x9: Word, x3: Word, x13: Word, x6: Word, i: nat)
    requires 16 <= i == |p|
    requires x16 == p[i - 16] && x9 == p[i - 9] && x3 == p[i - 3] && x13 == p[i - 13] && x6 == p[i - 6]
    ensures ExpandWord(x16, x9, x3, x13, x6) == NextW(p, i)
  {
  }

  /** Two word sequences that agree at every index are equal. */
  lemma SameWords(a: seq<Word>, b: seq<Word>)
    requires |a| == |b| && forall k :: 0 <= k < |a| ==> a[k] == b[k]
    ensures a == b
  {
  }

  /** The loop computing W'[j] = W[j] xor W[j+4] for j < 64. */
  method PrimeWords(W: array<Word>) returns (Wp: array<Word>)
    requires W.Length == 68
    ensures fresh(Wp)
    ensures Wp[..] == WPrime(W[..])
  {
    ghost var w := W[..];
    Wp := new Word[64];
    for i := 0 to 64
      invariant forall k :: 0 <= k < i ==> Wp[k] == Xor(w[k], w[k + 4])
    {
      Wp[i] := Xor(W[i], W[i + 4]);
    }
  }

  /** The 64 rounds over the registers, from r0. */
  method CompressRounds(r0: Regs, W: array<Word>, Wp: array<Word>) returns (r: Regs)
    requires W.Length == 68 && Wp.Length == 64
    ensures r == RoundsUpTo(r0, W[..], Wp[..], Wp.Length)
  {
    r := r0;
    for j := 0 to 64
      invariant r == RoundsUpTo(r0, W[..], Wp[..], j)
    {
      r := Round(r, j, W[j], Wp[j]);
    }
  }

  /** The feed-forward V[i] ^= A..H in place. */
  method FeedForwardInto(V: array<Word>, r: Regs)
    requires V.Length == 8
    modifies V
    ensures V[..] == FeedForward(old(V[..]), r)
  {
    var rw := Words(r);
    forall i | 0 <= i < 8 {
      V[i] := Xor(V[i], rw[i]);
    }
  }

  /** sm3_compress: V becomes CF(V, block); the block is only read. */
  method Compress(V: array<Word>, block: seq<Byte>)
    requires V.Length == 8 && |block| == 64
    modifies V
    ensures V[..] == Sm3Spec.Compress(old(V[..]), block)
  {
    var W, Wp := ExpandBlock(block);
    var r := CompressRounds(Regs(V[0], V[1], V[2], V[3], V[4], V[5], V[6], V[7]), W, Wp);
    assert Regs(V[0], V[1], V[2], V[3], V[4], V[5], V[6], V[7]) == RegsOf(V[..]);
    CompressBy(V[..], block, W[..], Wp[..], r);
    FeedForwardInto(V, r);
  }
}

/**
  The streaming interface sm3_init / sm3_update / sm3_final over a context
  holding the chaining value state[8], the total length in bits bitlen
  (a uint64_t, so it wraps mod 2^64) and the partial block buffer[64].

  The three engines (reference, unrolled, single-pass scalar) have the
  same init, update and final and differ only in the compression routine
  they call; a context carries that choice as its backend.
 */
module Sm3Engine {
  import opened Bits
  import opened Sm3Spec
  import Sm3Reference
  import Sm3Unrolled
  import Sm3SinglePass

  /** The compression routine an engine calls. */
  datatype Backend = Reference | Unrolled | SinglePass

  /** Compression by the chosen backend; each computes CF(V, block). */
  method CompressWith(backend: Backend, V: array<Word>, block: seq<Byte>)
    requires V.Length == 8 && |block| == 64
    modifies V
    ensures V[..] == Compress(old(V[..]), block)
  {
    match backend {
      case Reference => Sm3Reference.Compress(V, block);
      case Unrolled => Sm3Unrolled.Compress(V, block);
      case SinglePass => Sm3SinglePass.CompressScalar(V, block);
    }
  }

  /** What a context holds that matters: the chaining value, the bit count
      and the buffered bytes of the unfinished block. */
  datatype Snapshot = Snapshot(chain: seq<Word>, bitlen: Uint64, tail: seq<Byte>)

  /** The length of the longest block-aligned prefix of n bytes. */
  function Full(n: nat): (f: nat)
    ensures f <= n && f % 64 == 0 && n - f < 64
  {
    n - n % 64
  }

  /** The effect of absorbing data: the buffered bytes and the data are
      compressed block by block, the remainder buffered, and the bit count
      advanced by 8|data| mod 2^64. */
  function Absorb(s: Snapshot, data: seq<Byte>): (s': Snapshot)
    requires |s.chain| == 8
    ensures |s'.chain| == 8 && |s'.tail| < 64
  {
    var m := s.tail + data;
    Snapshot(Iterate(s.chain, m[..Full(|m|)]), (s.bitlen + 8 * |data|) % TWO_POW_64, m[Full(|m|)..])
  }

  /** Absorbing a, then b, is absorbing a + b. */
  lemma AbsorbAppend(s: Snapshot, a: seq<Byte>, b: seq<Byte>)
    requires |s.chain| == 8
    ensures Absorb(Absorb(s, a), b) == Absorb(s, a + b)
  {
    hide Compress, Iterate;
    var m1 := s.tail + a;
    var f1 := Full(|m1|);
    var s1 := Absorb(s, a);
    var t1, x1 := s1.tail, s1.bitlen;
    assert t1 == m1[f1..] && x1 == (s.bitlen + 8 * |a|) % TWO_POW_64;
    var m2 := t1 + b;
    var f2 := Full(|m2|);
    var m := s.tail + (a + b);
    assert m == m1 + b;
    assert m == m1[..f1] + m2;
    assert |m2| == |m1| % 64 + |b| && |m| == |m1| + |b|;
    FullAdd(|m1|, |b|);
    assert Full(|m|) == f1 + f2;
    assert m[..f1 + f2] == m1[..f1] + m2[..f2];
    assert m[f1 + f2..] == m2[f2..];
    IterateAppend(s.chain, m1[..f1], m2[..f2]);
    BitCountStep(s.bitlen, |a|, |b|);
    assert |a + b| == |a| + |b|;
    var s2, s' := Absorb(s1, b), Absorb(s, a + b);
    assert s2.chain == s'.chain;
    assert s2.bitlen == (x1 + 8 * |b|) % TWO_POW_64;
    assert s'.bitlen == (s.bitlen + 8 * (|a| + |b|)) % TWO_POW_64;
    assert s2.tail == s'.tail;
  }

  /** The aligned part of x + y bytes is that of x, then that of the
      remainder of x followed by y. */
  lemma FullAdd(x: nat, y: nat)
    ensures Full(x + y) == Full(x) + Full(x % 64 + y)
  {
    var q, r := x / 64, x % 64;
    assert x + y == 64 * q + (r + y);
    ModShift64(q, r + y);
  }

  /** Adding whole blocks leaves the remainder mod 64 alone. */
  lemma ModShift64(q: nat, t: nat)
    ensures (64 * q + t) % 64 == t % 64
  {
  }

  lemma BitCountStep(x: Uint64, a: nat, b: nat)
    ensures ((x + 8 * a) % TWO_POW_64 + 8 * b) % TWO_POW_64 == (x + 8 * (a + b)) % TWO_POW_64
  {
    var q := (x + 8 * a) / TWO_POW_64;
    assert (x + 8 * a) % TWO_POW_64 + 8 * b == (x + 8 * (a + b)) - TWO_POW_64 * q;
    ModShift(x + 8 * (a + b), q);
  }

  /** From the initial state, the snapshot after m is the chaining value of
      m's full blocks, the wrapped bit count of m and m's trailing bytes. */
  lemma AbsorbedFromStart(m: seq<Byte>)
    ensures Absorb(Snapshot(IV, 0, []), m) == Snapshot(Iterate(IV, m[..Full(|m|)]), (8 * |m|) % TWO_POW_64, m[Full(|m|)..])
  {
    assert m == [] + m;
  }

  /** The padding sm3_final feeds: 0x80, padlen - 1 zeros, the bit count. */
  lemma FinalPadding(n: nat, idx: nat, padlen: nat, pad: seq<Byte>, lenBE: seq<Byte>)
    requires idx == n % 64
    requires padlen == if idx < 56 then 56 - idx else 120 - idx
    requires |pad| == padlen && pad[0] == 0x80 && forall i :: 0 < i < padlen ==> pad[i] == 0
    requires lenBE == BE64((8 * n) % TWO_POW_64)
    ensures 1 <= padlen <= 64 && (idx + padlen + 8) % 64 == 0
    ensures pad + lenBE == Padding(n)
  {
    assert padlen - 1 == PadZeros(n);
    assert pad == [0x80] + Zeros(PadZeros(n));
  }

  /** memcpy(buffer + off, src, |src|). */
  method CopyInto(buffer: array<Byte>, off: nat, src: seq<Byte>)
    requires off + |src| <= buffer.Length
    modifies buffer
    ensures buffer[..off] == old(buffer[..off])
    ensures buffer[off..off + |src|] == src
  {
    forall k | 0 <= k < |src| {
      buffer[off + k] := src[k];
    }
  }

  class Context {
    var state: array<Word>
    var bitlen: Uint64
    var buffer: array<Byte>
    const backend: Backend
    ghost var absorbed: seq<Byte>

    /** The context holds what absorbing every byte so far from the initial
        state yields: state is the chaining value of the full blocks, bitlen
        is 8|absorbed| mod 2^64 and buffer starts with the trailing bytes. */
    ghost predicate Valid()
      reads this, state, buffer
    {
      state.Length == 8 && buffer.Length == 64 &&
      Snapshot(state[..], bitlen, buffer[..|absorbed| % 64]) == Absorb(Snapshot(IV, 0, []), absorbed)
    }

    /** The observable state of the context. */
    ghost function Observed(): Snapshot
      requires Valid()
      reads this, state, buffer
    {
      Snapshot(state[..], bitlen, buffer[..|absorbed| % 64])
    }

    /** A context on its own buffers, initialised by sm3_init. */
    constructor (backend: Backend)
      ensures Valid() && absorbed == [] && this.backend == backend
      ensures state[..] == IV && bitlen == 0
      ensures fresh(state) && fresh(buffer)
    {
      this.backend := backend;
      state := new Word[8];
      buffer := new Byte[64];
      bitlen := 0;
      absorbed := [];
      new;
      Init();
    }

    /** sm3_init: state := IV, bitlen := 0, nothing absorbed. */
    method Init()
      requires state.Length == 8 && buffer.Length == 64
      modifies this, state
      ensures Valid() && absorbed == [] && state[..] == IV && bitlen == 0
      ensures state == old(state) && buffer == old(buffer) && buffer[..] == old(buffer[..])
    {
      forall i | 0 <= i < 8 {
        state[i] := IV[i];
      }
      bitlen := 0;
      absorbed := [];
      AbsorbedFromStart([]);
    }

    /** sm3_update: absorb data. */
    method Update(data: seq<Byte>)
      requires Valid()
      modifies this, state, buffer
      ensures Valid() && absorbed == old(absorbed) + data
      ensures Observed() == Absorb(old(Observed()), data)
      ensures state == old(state) && buffer == old(buffer)
    {
      hide Compress, Iterate, Absorb;
      ghost var s0 := Observed();
      AbsorbedFromStart(absorbed);
      WrappedBitCount(|absorbed|);
      var idx := bitlen / 8 % 64;
      assert idx == |s0.tail|;
      bitlen := (bitlen + 8 * |data|) % TWO_POW_64;
      var i: nat;
      ghost var done: seq<Byte>;
      i, idx, done := FillBlock(backend, state, buffer, s0, data, idx);
      ghost var i0 := i;
      ghost var head := buffer[..idx];
      i := CompressBlocks(backend, state, s0.chain, done, data, i);
      CopyTail(buffer, idx, data, i);
      assert buffer[..idx] == head;
      UpdateEnd(absorbed, s0, data, i0, i, idx, done, state[..], bitlen, buffer[..]);
      absorbed := absorbed + data;
    }

    /** sm3_final: absorb the padding, then serialize the state big-endian
        into the SM3 digest of everything absorbed before. */
    method Final() returns (digest: seq<Byte>)
      requires Valid()
      modifies this, state, buffer
      ensures Valid() && digest == Hash(old(absorbed))
      ensures absorbed == old(absorbed) + Padding(|old(absorbed)|) && |absorbed| % 64 == 0
      ensures state == old(state) && buffer == old(buffer)
    {
      hide Compress, Iterate, Absorb;
      ghost var n := |absorbed|;
      AbsorbedFromStart(absorbed);
      WrappedBitCount(n);
      var pad := new Byte[64](i => if i == 0 then 0x80 else 0);
      var lenBE := LengthBytes(bitlen);
      var idx := bitlen / 8 % 64;
      assert idx == n % 64;
      var padlen := if idx < 56 then 56 - idx else 120 - idx;
      assert 0 < padlen <= 64;
      ghost var head := pad[..padlen];
      assert head[0] == 0x80 && forall k :: 0 < k < padlen ==> head[k] == 0;
      FinalPadding(n, idx, padlen, head, lenBE);
      Update(pad[..padlen]);
      Update(lenBE);
      PaddedStream(old(absorbed), head, lenBE);
      FinalBlocks(absorbed);
      digest := StoreDigest(state);
    }
  }

  /** The two updates of sm3_final append exactly the padding of section
      5.2, and the stream is then block-aligned. */
  lemma PaddedStream(a: seq<Byte>, pad: seq<Byte>, lenBE: seq<Byte>)
    requires pad + lenBE == Padding(|a|)
    ensures (a + pad) + lenBE == a + Padding(|a|)
    ensures |a + Padding(|a|)| % 64 == 0
  {
    assert (a + pad) + lenBE == a + (pad + lenBE);
    PaddingShape(|a|);
  }

  /** Once the stream is block-aligned, the state is the chaining value of
      all of it. */
  lemma FinalBlocks(m: seq<Byte>)
    requires |m| % 64 == 0
    ensures Absorb(Snapshot(IV, 0, []), m).chain == Iterate(IV, m)
  {
    hide Compress;
    AbsorbedFromStart(m);
    assert m[..Full(|m|)] == m;
  }

  /** The block the first branch of sm3_update compresses: the buffered
      bytes followed by the first part bytes of data. */
  lemma FirstBlock(tail: seq<Byte>, data: seq<Byte>, part: nat, buf: seq<Byte>)
    requires |tail| + part == 64 && part <= |data| && |buf| == 64
    requires buf[..|tail|] == tail && buf[|tail|..64] == data[..part]
    ensures buf == (tail + data)[..64]
  {
    assert buf == buf[..|tail|] + buf[|tail|..64];
  }

  /** One compression of sm3_update: the chaining value of the bytes done
      so far becomes that of done followed by the block. */
  method AbsorbBlock(backend: Backend, state: array<Word>, ghost v0: seq<Word>, ghost done: seq<Byte>, block: seq<Byte>)
    requires state.Length == 8 && |v0| == 8 && |done| % 64 == 0 && |block| == 64
    requires |done + block| % 64 == 0
    requires state[..] == Iterate(v0, done)
    modifies state
    ensures state[..] == Iterate(v0, done + block)
  {
    hide Compress;
    CompressWith(backend, state, block);
    IterateBlock(v0, done, block);
  }

  /** How the first branch of sm3_update left things: either it completed
      the buffered bytes to a block (done is that block, idx is 0 and i0
      the number of data bytes it took), or nothing was compressed from the
      buffer, idx is still the number of buffered bytes and head, the
      buffer's first idx bytes, still holds them. */
  ghost predicate FirstStep(s0: Snapshot, data: seq<Byte>, i0: nat, idx: nat, done: seq<Byte>, head: seq<Byte>) {
    (i0 == 0 && idx == |s0.tail| && done == [] && (idx == 0 || |data| < 64 - idx) && head == s0.tail) ||
    (0 < |s0.tail| && i0 == 64 - |s0.tail| <= |data| && idx == 0 && done == (s0.tail + data)[..64])
  }

  /** The first branch of sm3_update: when bytes are buffered and data
      completes the block, copy the part that fits and compress the buffer. */
  method FillBlock(backend: Backend, state: array<Word>, buffer: array<Byte>, ghost s0: Snapshot, data: seq<Byte>, idx: nat)
    returns (i: nat, idx': nat, ghost done: seq<Byte>)
    requires state.Length == 8 && buffer.Length == 64 && |s0.chain| == 8 && idx == |s0.tail| < 64
    requires state[..] == s0.chain && buffer[..idx] == s0.tail
    modifies state, buffer
    ensures idx' < 64 && FirstStep(s0, data, i, idx', done, buffer[..idx'])
    ensures |done| % 64 == 0 && state[..] == Iterate(s0.chain, done)
  {
    hide Compress;
    var part := 64 - idx;
    i, idx', done := 0, idx, [];
    if idx != 0 && |data| >= part {
      CopyInto(buffer, idx, data[..part]);
      FirstBlock(s0.tail, data, part, buffer[..]);
      AbsorbBlock(backend, state, s0.chain, [], buffer[..]);
      done := buffer[..];
      i := part;
      idx' := 0;
    }
  }

  /** The middle loop of sm3_update: every whole block of data from i0 on
      is compressed straight from data; fewer than 64 bytes remain. */
  method CompressBlocks(backend: Backend, state: array<Word>, ghost v0: seq<Word>, ghost done: seq<Byte>, data: seq<Byte>, i0: nat) returns (i: nat)
    requires state.Length == 8 && |v0| == 8 && |done| % 64 == 0 && i0 <= |data|
    requires state[..] == Iterate(v0, done)
    modifies state
    ensures i0 <= i <= |data| && |data| - i < 64 && (i - i0) % 64 == 0
    ensures |done + data[i0..i]| % 64 == 0
    ensures state[..] == Iterate(v0, done + data[i0..i])
  {
    hide Compress;
    i := i0;
    assert done + data[i0..i] == done;
    while i + 64 <= |data|
      invariant i0 <= i <= |data| && (i - i0) % 64 == 0
      invariant |done + data[i0..i]| % 64 == 0
      invariant state[..] == Iterate(v0, done + data[i0..i])
      decreases |data| - i
    {
      ghost var prev, next := done + data[i0..i], done + data[i0..i + 64];
      assert next == prev + data[i..i + 64];
      AbsorbBlock(backend, state, v0, prev, data[i..i + 64]);
      i := i + 64;
    }
  }

  /** The last step of sm3_update: the bytes of data after i, if any, are
      buffered from idx on. */
  method CopyTail(buffer: array<Byte>, idx: nat, data: seq<Byte>, i: nat)
    requires buffer.Length == 64 && i <= |data| && idx + |data| - i <= 64
    modifies buffer
    ensures buffer[..idx] == old(buffer[..idx])
    ensures i < |data| ==> buffer[idx..idx + |data| - i] == data[i..]
  {
    if i < |data| {
      CopyInto(buffer, idx, data[i..]);
    }
  }

  /** The remainder of x mod 64, plus y, has the remainder of x + y. */
  lemma TailIndex(x: nat, y: nat)
    ensures (x % 64 + y) % 64 == (x + y) % 64
  {
    ModShift64(x / 64, x % 64 + y);
  }

  /** The end of sm3_update: the chaining value, bit count and buffer it
      leaves are the snapshot Absorb gives. Either the buffered bytes were
      completed to a block first (done is that block, idx is 0 and i0 the
      number of data bytes it took), or nothing was compressed from the
      buffer and idx is still the number of buffered bytes. */
  lemma UpdateEnd(a: seq<Byte>, s0: Snapshot, data: seq<Byte>, i0: nat, i: nat, idx: nat, done: seq<Byte>, chain: seq<Word>, bitlen: Uint64, buf: seq<Byte>)
    requires s0 == Absorb(Snapshot(IV, 0, []), a) && |buf| == 64
    requires idx <= 64 && FirstStep(s0, data, i0, idx, done, buf[..idx])
    requires i0 <= i <= |data| && |data| - i < 64 && (i - i0) % 64 == 0
    requires |done + data[i0..i]| % 64 == 0
    requires chain == Iterate(s0.chain, done + data[i0..i])
    requires bitlen == (s0.bitlen + 8 * |data|) % TWO_POW_64
    requires i < |data| ==> buf[idx..idx + |data| - i] == data[i..]
    ensures Snapshot(chain, bitlen, buf[..|a + data| % 64]) == Absorb(s0, data) == Absorb(Snapshot(IV, 0, []), a + data)
  {
    hide Compress, Iterate;
    AbsorbedFromStart(a);
    assert |s0.tail| == |a| % 64;
    TailIndex(|a|, |data|);
    assert (|s0.tail| + |data|) % 64 == |a + data| % 64;
    UpdateSnapshot(s0, data, i0, i, idx, done, chain, bitlen, buf);
    AbsorbAppend(Snapshot(IV, 0, []), a, data);
  }

  /** The snapshot sm3_update leaves, in terms of the one it started from. */
  lemma UpdateSnapshot(s0: Snapshot, data: seq<Byte>, i0: nat, i: nat, idx: nat, done: seq<Byte>, chain: seq<Word>, bitlen: Uint64, buf: seq<Byte>)
    requires |s0.chain| == 8 && |buf| == 64 && |s0.tail| < 64
    requires idx <= 64 && FirstStep(s0, data, i0, idx, done, buf[..idx])
    requires i0 <= i <= |data| && |data| - i < 64 && (i - i0) % 64 == 0
    requires |done + data[i0..i]| % 64 == 0
    requires chain == Iterate(s0.chain, done + data[i0..i])
    requires bitlen == (s0.bitlen + 8 * |data|) % TWO_POW_64
    requires i < |data| ==> buf[idx..idx + |data| - i] == data[i..]
    ensures Snapshot(chain, bitlen, buf[..(|s0.tail| + |data|) % 64]) == Absorb(s0, data)
  {
    hide Compress, Iterate, FirstStep;
    UpdateSplit(s0, data, i0, i, idx, done, buf);
  }

  /** How sm3_update splits buffered bytes and data: what it compressed is
      the whole blocks of tail ++ data, and what it buffered the rest. */
  lemma UpdateSplit(s0: Snapshot, data: seq<Byte>, i0: nat, i: nat, idx: nat, done: seq<Byte>, buf: seq<Byte>)
    requires |buf| == 64 && |s0.tail| < 64
    requires idx <= 64 && FirstStep(s0, data, i0, idx, done, buf[..idx])
    requires i0 <= i <= |data| && |data| - i < 64 && (i - i0) % 64 == 0
    requires |done + data[i0..i]| % 64 == 0
    requires i < |data| ==> buf[idx..idx + |data| - i] == data[i..]
    ensures done + data[i0..i] == (s0.tail + data)[..Full(|s0.tail + data|)]
    ensures buf[..(|s0.tail| + |data|) % 64] == (s0.tail + data)[Full(|s0.tail + data|)..]
  {
    var m := s0.tail + data;
    var p := |s0.tail| + i - idx;
    if i0 == 0 {
      assert idx == |s0.tail| && done == [] && buf[..idx] == s0.tail;
      if idx != 0 {
        assert |data| < 64 - idx;
        assert i == 0;
      }
      assert done + data[i0..i] == m[..p];
    } else {
      assert idx == 0 && i0 == 64 - |s0.tail| && done == m[..64];
      assert done + data[i0..i] == m[..p];
    }
    assert |m| - p == idx + |data| - i;
    assert Full(|m|) == p;
    assert buf[..|m| % 64] == m[p..];
  }

  /** len_be[i] = (bitlen >> (56 - 8i)) & 0xFF. */
  method LengthBytes(bitlen: Uint64) returns (lenBE: seq<Byte>)
    ensures lenBE == BE64(bitlen)
  {
    var a := new Byte[8];
    for i := 0 to 8
      invariant forall k :: 0 <= k < i ==> a[k] == ByteOf64(bitlen as bv64, k)
    {
      a[i] := ByteOf64(bitlen as bv64, i);
    }
    forall k | 0 <= k < 8
      ensures a[k] == BE64(bitlen)[k]
    {
      BE64At(bitlen, k);
    }
    lenBE := a[..];
  }

  /** The output loop of sm3_final: out[4i..4i+4) is state[i] big-endian. */
  method StoreDigest(state: array<Word>) returns (out: seq<Byte>)
    requires state.Length == 8
    ensures out == WordsToBytes(state[..])
  {
    var a := new Byte[32];
    for i := 0 to 8
      invariant forall k :: 0 <= k < 4 * i ==> a[k] == WordsToBytes(state[..])[k]
    {
      StoreWord(a, state[..], state[i], i);
    }
    out := a[..];
  }

  /** The unshown sm3_hash: init, one update, final. */
  method HashOnce(backend: Backend, msg: seq<Byte>) returns (digest: seq<Byte>)
    ensures digest == Hash(msg)
  {
    var ctx := new Context(backend);
    ctx.Update(msg);
    assert ctx.absorbed == msg;
    digest := ctx.Final();
  }
}

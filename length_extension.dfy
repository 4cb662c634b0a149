/**
  The length-extension forgery against SM3: from H(secret) and the length
  of secret alone, the digest of secret || glue || suffix is computed, where
  glue is the padding of secret. The padding helpers pad_len and sm3_padding
  recompute the padding of section 5.2 of GB/T 32905-2016 with bit counts.
 */
module LengthExtension {
  import opened Bits
  import opened Sm3Spec
  import Sm3Engine

  /** The uint64 arithmetic of pad_len and sm3_padding does not wrap: the
      bit count plus the at most 576 bits added to it fits in 64 bits. */
  predicate BitCountFits(len: nat) {
    8 * len + 576 < TWO_POW_64
  }

  /** pad_len: the padded length in bytes, computed from the bit count
      l = 8 len as (l + 1 + k + 64) / 8 with k the zero bits up to 448
      mod 512. */
  function PadLen(len: nat): (n: nat)
    requires BitCountFits(len)
    ensures n == len + |Padding(len)|
  {
    PadArith(len);
    var l := 8 * len;
    var k := (448 - (l + 1) % 512 + 512) % 512;
    (l + 1 + k + 64) / 8
  }

  /** The bit arithmetic of pad_len agrees with the byte arithmetic of
      Padding: 0x80, PadZeros(len) zero bytes and eight length bytes. */
  lemma PadArith(len: nat)
    ensures var l := 8 * len;
            var k := (448 - (l + 1) % 512 + 512) % 512;
            (l + 1 + k + 64) / 8 == len + 9 + PadZeros(len)
  {
    var q, t := len / 64, len % 64;
    var l := 8 * len;
    assert l == 512 * q + 8 * t;
    assert (l + 1) % 512 == 8 * t + 1 by {
      ModShift512(q, 8 * t + 1);
    }
    var k := (448 - (l + 1) % 512 + 512) % 512;
    if t <= 55 {
      assert k == 447 - 8 * t;
      assert l + 1 + k + 64 == 8 * (64 * q + 64);
    } else {
      assert k == 959 - 8 * t;
      assert l + 1 + k + 64 == 8 * (64 * q + 128);
    }
  }

  lemma ModShift512(q: nat, t: nat)
    ensures (512 * q + t) % 512 == t % 512
  {
  }

  /** The shift blen >> n of sm3_padding's loop. */
  function ShiftRight64(x: bv64, n: nat): bv64
    requires n < 64
  {
    x >> n
  }

  /** The eight byte positions of a 64-bit value, from the low end. */
  lemma ShiftedBytes(x: bv64)
    ensures (ShiftRight64(x, 0) & 0xFF) as bv8 == ByteOf64(x, 7)
    ensures (ShiftRight64(x, 8) & 0xFF) as bv8 == ByteOf64(x, 6)
    ensures (ShiftRight64(x, 16) & 0xFF) as bv8 == ByteOf64(x, 5)
    ensures (ShiftRight64(x, 24) & 0xFF) as bv8 == ByteOf64(x, 4)
    ensures (ShiftRight64(x, 32) & 0xFF) as bv8 == ByteOf64(x, 3)
    ensures (ShiftRight64(x, 40) & 0xFF) as bv8 == ByteOf64(x, 2)
    ensures (ShiftRight64(x, 48) & 0xFF) as bv8 == ByteOf64(x, 1)
    ensures (ShiftRight64(x, 56) & 0xFF) as bv8 == ByteOf64(x, 0)
  {
  }

  /** Byte i from the low end of a 64-bit value is big-endian byte 7 - i. */
  lemma ShiftedByte(x: bv64, i: nat)
    requires i < 8
    ensures (ShiftRight64(x, 8 * i) & 0xFF) as bv8 == ByteOf64(x, 7 - i)
  {
    ShiftedBytes(x);
    hide ShiftRight64, ByteOf64;
    if i == 0 {
    } else if i == 1 {
    } else if i == 2 {
    } else if i == 3 {
    } else if i == 4 {
    } else if i == 5 {
    } else if i == 6 {
    } else {
    }
  }

  /** sm3_padding: a zeroed vector of total - len bytes, 0x80 first, the bit
      count written from the last byte backwards, low byte last. It is the
      padding of section 5.2, the bytes sm3_final feeds through update. */
  method Sm3Padding(len: nat) returns (pad: seq<Byte>)
    requires BitCountFits(len)
    ensures pad == Padding(len)
  {
    hide Padding, ByteOf64;
    var l := 8 * len;
    var k := (448 - (l + 1) % 512 + 512) % 512;
    var total := (l + 1 + k + 64) / 8;
    PadArith(len);
    var a := new Byte[total - len](_ => 0);
    a[0] := 0x80;
    var blen: bv64 := (8 * len) as bv64;
    for i := 0 to 8
      invariant a[0] == 0x80
      invariant forall j :: 0 < j < a.Length - 8 ==> a[j] == 0
      invariant forall j :: a.Length - i <= j < a.Length ==> a[j] == ByteOf64(blen, j - (a.Length - 8))
    {
      PutCountByte(a, blen, i);
    }
    pad := a[..];
    PaddingBytes(len, pad);
  }

  /** One iteration of the loop of sm3_padding: byte i of the count from
      the low end goes i places before the end of the vector. */
  method PutCountByte(a: array<Byte>, blen: bv64, i: nat)
    requires 8 <= a.Length && i < 8
    modifies a
    ensures a[a.Length - 1 - i] == ByteOf64(blen, 7 - i)
    ensures forall j :: 0 <= j < a.Length && j != a.Length - 1 - i ==> a[j] == old(a[j])
  {
    a[a.Length - 1 - i] := ((blen >> (8 * i)) & 0xFF) as bv8;
    ShiftedByte(blen, i);
  }

  /** A 9 + PadZeros(len) byte string with 0x80 first, zeros after it and
      the big-endian bit count last is the padding. */
  lemma PaddingBytes(len: nat, pad: seq<Byte>)
    requires BitCountFits(len)
    requires |pad| == 9 + PadZeros(len) && pad[0] == 0x80
    requires forall j :: 0 < j < |pad| - 8 ==> pad[j] == 0
    requires forall j :: |pad| - 8 <= j < |pad| ==> pad[j] == ByteOf64((8 * len) as bv64, j - (|pad| - 8))
    ensures pad == Padding(len)
  {
    hide ByteOf64, BE64, Padding;
    var n := |pad| - 8;
    var x: Uint64 := 8 * len;
    var head, count := pad[..n], pad[n..];
    assert pad == head + count;
    HeadBytes(len, head);
    forall m | 0 <= m < 8
      ensures count[m] == ByteOf64(x as bv64, m)
    {
      assert count[m] == pad[n + m];
    }
    CountBytes(x, count);
    PaddingParts(len, head, count);
  }

  /** The padding is its head of 0x80 and zeros, then the eight count bytes. */
  lemma PaddingParts(len: nat, head: seq<Byte>, count: seq<Byte>)
    requires BitCountFits(len)
    requires head == [0x80] + Zeros(PadZeros(len)) && count == BE64(8 * len)
    ensures head + count == Padding(len)
  {
    hide BE64;
    assert (8 * len) % TWO_POW_64 == 8 * len;
  }

  /** 0x80 followed by PadZeros(len) zero bytes. */
  lemma HeadBytes(len: nat, head: seq<Byte>)
    requires |head| == 1 + PadZeros(len) && head[0] == 0x80
    requires forall j :: 0 < j < |head| ==> head[j] == 0
    ensures head == [0x80] + Zeros(PadZeros(len))
  {
  }

  /** Eight bytes that are the big-endian bytes of x are BE64(x). */
  lemma CountBytes(x: Uint64, count: seq<Byte>)
    requires |count| == 8 && forall m :: 0 <= m < 8 ==> count[m] == ByteOf64(x as bv64, m)
    ensures count == BE64(x)
  {
    hide ByteOf64;
    forall m | 0 <= m < 8
      ensures count[m] == BE64(x)[m]
    {
      BE64At(x, m);
    }
  }

  /** The load loop of the attack: IV[i] is the big-endian word at 4i of the
      original digest. */
  method LoadDigest(h: seq<Byte>) returns (V: array<Word>)
    requires |h| == 32
    ensures fresh(V) && V.Length == 8
    ensures V[..] == BytesToWords(h)
  {
    V := new Word[8];
    for i := 0 to 8
      invariant forall k :: 0 <= k < i ==> V[k] == LoadBE32(h, 4 * k)
    {
      V[i] := LoadBE32(h, 4 * i);
    }
  }

  /** A prefix that is a whole number of blocks leaves the rest aligned. */
  lemma AlignedRest(a: nat, b: nat)
    requires a % 64 == 0 && (a + b) % 64 == 0
    ensures b % 64 == 0
  {
    assert b == (a + b) - a;
  }

  /** Whole blocks stepped up to within a block of an aligned end reach it. */
  lemma WholeBlocks(i: nat, n: nat)
    requires i <= n && n - i < 64 && i % 64 == 0 && n % 64 == 0
    ensures i == n
  {
    AlignedRest(i, n - i);
  }

  /** The length secret || glue || suffix the forged digest claims. */
  function ForgedLength(secretLen: nat, suffix: seq<Byte>): nat {
    secretLen + |Padding(secretLen)| + |suffix|
  }

  /** The bytes compressed after the original digest: the suffix and the
      padding of the whole forged message. */
  function ForgedStream(secretLen: nat, suffix: seq<Byte>): (full: seq<Byte>)
    ensures |full| % 64 == 0
  {
    PaddingShape(secretLen);
    PaddingShape(ForgedLength(secretLen, suffix));
    AlignedRest(secretLen + |Padding(secretLen)|, |suffix + Padding(ForgedLength(secretLen, suffix))|);
    suffix + Padding(ForgedLength(secretLen, suffix))
  }

  /** The digest the attacker computes: the original digest read back as a
      chaining value, iterated over the forged stream, serialized. */
  function ForgedDigest(h: seq<Byte>, secretLen: nat, suffix: seq<Byte>): (d: seq<Byte>)
    requires |h| == 32
    ensures |d| == 32
  {
    WordsToBytes(Iterate(BytesToWords(h), ForgedStream(secretLen, suffix)))
  }

  /** The forgery: knowing only H(secret) and |secret|, the attacker obtains
      the digest of secret || glue || suffix. */
  lemma ForgeryWorks(secret: seq<Byte>, suffix: seq<Byte>)
    ensures ForgedDigest(Hash(secret), |secret|, suffix) == Hash(secret + Padding(|secret|) + suffix)
  {
    hide Compress, Iterate, Padding;
    var glue := Padding(|secret|);
    var m := secret + glue;
    PaddingShape(|secret|);
    var full := ForgedStream(|secret|, suffix);
    DecodeEncode(Iterate(IV, m));
    assert BytesToWords(Hash(secret)) == Iterate(IV, m);
    var extended := m + suffix;
    assert |extended| == ForgedLength(|secret|, suffix);
    assert extended + Padding(|extended|) == m + full;
    IterateAppend(IV, m, full);
  }

  /** The attacker's side: glue from the secret's length, the original digest
      loaded into IV[], the forged stream compressed block by block with
      sm3_compress, IV[] stored big-endian. */
  method Forge(hOrig: seq<Byte>, secretLen: nat, suffix: seq<Byte>) returns (forged: seq<Byte>)
    requires |hOrig| == 32
    requires BitCountFits(secretLen) && BitCountFits(ForgedLength(secretLen, suffix))
    ensures forged == ForgedDigest(hOrig, secretLen, suffix)
  {
    hide Compress, Iterate, Padding;
    var glue := Sm3Padding(secretLen);
    var V := LoadDigest(hOrig);
    var fakeLen := secretLen + |glue|;
    var pad := Sm3Padding(fakeLen + |suffix|);
    var full := suffix + pad;
    assert full == ForgedStream(secretLen, suffix);
    IterateEmpty(V[..]);
    var i := Sm3Engine.CompressBlocks(Sm3Engine.Reference, V, V[..], [], full, 0);
    WholeBlocks(i, |full|);
    assert [] + full[0..i] == full;
    forged := Sm3Engine.StoreDigest(V);
  }

  /** The demonstration: the forged digest equals the digest of the real
      extended message secret || glue || suffix. */
  method LengthExtensionAttack(secret: seq<Byte>, suffix: seq<Byte>) returns (forged: seq<Byte>, hTrue: seq<Byte>, ok: bool)
    requires BitCountFits(|secret|) && BitCountFits(ForgedLength(|secret|, suffix))
    ensures ok && forged == hTrue
    ensures hTrue == Hash(secret + Padding(|secret|) + suffix)
  {
    var hOrig := Sm3Engine.HashOnce(Sm3Engine.Reference, secret);
    var glue := Sm3Padding(|secret|);
    forged := Forge(hOrig, |secret|, suffix);
    var extended := secret + glue + suffix;
    hTrue := Sm3Engine.HashOnce(Sm3Engine.Reference, extended);
    ForgeryWorks(secret, suffix);
    ok := forged == hTrue;
  }

  /** The stream the attack code as written compresses: the vector
      attack = glue || suffix, then the padding of the forged length. */
  function ForgedStreamAsWritten(secretLen: nat, suffix: seq<Byte>): seq<Byte> {
    Padding(secretLen) + suffix + Padding(ForgedLength(secretLen, suffix))
  }

  /** The digest the code as written prints: its loop compresses only the
      whole blocks of that stream, from the original digest. */
  function ForgedDigestAsWritten(h: seq<Byte>, secretLen: nat, suffix: seq<Byte>): (d: seq<Byte>)
    requires |h| == 32
    ensures |d| == 32
  {
    var full := ForgedStreamAsWritten(secretLen, suffix);
    WordsToBytes(Iterate(BytesToWords(h), full[..Sm3Engine.Full(|full|)]))
  }

  /** The attacker's side as written: the glue is compressed again after the
      original digest, which already covers it. */
  method ForgeAsWritten(hOrig: seq<Byte>, secretLen: nat, suffix: seq<Byte>) returns (forged: seq<Byte>)
    requires |hOrig| == 32
    requires BitCountFits(secretLen) && BitCountFits(ForgedLength(secretLen, suffix))
    ensures forged == ForgedDigestAsWritten(hOrig, secretLen, suffix)
  {
    hide Compress, Iterate, Padding;
    var glue := Sm3Padding(secretLen);
    var attack := glue + suffix;
    var V := LoadDigest(hOrig);
    var fakeLen := secretLen + |glue|;
    var pad := Sm3Padding(fakeLen + |suffix|);
    var full := attack + pad;
    assert full == ForgedStreamAsWritten(secretLen, suffix);
    IterateEmpty(V[..]);
    var i := Sm3Engine.CompressBlocks(Sm3Engine.Reference, V, V[..], [], full, 0);
    assert i == Sm3Engine.Full(|full|) && [] + full[0..i] == full[..i];
    forged := Sm3Engine.StoreDigest(V);
  }

  /** With secret "secret" and suffix ";admin=true" the stream as written is
      122 bytes; its one whole block is the glue and ";admin", while the
      forgery needs the block ";admin=true" || padding of 75 bytes. */
  lemma GlueCompressedTwice(h: seq<Byte>, suffix: seq<Byte>)
    requires |h| == 32
    requires suffix == [0x3B, 0x61, 0x64, 0x6D, 0x69, 0x6E, 0x3D, 0x74, 0x72, 0x75, 0x65]
    ensures |Padding(6)| == 58 && |Padding(75)| == 53
    ensures |ForgedStreamAsWritten(6, suffix)| == 122
    ensures ForgedDigestAsWritten(h, 6, suffix) == WordsToBytes(Compress(BytesToWords(h), Padding(6) + suffix[..6]))
    ensures ForgedDigest(h, 6, suffix) == WordsToBytes(Compress(BytesToWords(h), suffix + Padding(75)))
    ensures (Padding(6) + suffix[..6])[0] == 0x80 != (suffix + Padding(75))[0]
  {
    hide Compress, BE64;
    var v := BytesToWords(h);
    assert |Padding(6)| == 58 && |Padding(75)| == 53;
    assert ForgedLength(6, suffix) == 75;
    var full := ForgedStreamAsWritten(6, suffix);
    assert |full| == 122 && Sm3Engine.Full(|full|) == 64;
    var block := Padding(6) + suffix[..6];
    assert full[..64] == block;
    IterateBlock(v, [], block);
    assert [] + block == block;
    IterateBlock(v, [], suffix + Padding(75));
    assert [] + (suffix + Padding(75)) == suffix + Padding(75);
  }
}

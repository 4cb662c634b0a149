/**
  The SM4 block cipher of GB/T 32907-2016 in the T-table form of the class
  SM4_TTable: four 256-entry tables that fold the S-box and the linear
  transform L into lookups, the key schedule filling rk[], and encryption
  and decryption as 32 rounds over X[0..36).

  The class computes what its code does: init_T_table replicates S[i]
  into all four bytes before L, and set_key applies L' on top of the table
  lookups. The standard's tables (T[0][i] = L(S[i] << 24)) and key schedule
  (L' over the S-box layer alone) are defined beside them as IsStdTable and
  KeySchedule; TBoxIsRoundT and StandardKeyVector are proved of those, and
  AsWrittenTableCounterexample and AsWrittenKeyCounterexample show where
  the code departs from them. Encryption and decryption are proved to be
  inverse for any tables and round keys, the code's included.
 */
module Sm4 {
  import opened Bits

  type Word = bv32
  type Byte = bv8

  /** ROUNDS, the length of the round-key array rk[] and of CK. */
  const ROUNDS: nat := 32

  /** The S-box S_BOX. */
  const SBOX: seq<Byte> :=
      [0xD6, 0x90, 0xE9, 0xFE, 0xCC, 0xE1, 0x3D, 0xB7, 0x16, 0xB6, 0x14, 0xC2, 0x28, 0xFB, 0x2C, 0x05]
    + [0x2B, 0x67, 0x9A, 0x76, 0x2A, 0xBE, 0x04, 0xC3, 0xAA, 0x44, 0x13, 0x26, 0x49, 0x86, 0x06, 0x99]
    + [0x9C, 0x42, 0x50, 0xF4, 0x91, 0xEF, 0x98, 0x7A, 0x33, 0x54, 0x0B, 0x43, 0xED, 0xCF, 0xAC, 0x62]
    + [0xE4, 0xB3, 0x1C, 0xA9, 0xC9, 0x08, 0xE8, 0x95, 0x80, 0xDF, 0x94, 0xFA, 0x75, 0x8F, 0x3F, 0xA6]
    + [0x47, 0x07, 0xA7, 0xFC, 0xF3, 0x73, 0x17, 0xBA, 0x83, 0x59, 0x3C, 0x19, 0xE6, 0x85, 0x4F, 0xA8]
    + [0x68, 0x6B, 0x81, 0xB2, 0x71, 0x64, 0xDA, 0x8B, 0xF8, 0xEB, 0x0F, 0x4B, 0x70, 0x56, 0x9D, 0x35]
    + [0x1E, 0x24, 0x0E, 0x5E, 0x63, 0x58, 0xD1, 0xA2, 0x25, 0x22, 0x7C, 0x3B, 0x01, 0x21, 0x78, 0x87]
    + [0xD4, 0x00, 0x46, 0x57, 0x9F, 0xD3, 0x27, 0x52, 0x4C, 0x36, 0x02, 0xE7, 0xA0, 0xC4, 0xC8, 0x9E]
    + [0xEA, 0xBF, 0x8A, 0xD2, 0x40, 0xC7, 0x38, 0xB5, 0xA3, 0xF7, 0xF2, 0xCE, 0xF9, 0x61, 0x15, 0xA1]
    + [0xE0, 0xAE, 0x5D, 0xA4, 0x9B, 0x34, 0x1A, 0x55, 0xAD, 0x93, 0x32, 0x30, 0xF5, 0x8C, 0xB1, 0xE3]
    + [0x1D, 0xF6, 0xE2, 0x2E, 0x82, 0x66, 0xCA, 0x60, 0xC0, 0x29, 0x23, 0xAB, 0x0D, 0x53, 0x4E, 0x6F]
    + [0xD5, 0xDB, 0x37, 0x45, 0xDE, 0xFD, 0x8E, 0x2F, 0x03, 0xFF, 0x6A, 0x72, 0x6D, 0x6C, 0x5B, 0x51]
    + [0x8D, 0x1B, 0xAF, 0x92, 0xBB, 0xDD, 0xBC, 0x7F, 0x11, 0xD9, 0x5C, 0x41, 0x1F, 0x10, 0x5A, 0xD8]
    + [0x0A, 0xC1, 0x31, 0x88, 0xA5, 0xCD, 0x7B, 0xBD, 0x2D, 0x74, 0xD0, 0x12, 0xB8, 0xE5, 0xB4, 0xB0]
    + [0x89, 0x69, 0x97, 0x4A, 0x0C, 0x96, 0x77, 0x7E, 0x65, 0xB9, 0xF1, 0x09, 0xC5, 0x6E, 0xC6, 0x84]
    + [0x18, 0xF0, 0x7D, 0xEC, 0x3A, 0xDC, 0x4D, 0x20, 0x79, 0xEE, 0x5F, 0x3E, 0xD7, 0xCB, 0x39, 0x48]
  /** The system parameter FK. */
  const FK: seq<Word> := [0xA3B1BAC6, 0x56AA3350, 0x677D9197, 0xB27022DC]

  /** The fixed parameters CK of the key schedule. */
  const CK: seq<Word> := [
    0x00070e15, 0x1c232a31, 0x383f464d, 0x545b6269,
    0x70777e85, 0x8c939aa1, 0xa8afb6bd, 0xc4cbd2d9,
    0xe0e7eef5, 0xfc030a11, 0x181f262d, 0x343b4249,
    0x50575e65, 0x6c737a81, 0x888f969d, 0xa4abb2b9,
    0xc0c7ced5, 0xdce3eaf1, 0xf8ff060d, 0x141b2229,
    0x30373e45, 0x4c535a61, 0x686f767d, 0x848b9299,
    0xa0a7aeb5, 0xbcc3cad1, 0xd8dfe6ed, 0xf4fb0209,
    0x10171e25, 0x2c333a41, 0x484f565d, 0x646b7279
  ]

  /** A byte as a table index. */
  function Index(b: Byte): (i: int)
    ensures 0 <= i < 256
  {
    b as int
  }

  /** The S-box at index i. */
  function Sbox(i: int): Byte
    requires 0 <= i < 256
  {
    SBOX[i]
  }

  /** rotate_left(x, n) of the class, (x << n) | (x >> (32 - n)), for the
      amounts 0 < n < 32 it is called with. */
  function RotateLeft(x: Word, n: bv8): Word
    requires 0 < n < 32
  {
    (x << n) | (x >> (32 - n))
  }

  /** The linear transform L of the round function. */
  function L(b: Word): Word {
    Xor(Xor(Xor(Xor(b, RotateLeft(b, 2)), RotateLeft(b, 10)), RotateLeft(b, 18)), RotateLeft(b, 24))
  }

  /** The linear transform L' of the key schedule. */
  function LKey(y: Word): Word {
    Xor(Xor(y, RotateLeft(y, 13)), RotateLeft(y, 23))
  }

  /** The word of four bytes, b0 the most significant; the bytes occupy
      disjoint bit positions, so they are combined with xor. */
  function Word4(b0: Byte, b1: Byte, b2: Byte, b3: Byte): Word {
    Xor(Xor(Xor((b0 as Word) << 24, (b1 as Word) << 16), (b2 as Word) << 8), b3 as Word)
  }

  /** The nonlinear transform tau: the S-box on each byte. */
  function Tau(x: Word): Word {
    Word4(Sbox(Index(ByteOf(x, 0))), Sbox(Index(ByteOf(x, 1))), Sbox(Index(ByteOf(x, 2))), Sbox(Index(ByteOf(x, 3))))
  }

  /** The round transform T = L(tau(.)) of encryption. */
  function RoundT(x: Word): Word {
    L(Tau(x))
  }

  /** The transform T' = L'(tau(.)) of the key schedule. */
  function KeyT(x: Word): Word {
    LKey(Tau(x))
  }

  /** Entry i of T[0]: L of the S-box byte in the top byte position. */
  function Entry(i: nat): Word
    requires i < 256
  {
    L((Sbox(i) as Word) << 24)
  }

  /** Entry i of T[j]: T[0][i] rotated left by 0, 24, 16 or 8. */
  function TableEntry(j: nat, i: nat): Word
    requires j < 4 && i < 256
  {
    var e := Entry(i);
    if j == 0 then e else if j == 1 then RotateLeft(e, 24) else if j == 2 then RotateLeft(e, 16) else RotateLeft(e, 8)
  }

  /** tab is a 4 x 256 table. */
  ghost predicate IsTable(tab: seq<seq<Word>>) {
    |tab| == 4 && forall j :: 0 <= j < 4 ==> |tab[j]| == 256
  }

  /** tab holds the four tables T[0..4) of the standard. */
  ghost predicate IsStdTable(tab: seq<seq<Word>>) {
    IsTable(tab) && forall j, i :: 0 <= j < 4 && 0 <= i < 256 ==> tab[j][i] == TableEntry(j, i)
  }

  /** The table lookup T[j][b], zero outside a 4 x 256 table. */
  function Lookup(tab: seq<seq<Word>>, j: nat, b: Byte): Word {
    if j < |tab| && Index(b) < |tab[j]| then tab[j][Index(b)] else 0
  }

  /** The round function of the class: the xor of the four lookups on the
      bytes of x, most significant byte in T[0]. */
  function TBox(tab: seq<seq<Word>>, x: Word): Word {
    Xor(Xor(Xor(Lookup(tab, 0, ByteOf(x, 0)), Lookup(tab, 1, ByteOf(x, 1))),
            Lookup(tab, 2, ByteOf(x, 2))), Lookup(tab, 3, ByteOf(x, 3)))
  }

  // Xor and rotation laws, each over one fixed rotation amount: the
  // proofs below keep Xor and RotateLeft hidden and rewrite with these.

  lemma XorAssoc(a: Word, b: Word, c: Word)
    ensures Xor(Xor(a, b), c) == Xor(a, Xor(b, c))
  {
  }

  lemma XorComm(a: Word, b: Word)
    ensures Xor(a, b) == Xor(b, a)
  {
  }

  lemma XorCancel(a: Word, t: Word)
    ensures Xor(Xor(a, t), t) == a
  {
  }

  lemma XorSelf(a: Word)
    ensures Xor(a, a) == 0 && Xor(0, a) == a
  {
  }

  lemma XorSwapMiddle(a: Word, b: Word, c: Word, d: Word)
    ensures Xor(Xor(a, b), Xor(c, d)) == Xor(Xor(a, c), Xor(b, d))
  {
    hide Xor;
    XorAssoc(a, b, Xor(c, d));
    XorAssoc(b, c, d);
    XorComm(b, c);
    XorAssoc(c, b, d);
    XorAssoc(a, c, Xor(b, d));
  }

  lemma RotXor2(a: Word, b: Word)
    ensures RotateLeft(Xor(a, b), 2) == Xor(RotateLeft(a, 2), RotateLeft(b, 2))
  {
  }

  lemma RotXor10(a: Word, b: Word)
    ensures RotateLeft(Xor(a, b), 10) == Xor(RotateLeft(a, 10), RotateLeft(b, 10))
  {
  }

  lemma RotXor18(a: Word, b: Word)
    ensures RotateLeft(Xor(a, b), 18) == Xor(RotateLeft(a, 18), RotateLeft(b, 18))
  {
  }

  lemma RotXor24(a: Word, b: Word)
    ensures RotateLeft(Xor(a, b), 24) == Xor(RotateLeft(a, 24), RotateLeft(b, 24))
  {
  }

  /** L is linear over xor. */
  lemma LXor(a: Word, b: Word)
    ensures L(Xor(a, b)) == Xor(L(a), L(b))
  {
    hide Xor, RotateLeft;
    RotXor2(a, b);
    RotXor10(a, b);
    RotXor18(a, b);
    RotXor24(a, b);
    var a1, b1 := Xor(a, RotateLeft(a, 2)), Xor(b, RotateLeft(b, 2));
    var a2, b2 := Xor(a1, RotateLeft(a, 10)), Xor(b1, RotateLeft(b, 10));
    var a3, b3 := Xor(a2, RotateLeft(a, 18)), Xor(b2, RotateLeft(b, 18));
    XorSwapMiddle(a, b, RotateLeft(a, 2), RotateLeft(b, 2));
    XorSwapMiddle(a1, b1, RotateLeft(a, 10), RotateLeft(b, 10));
    XorSwapMiddle(a2, b2, RotateLeft(a, 18), RotateLeft(b, 18));
    XorSwapMiddle(a3, b3, RotateLeft(a, 24), RotateLeft(b, 24));
  }

  /** L of a word of four bytes is the xor of L of each byte in its
      position. */
  lemma LOfWord4(s0: Byte, s1: Byte, s2: Byte, s3: Byte)
    ensures L(Word4(s0, s1, s2, s3)) ==
            Xor(Xor(Xor(L((s0 as Word) << 24), L((s1 as Word) << 16)), L((s2 as Word) << 8)), L(s3 as Word))
  {
    hide L, Xor;
    var w0, w1, w2, w3 := (s0 as Word) << 24, (s1 as Word) << 16, (s2 as Word) << 8, s3 as Word;
    LXor(Xor(Xor(w0, w1), w2), w3);
    LXor(Xor(w0, w1), w2);
    LXor(w0, w1);
  }

  /** L of a byte moved down by 8, 16 or 24 bits is T[0]'s entry rotated
      as T[1], T[2], T[3] are. */
  lemma EntryRotation24(s: Byte)
    ensures L((s as Word) << 16) == RotateLeft(L((s as Word) << 24), 24)
  {
  }

  lemma EntryRotation16(s: Byte)
    ensures L((s as Word) << 8) == RotateLeft(L((s as Word) << 24), 16)
  {
  }

  lemma EntryRotation8(s: Byte)
    ensures L(s as Word) == RotateLeft(L((s as Word) << 24), 8)
  {
  }

  /** The lookups in the standard's tables compute SM4's round transform
      T = L(tau(x)). */
  lemma TBoxIsRoundT(tab: seq<seq<Word>>, x: Word)
    requires IsStdTable(tab)
    ensures TBox(tab, x) == RoundT(x)
  {
    hide L, Xor, RotateLeft, Word4, Sbox, Index, ByteOf;
    var s0, s1, s2, s3 := Sbox(Index(ByteOf(x, 0))), Sbox(Index(ByteOf(x, 1))), Sbox(Index(ByteOf(x, 2))), Sbox(Index(ByteOf(x, 3)));
    EntryRotation24(s1);
    EntryRotation16(s2);
    EntryRotation8(s3);
    LOfWord4(s0, s1, s2, s3);
    assert Lookup(tab, 0, ByteOf(x, 0)) == L((s0 as Word) << 24);
    assert Lookup(tab, 1, ByteOf(x, 1)) == L((s1 as Word) << 16);
    assert Lookup(tab, 2, ByteOf(x, 2)) == L((s2 as Word) << 8);
    assert Lookup(tab, 3, ByteOf(x, 3)) == L(s3 as Word);
  }

  /** The four round words before one round: x[i+1..i+4) and the key. */
  function Mix(b: Word, c: Word, d: Word, k: Word): Word {
    Xor(Xor(Xor(b, c), d), k)
  }

  /** Word i+4 of a sequence built by the SM4 recurrence with round
      function f and round keys ks. */
  function NextX(f: Word -> Word, ks: seq<Word>, xs: seq<Word>, i: nat): Word
    requires i + 4 <= |xs| && i < |ks|
  {
    Xor(xs[i], f(Mix(xs[i + 1], xs[i + 2], xs[i + 3], ks[i])))
  }

  /** x[0..n) from x[0..4) by x[i+4] = x[i] ^ f(x[i+1] ^ x[i+2] ^ x[i+3] ^ ks[i]):
      the words of encryption, decryption and the key schedule alike. */
  function Feistel(f: Word -> Word, ks: seq<Word>, x4: seq<Word>, n: nat): (xs: seq<Word>)
    requires |x4| == 4 && 4 <= n <= |ks| + 4
    ensures |xs| == n
    decreases n
  {
    if n == 4 then x4 else var p := Feistel(f, ks, x4, n - 1); p + [NextX(f, ks, p, n - 5)]
  }

  /** The sequence starts with x[0..4) and follows the recurrence. */
  lemma {:induction false} FeistelRecurrence(f: Word -> Word, ks: seq<Word>, x4: seq<Word>, n: nat)
    requires |x4| == 4 && 4 <= n <= |ks| + 4
    ensures var xs := Feistel(f, ks, x4, n);
            xs[..4] == x4 && forall i {:trigger NextX(f, ks, xs, i)} :: 0 <= i < n - 4 ==> xs[i + 4] == NextX(f, ks, xs, i)
    decreases n
  {
    if n > 4 {
      FeistelRecurrence(f, ks, x4, n - 1);
      var p := Feistel(f, ks, x4, n - 1);
      var xs := Feistel(f, ks, x4, n);
      assert xs == p + [NextX(f, ks, p, n - 5)];
      forall i | 0 <= i < n - 4
        ensures xs[i + 4] == NextX(f, ks, xs, i)
      {
        if i < n - 5 {
          assert NextX(f, ks, xs, i) == NextX(f, ks, p, i);
        }
      }
    }
  }

  /** The output words X[35], X[34], X[33], X[32]. */
  function Output(xs: seq<Word>): seq<Word>
    requires |xs| == 36
  {
    [xs[35], xs[34], xs[33], xs[32]]
  }

  /** A block through the 32 rounds with round function f and keys ks:
      loaded as four big-endian words, stored in reverse word order. */
  function CryptWith(f: Word -> Word, ks: seq<Word>, block: seq<Byte>): (out: seq<Byte>)
    requires |ks| == ROUNDS && |block| == 16
    ensures |out| == 16
  {
    WordsToBytes(Output(Feistel(f, ks, BytesToWords(block), 36)))
  }

  function Reverse(ks: seq<Word>): (r: seq<Word>)
    ensures |r| == |ks| && forall i :: 0 <= i < |ks| ==> r[i] == ks[|ks| - 1 - i]
  {
    seq(|ks|, i requires 0 <= i < |ks| => ks[|ks| - 1 - i])
  }

  lemma ReverseReverse(ks: seq<Word>)
    ensures Reverse(Reverse(ks)) == ks
  {
  }

  lemma MixSwap(a: Word, b: Word, c: Word, k: Word)
    ensures Mix(a, b, c, k) == Mix(c, b, a, k)
  {
    hide Xor;
    XorComm(Xor(a, b), c);
    XorComm(a, b);
    XorAssoc(c, b, a);
  }

  /** Running the recurrence on the reversed output with reversed keys
      retraces the words of the first run backwards. */
  lemma {:induction false} Mirror(f: Word -> Word, ks: seq<Word>, xs: seq<Word>, ys: seq<Word>, n: nat)
    requires |ks| == ROUNDS && |xs| == 36 && |ys| == 36 && n <= 36
    requires forall i {:trigger NextX(f, ks, xs, i)} :: 0 <= i < 32 ==> xs[i + 4] == NextX(f, ks, xs, i)
    requires forall i {:trigger NextX(f, Reverse(ks), ys, i)} :: 0 <= i < 32 ==> ys[i + 4] == NextX(f, Reverse(ks), ys, i)
    requires ys[..4] == Output(xs)
    ensures forall i :: 0 <= i < n ==> ys[i] == xs[35 - i]
    decreases n
  {
    if n > 0 {
      Mirror(f, ks, xs, ys, n - 1);
      var i := n - 1;
      if i < 4 {
        assert ys[i] == ys[..4][i];
      } else {
        assert xs[39 - i] == NextX(f, ks, xs, 35 - i);
        assert ys[i] == NextX(f, Reverse(ks), ys, i - 4);
        MirrorStep(f, ks, xs, ys, i);
      }
    }
  }

  /** One step of Mirror: the reversed recurrence's word i undoes round
      35 - i of the forward one. */
  lemma MirrorStep(f: Word -> Word, ks: seq<Word>, xs: seq<Word>, ys: seq<Word>, i: nat)
    requires |ks| == ROUNDS && |xs| == 36 && |ys| == 36 && 4 <= i < 36
    requires xs[39 - i] == NextX(f, ks, xs, 35 - i)
    requires ys[i] == NextX(f, Reverse(ks), ys, i - 4)
    requires ys[i - 4] == xs[39 - i] && ys[i - 3] == xs[38 - i] && ys[i - 2] == xs[37 - i] && ys[i - 1] == xs[36 - i]
    ensures ys[i] == xs[35 - i]
  {
    var j := 35 - i;
    var t := f(Mix(xs[j + 1], xs[j + 2], xs[j + 3], ks[j]));
    assert Reverse(ks)[i - 4] == ks[j];
    MixSwap(xs[j + 1], xs[j + 2], xs[j + 3], ks[j]);
    XorCancel(xs[j], t);
  }

  /** Decryption with the round keys reversed undoes encryption, for any
      round function and any round keys. */
  lemma FeistelRoundTrip(f: Word -> Word, ks: seq<Word>, block: seq<Byte>)
    requires |ks| == ROUNDS && |block| == 16
    ensures CryptWith(f, Reverse(ks), CryptWith(f, ks, block)) == block
  {
    hide Xor, WordsToBytes, BytesToWords, Feistel, NextX;
    var w := BytesToWords(block);
    var xs := Feistel(f, ks, w, 36);
    var c := CryptWith(f, ks, block);
    assert c == WordsToBytes(Output(xs));
    DecodeEncode(Output(xs));
    var ys := Feistel(f, Reverse(ks), Output(xs), 36);
    FeistelRecurrence(f, ks, w, 36);
    FeistelRecurrence(f, Reverse(ks), Output(xs), 36);
    Mirror(f, ks, xs, ys, 36);
    assert ys[35] == xs[0] && ys[34] == xs[1] && ys[33] == xs[2] && ys[32] == xs[3];
    assert xs[..4] == w;
    assert Output(ys) == [w[0], w[1], w[2], w[3]] == w;
    EncodeDecode(block);
  }

  /** The round function of the class over its tables. */
  function RoundFn(tab: seq<seq<Word>>): Word -> Word {
    x => TBox(tab, x)
  }

  /** decrypt(encrypt(p)) == p and encrypt(decrypt(c)) == c, for any tables
      and any round keys. */
  lemma EncryptDecrypt(tab: seq<seq<Word>>, rk: seq<Word>, block: seq<Byte>)
    requires |rk| == ROUNDS && |block| == 16
    ensures CryptWith(RoundFn(tab), Reverse(rk), CryptWith(RoundFn(tab), rk, block)) == block
    ensures CryptWith(RoundFn(tab), rk, CryptWith(RoundFn(tab), Reverse(rk), block)) == block
  {
    FeistelRoundTrip(RoundFn(tab), rk, block);
    FeistelRoundTrip(RoundFn(tab), Reverse(rk), block);
    ReverseReverse(rk);
  }

  /** K[0..4) of the key schedule: the big-endian key words xor FK. */
  function KeyInit(key: seq<Byte>): (k: seq<Word>)
    requires |key| == 16
    ensures |k| == 4
  {
    seq(4, i requires 0 <= i < 4 => Xor(LoadBE32(key, 4 * i), FK[i]))
  }

  /** The round keys rk[i] = K[i+4] = K[i] ^ T'(K[i+1] ^ K[i+2] ^ K[i+3] ^ CK[i]). */
  function KeySchedule(key: seq<Byte>): (rk: seq<Word>)
    requires |key| == 16
    ensures |rk| == ROUNDS
  {
    Feistel(KeyT, CK, KeyInit(key), 36)[4..]
  }

  /** The byte a in all four byte positions, as init_T_table forms it. */
  function Replicate(a: Byte): Word {
    ((a as Word) << 24) | ((a as Word) << 16) | ((a as Word) << 8) | (a as Word)
  }

  /** The table of the class as written: S[i] in all four bytes before L. */
  function EntryAsWritten(i: nat): Word
    requires i < 256
  {
    L(Replicate(Sbox(i)))
  }

  /** Entry i of T[j] as written. */
  function TableEntryAsWritten(j: nat, i: nat): Word
    requires j < 4 && i < 256
  {
    var e := EntryAsWritten(i);
    if j == 0 then e else if j == 1 then RotateLeft(e, 24) else if j == 2 then RotateLeft(e, 16) else RotateLeft(e, 8)
  }

  /** tab holds the tables init_T_table fills as written. */
  ghost predicate IsTableAsWritten(tab: seq<seq<Word>>) {
    IsTable(tab) && forall j, i :: 0 <= j < 4 && 0 <= i < 256 ==> tab[j][i] == TableEntryAsWritten(j, i)
  }

  /** A word with four equal bytes is fixed by byte rotations, and so is L
      of it. */
  lemma ReplicatedFixed(s: Byte)
    ensures var e := L(Replicate(s));
            RotateLeft(e, 24) == e && RotateLeft(e, 16) == e && RotateLeft(e, 8) == e
  {
  }

  lemma BytesOfReplicate(b: Byte)
    ensures ByteOf(Replicate(b), 0) == b && ByteOf(Replicate(b), 1) == b
    ensures ByteOf(Replicate(b), 2) == b && ByteOf(Replicate(b), 3) == b
  {
  }

  /** As written, the four tables coincide, so the four lookups of a word
      whose bytes are equal cancel: the round function maps 0xFFFFFFFF to
      0. */
  lemma AsWrittenTableCounterexample(tab: seq<seq<Word>>)
    requires IsTableAsWritten(tab)
    ensures forall j, i :: 0 <= j < 4 && 0 <= i < 256 ==> tab[j][i] == tab[0][i]
    ensures forall b: Byte :: TBox(tab, Replicate(b)) == 0
    ensures TBox(tab, 0xFFFFFFFF) == 0
  {
    hide L, RotateLeft, Xor, Replicate, Sbox;
    forall j, i | 0 <= j < 4 && 0 <= i < 256
      ensures tab[j][i] == tab[0][i]
    {
      ReplicatedFixed(Sbox(i));
    }
    forall b: Byte
      ensures TBox(tab, Replicate(b)) == 0
    {
      BytesOfReplicate(b);
      var e := tab[0][Index(b)];
      assert TBox(tab, Replicate(b)) == Xor(Xor(Xor(e, e), e), e);
      XorSelf(e);
      XorSelf(Xor(Xor(e, e), e));
    }
    assert Replicate(0xFF) == 0xFFFFFFFF by {
      ReplicateOnes();
    }
  }

  lemma ReplicateOnes()
    ensures Replicate(0xFF) == 0xFFFFFFFF
  {
  }

  /** The standard's tables map 0xFFFFFFFF to T(0xFFFFFFFF) = 0x21212121. */
  lemma StdTableOnes(tab: seq<seq<Word>>)
    requires IsStdTable(tab)
    ensures TBox(tab, 0xFFFFFFFF) == RoundT(0xFFFFFFFF) == 0x21212121
  {
    hide L;
    TauOfOnes();
    ProbeTransforms();
    TBoxIsRoundT(tab, 0xFFFFFFFF);
  }

  /** The key transform of the class as written: L' on top of the table
      lookups, which already include L. */
  function KeyRoundAsWritten(tab: seq<seq<Word>>): Word -> Word {
    x => LKey(TBox(tab, x))
  }

  /** The round keys rk[] of set_key as written, over tables tab. */
  function KeyScheduleAsWritten(tab: seq<seq<Word>>, key: seq<Byte>): (rk: seq<Word>)
    requires |key| == 16
    ensures |rk| == ROUNDS
  {
    Feistel(KeyRoundAsWritten(tab), CK, KeyInit(key), 36)[4..]
  }

  /** A key whose first round transforms 0xFFFFFFFF: MK = FK xor (0, CK[0]
      xor 0xFFFFFFFF, 0, 0). */
  const PROBE_KEY: seq<Byte> := [0xA3, 0xB1, 0xBA, 0xC6, 0xA9, 0x52, 0xC2, 0xBA,
                                 0x67, 0x7D, 0x91, 0x97, 0xB2, 0x70, 0x22, 0xDC]

  lemma TauOfOnes()
    ensures Tau(0xFFFFFFFF) == 0x48484848
  {
    assert Sbox(255) == 0x48;
  }

  lemma ProbeTransforms()
    ensures L(0x48484848) == 0x21212121
    ensures LKey(0x48484848) == 0x65656565 && LKey(0x21212121) == 0x95959595
  {
  }

  lemma ProbeKeyWords()
    ensures KeyInit(PROBE_KEY) == [0, 0xFFF8F1EA, 0, 0]
    ensures Mix(0xFFF8F1EA, 0, 0, CK[0]) == 0xFFFFFFFF
  {
  }

  /** The key-schedule defect alone: over the standard's tables the key
      transform as written is L'(L(tau(x))) rather than L'(tau(x)), and on
      PROBE_KEY the first round key is 0x95959595 rather than 0x65656565.
      (The class also builds other tables; AsWrittenProbeKey and
      AsWrittenKeyVector give what it computes with those.) */
  lemma AsWrittenKeyCounterexample(tab: seq<seq<Word>>)
    requires IsStdTable(tab)
    ensures forall x :: KeyRoundAsWritten(tab)(x) == LKey(L(Tau(x)))
    ensures KeyScheduleAsWritten(tab, PROBE_KEY)[0] == 0x95959595
    ensures KeySchedule(PROBE_KEY)[0] == 0x65656565
  {
    hide L, LKey, Xor, RotateLeft, Tau, Feistel, TBox;
    AsWrittenKeyTransform(tab);
    var k := KeyInit(PROBE_KEY);
    ProbeKeyWords();
    TauOfOnes();
    ProbeTransforms();
    XorSelf(0x65656565);
    XorSelf(0x95959595);
    FeistelRecurrence(KeyT, CK, k, 36);
    FeistelRecurrence(KeyRoundAsWritten(tab), CK, k, 36);
    assert Feistel(KeyT, CK, k, 36)[4] == NextX(KeyT, CK, Feistel(KeyT, CK, k, 36), 0);
    assert Feistel(KeyRoundAsWritten(tab), CK, k, 36)[4]
        == NextX(KeyRoundAsWritten(tab), CK, Feistel(KeyRoundAsWritten(tab), CK, k, 36), 0);
  }

  /** Over the standard's tables the key transform as written is
      L'(L(tau(x))). */
  lemma AsWrittenKeyTransform(tab: seq<seq<Word>>)
    requires IsStdTable(tab)
    ensures forall x :: KeyRoundAsWritten(tab)(x) == LKey(L(Tau(x)))
  {
    hide L, LKey, Xor, RotateLeft, Tau, Feistel;
    forall x
      ensures KeyRoundAsWritten(tab)(x) == LKey(L(Tau(x)))
    {
      TBoxIsRoundT(tab, x);
    }
  }

  /** With the tables init_T_table really builds, the probe key's first
      round transforms 0xFFFFFFFF to 0, and so does its first round key. */
  lemma AsWrittenProbeKey(tab: seq<seq<Word>>)
    requires IsTableAsWritten(tab)
    ensures KeyScheduleAsWritten(tab, PROBE_KEY)[0] == 0
  {
    hide L, LKey, Xor, RotateLeft, Tau, Feistel, TBox, Replicate, Sbox;
    AsWrittenTableCounterexample(tab);
    var k := KeyInit(PROBE_KEY);
    ProbeKeyWords();
    LKeyZero();
    FeistelRecurrence(KeyRoundAsWritten(tab), CK, k, 36);
    assert Feistel(KeyRoundAsWritten(tab), CK, k, 36)[4]
        == NextX(KeyRoundAsWritten(tab), CK, Feistel(KeyRoundAsWritten(tab), CK, k, 36), 0);
  }

  lemma LKeyZero()
    ensures LKey(0) == 0 && Xor(0, 0) == 0
  {
  }

  /** The key (and plaintext) 01 23 45 67 89 AB CD EF FE DC BA 98 76 54 32 10
      of the example in appendix A of GB/T 32907-2016. */
  const STD_KEY: seq<Byte> := [0x01, 0x23, 0x45, 0x67, 0x89, 0xAB, 0xCD, 0xEF,
                               0xFE, 0xDC, 0xBA, 0x98, 0x76, 0x54, 0x32, 0x10]

  lemma StdKeyWords()
    ensures KeyInit(STD_KEY) == [0xA292FFA1, 0xDF01FEBF, 0x99A12B0F, 0xC42410CC]
    ensures Mix(0xDF01FEBF, 0x99A12B0F, 0xC42410CC, CK[0]) == 0x8283CB69
  {
  }

  /** The S-box entries the example's first key round uses. */
  lemma StdKeySboxEntries()
    ensures Sbox(0x82) == 0x8A && Sbox(0x83) == 0xD2 && Sbox(0xCB) == 0x41 && Sbox(0x69) == 0x22
  {
  }

  /** The S-box entries the example's first round uses. */
  lemma StdRoundSboxEntries()
    ensures Sbox(0xF0) == 0x18 && Sbox(0x02) == 0xE9 && Sbox(0xC3) == 0x92 && Sbox(0x9E) == 0xB1
  {
  }

  lemma StdKeyLinear()
    ensures LKey(0x8AD24122) == 0x53B37958 && Xor(0xA292FFA1, 0x53B37958) == 0xF12186F9
  {
  }

  lemma StdKeyTransform()
    ensures Tau(0x8283CB69) == 0x8AD24122 && LKey(0x8AD24122) == 0x53B37958
    ensures Xor(0xA292FFA1, 0x53B37958) == 0xF12186F9
  {
    StdKeySboxEntries();
    StdKeyLinear();
    hide Sbox, LKey;
  }

  /** The standard key schedule gives the example's first round key
      rk[0] = 0xF12186F9. */
  lemma StandardKeyVector()
    ensures KeySchedule(STD_KEY)[0] == 0xF12186F9
  {
    hide L, LKey, Xor, RotateLeft, Tau, Feistel;
    var k := KeyInit(STD_KEY);
    StdKeyWords();
    StdKeyTransform();
    FeistelRecurrence(KeyT, CK, k, 36);
    assert Feistel(KeyT, CK, k, 36)[4] == NextX(KeyT, CK, Feistel(KeyT, CK, k, 36), 0);
  }

  lemma StdRoundWords()
    ensures BytesToWords(STD_KEY) == [0x01234567, 0x89ABCDEF, 0xFEDCBA98, 0x76543210]
    ensures Mix(0x89ABCDEF, 0xFEDCBA98, 0x76543210, 0xF12186F9) == 0xF002C39E
  {
  }

  lemma StdRoundLinear()
    ensures L(0x18E992B1) == 0x26D99622 && Xor(0x01234567, 0x26D99622) == 0x27FAD345
  {
  }

  lemma StdRoundTransform()
    ensures Tau(0xF002C39E) == 0x18E992B1 && L(0x18E992B1) == 0x26D99622
    ensures Xor(0x01234567, 0x26D99622) == 0x27FAD345
  {
    StdRoundSboxEntries();
    StdRoundLinear();
    hide Sbox, L;
  }

  /** With the standard's tables and key schedule, the first round of the
      example gives its X[4] = 0x27FAD345. */
  lemma StandardFirstRound(tab: seq<seq<Word>>)
    requires IsStdTable(tab)
    ensures Feistel(RoundFn(tab), KeySchedule(STD_KEY), BytesToWords(STD_KEY), 36)[4] == 0x27FAD345
  {
    hide L, LKey, Xor, RotateLeft, Tau, Feistel, TBox, KeySchedule, BytesToWords;
    StandardKeyVector();
    StdRoundWords();
    StdRoundTransform();
    TBoxIsRoundT(tab, 0xF002C39E);
    var ks, w := KeySchedule(STD_KEY), BytesToWords(STD_KEY);
    FeistelRecurrence(RoundFn(tab), ks, w, 36);
    assert Feistel(RoundFn(tab), ks, w, 36)[4] == NextX(RoundFn(tab), ks, Feistel(RoundFn(tab), ks, w, 36), 0);
  }

  lemma AsWrittenLinear()
    ensures L(0x8A8A8A8A) == 0x2A2A2A2A && L(0xD2D2D2D2) == 0x4B4B4B4B
    ensures L(0x41414141) == 0x05050505 && L(0x22222222) == 0x88888888
  {
  }

  lemma AsWrittenKeyLinear()
    ensures Xor(Xor(Xor(0x2A2A2A2A, 0x4B4B4B4B), 0x05050505), 0x88888888) == 0xECECECEC
    ensures LKey(0xECECECEC) == 0x07070707 && Xor(0xA292FFA1, 0x07070707) == 0xA595F8A6
  {
  }

  lemma AsWrittenStdEntries()
    ensures EntryAsWritten(0x82) == 0x2A2A2A2A && EntryAsWritten(0x83) == 0x4B4B4B4B
    ensures EntryAsWritten(0xCB) == 0x05050505 && EntryAsWritten(0x69) == 0x88888888
    ensures Xor(Xor(Xor(0x2A2A2A2A, 0x4B4B4B4B), 0x05050505), 0x88888888) == 0xECECECEC
    ensures LKey(0xECECECEC) == 0x07070707 && Xor(0xA292FFA1, 0x07070707) == 0xA595F8A6
  {
    StdKeySboxEntries();
    AsWrittenLinear();
    AsWrittenKeyLinear();
    hide Sbox, L, LKey, Xor;
  }

  /** The lookups of the code's tables at the example's first key-round
      word. */
  lemma AsWrittenStdKeyTransform(tab: seq<seq<Word>>)
    requires IsTableAsWritten(tab)
    ensures TBox(tab, 0x8283CB69) == 0xECECECEC && LKey(0xECECECEC) == 0x07070707
    ensures Xor(0xA292FFA1, 0x07070707) == 0xA595F8A6
  {
    hide L, LKey, Xor, RotateLeft, Replicate, Sbox, EntryAsWritten;
    AsWrittenTableCounterexample(tab);
    AsWrittenStdEntries();
    assert tab[0][0x82] == EntryAsWritten(0x82) && tab[0][0x83] == EntryAsWritten(0x83);
    assert tab[0][0xCB] == EntryAsWritten(0xCB) && tab[0][0x69] == EntryAsWritten(0x69);
  }

  /** What set_key computes on the example key with the tables
      init_T_table builds: rk[0] = 0xA595F8A6, not the standard's
      0xF12186F9. */
  lemma AsWrittenKeyVector(tab: seq<seq<Word>>)
    requires IsTableAsWritten(tab)
    ensures KeyScheduleAsWritten(tab, STD_KEY)[0] == 0xA595F8A6
    ensures KeySchedule(STD_KEY)[0] == 0xF12186F9
  {
    hide L, LKey, Xor, RotateLeft, Tau, Feistel, TBox;
    var k := KeyInit(STD_KEY);
    StdKeyWords();
    AsWrittenStdKeyTransform(tab);
    StandardKeyVector();
    FeistelRecurrence(KeyRoundAsWritten(tab), CK, k, 36);
    assert Feistel(KeyRoundAsWritten(tab), CK, k, 36)[4]
        == NextX(KeyRoundAsWritten(tab), CK, Feistel(KeyRoundAsWritten(tab), CK, k, 36), 0);
  }

  /** The slots i % 4 .. (i + 3) % 4 are distinct and (i + 4) % 4 is i % 4. */
  lemma Slots(i: nat)
    ensures (i + 4) % 4 == i % 4
    ensures (i + 1) % 4 != i % 4 && (i + 2) % 4 != i % 4 && (i + 3) % 4 != i % 4
    ensures (i + 1) % 4 != (i + 2) % 4 && (i + 1) % 4 != (i + 3) % 4 && (i + 2) % 4 != (i + 3) % 4
  {
  }

  /** The cipher object: round keys rk[ROUNDS] and tables T[4][256]. */
  class Sm4TTable {
    var rk: array<Word>
    var T: array2<Word>

    ghost predicate Valid()
      reads this
    {
      rk.Length == ROUNDS && T.Length0 == 4 && T.Length1 == 256
    }

    /** The tables as values. */
    ghost function Table(): (tab: seq<seq<Word>>)
      reads this, T
    {
      var t := T;
      seq(t.Length0, j requires 0 <= j < t.Length0 reads t =>
        seq(t.Length1, i requires 0 <= i < t.Length1 reads t => t[j, i]))
    }

    /** The constructor fills the tables with init_T_table. */
    constructor()
      ensures Valid() && fresh(rk) && fresh(T) && IsTableAsWritten(Table())
    {
      rk := new Word[ROUNDS];
      T := new Word[4, 256];
      new;
      InitTTable();
    }

    /** init_T_table: for each i, T[0][i] = L of S[i] in all four bytes,
        and T[1..4)[i] its rotations by 24, 16 and 8. */
    method InitTTable()
      requires T.Length0 == 4 && T.Length1 == 256
      modifies T
      ensures IsTableAsWritten(Table())
    {
      hide TableEntryAsWritten, EntryAsWritten, L, RotateLeft, Sbox, Replicate;
      for i := 0 to 256
        invariant forall j, k :: 0 <= j < 4 && 0 <= k < i ==> T[j, k] == TableEntryAsWritten(j, k)
      {
        FillColumn(i);
      }
    }

    /** Column i of the tables: T[0][i] = L((a << 24) | (a << 16) | (a << 8)
        | a) for a = S[i], then its rotations; the other columns are left as
        they were. */
    method FillColumn(i: nat)
      requires T.Length0 == 4 && T.Length1 == 256 && i < 256
      modifies T
      ensures T[0, i] == TableEntryAsWritten(0, i) && T[1, i] == TableEntryAsWritten(1, i)
      ensures T[2, i] == TableEntryAsWritten(2, i) && T[3, i] == TableEntryAsWritten(3, i)
      ensures forall j, k :: 0 <= j < 4 && 0 <= k < 256 && k != i ==> T[j, k] == old(T[j, k])
    {
      hide L, RotateLeft, Sbox;
      var a := Sbox(i) as Word;
      var b := (a << 24) | (a << 16) | (a << 8) | a;
      T[0, i] := L(b);
      T[1, i] := RotateLeft(T[0, i], 24);
      T[2, i] := RotateLeft(T[0, i], 16);
      T[3, i] := RotateLeft(T[0, i], 8);
    }

    /** The four lookups of a round on the bytes of x. */
    method Lookups(x: Word) returns (result: Word)
      requires Valid()
      ensures result == TBox(Table(), x)
    {
      var b := ByteOf(x, 0) as int;
      result := T[0, b];
      b := ByteOf(x, 1) as int;
      result := Xor(result, T[1, b]);
      b := ByteOf(x, 2) as int;
      result := Xor(result, T[2, b]);
      b := ByteOf(x, 3) as int;
      result := Xor(result, T[3, b]);
    }

    /** set_key: K = key words xor FK, then K[i % 4] and rk[i] become
        K[i % 4] ^ L'(the four lookups of K[(i+1) % 4] ^ K[(i+2) % 4] ^
        K[(i+3) % 4] ^ CK[i]); only rk changes. */
    method SetKey(key: seq<Byte>)
      requires Valid() && |key| == 16
      modifies rk
      ensures rk[..] == KeyScheduleAsWritten(Table(), key)
    {
      var K := LoadKey(key);
      ScheduleRounds(K, key);
    }

    /** K[0..4) := the key's big-endian words, then each xor FK[i]. */
    static method LoadKey(key: seq<Byte>) returns (K: array<Word>)
      requires |key| == 16
      ensures fresh(K) && K.Length == 4 && K[..] == KeyInit(key)
    {
      hide Xor, LoadBE32;
      K := new Word[4];
      for i := 0 to 4
        invariant forall m :: 0 <= m < i ==> K[m] == LoadBE32(key, 4 * m)
      {
        K[i] := LoadBE32(key, 4 * i);
      }
      for i := 0 to 4
        invariant forall m :: 0 <= m < i ==> K[m] == KeyInit(key)[m]
        invariant forall m :: i <= m < 4 ==> K[m] == LoadBE32(key, 4 * m)
      {
        K[i] := Xor(K[i], FK[i]);
      }
      assert K[..] == KeyInit(key);
    }

    /** The 32 rounds of set_key from K = KeyInit(key), writing rk. */
    method ScheduleRounds(K: array<Word>, key: seq<Byte>)
      requires Valid() && |key| == 16 && K.Length == 4 && K != rk && K[..] == KeyInit(key)
      modifies K, rk
      ensures rk[..] == KeyScheduleAsWritten(Table(), key)
    {
      hide Sbox, Feistel, LKey, TBox, Xor, LoadBE32, KeyInit, NextX, L, RotateLeft;
      ghost var f := KeyRoundAsWritten(Table());
      ghost var ks := Feistel(f, CK, KeyInit(key), 36);
      FeistelRecurrence(f, CK, KeyInit(key), 36);
      assert Window(K, ks, 0) by {
        assert ks[..4] == K[..];
        assert K[0] == K[..][0] && K[1] == K[..][1] && K[2] == K[..][2] && K[3] == K[..][3];
      }
      for i := 0 to ROUNDS
        invariant Window(K, ks, i)
        invariant forall m :: 0 <= m < i ==> rk[m] == ks[m + 4]
      {
        KeyRound(K, f, ks, i);
      }
      assert rk[..] == ks[4..];
    }

    /** K holds the four words ks[i..i+4), word m in slot m % 4. */
    static ghost predicate Window(K: array<Word>, ks: seq<Word>, i: nat)
      requires K.Length == 4 && i + 4 <= |ks|
      reads K
    {
      K[i % 4] == ks[i] && K[(i + 1) % 4] == ks[i + 1] && K[(i + 2) % 4] == ks[i + 2] && K[(i + 3) % 4] == ks[i + 3]
    }

    /** One round of the key schedule, K[i % 4] and rk[i] in place: L' of
        the four table lookups, xored into K[i % 4]. */
    method KeyRound(K: array<Word>, ghost f: Word -> Word, ghost ks: seq<Word>, i: nat)
      requires Valid() && K.Length == 4 && K != rk && |ks| == 36 && i < ROUNDS
      requires f == KeyRoundAsWritten(Table())
      requires forall j {:trigger NextX(f, CK, ks, j)} :: 0 <= j < 32 ==> ks[j + 4] == NextX(f, CK, ks, j)
      requires Window(K, ks, i)
      requires forall m :: 0 <= m < i ==> rk[m] == ks[m + 4]
      modifies K, rk
      ensures Window(K, ks, i + 1)
      ensures forall m :: 0 <= m < i + 1 ==> rk[m] == ks[m + 4]
    {
      hide LKey, TBox, Sbox, Xor, L, ByteOf, Index;
      Slots(i);
      var k0, k1, k2, k3 := K[i % 4], K[(i + 1) % 4], K[(i + 2) % 4], K[(i + 3) % 4];
      var tval := Mix(k1, k2, k3, CK[i]);
      var result := Lookups(tval);
      var r := Xor(k0, LKey(result));
      assert r == NextX(f, CK, ks, i);
      Commit(K, rk, ks, i, r);
    }

    /** rk[i] and K[i % 4] := ks[i + 4]. */
    static method Commit(K: array<Word>, rk: array<Word>, ghost ks: seq<Word>, i: nat, r: Word)
      requires K.Length == 4 && rk.Length == ROUNDS && K != rk && |ks| == 36 && i < ROUNDS
      requires Window(K, ks, i) && r == ks[i + 4]
      requires forall m :: 0 <= m < i ==> rk[m] == ks[m + 4]
      modifies K, rk
      ensures Window(K, ks, i + 1)
      ensures forall m :: 0 <= m < i + 1 ==> rk[m] == ks[m + 4]
    {
      Slots(i);
      rk[i] := r;
      K[i % 4] := r;
    }

    /** encrypt: X[0..4) loaded big-endian, X[i+4] = X[i] ^ T(X[i+1] ^
        X[i+2] ^ X[i+3] ^ rk[i]) by table lookups, X[35..31] stored; the
        object is only read. */
    method Encrypt(block: seq<Byte>) returns (out: seq<Byte>)
      requires Valid() && |block| == 16
      ensures out == CryptWith(RoundFn(Table()), rk[..], block)
    {
      out := Rounds(block, rk[..]);
    }

    /** decrypt: the same rounds with rk[ROUNDS - 1 - i] in round i. */
    method Decrypt(block: seq<Byte>) returns (out: seq<Byte>)
      requires Valid() && |block| == 16
      ensures out == CryptWith(RoundFn(Table()), Reverse(rk[..]), block)
    {
      out := Rounds(block, Reverse(rk[..]));
    }

    /** X[0..4) := the block's four big-endian words. */
    static method LoadBlock(block: seq<Byte>, X: array<Word>)
      requires |block| == 16 && X.Length == 36
      modifies X
      ensures forall k :: 0 <= k < 4 ==> X[k] == BytesToWords(block)[k]
    {
      for i := 0 to 4
        invariant forall k :: 0 <= k < i ==> X[k] == BytesToWords(block)[k]
      {
        X[i] := LoadBE32(block, 4 * i);
      }
    }

    /** Round i: X[i + 4] := X[i] ^ T(X[i+1] ^ X[i+2] ^ X[i+3] ^ keys[i]),
        the four lookups standing for T; nothing else in X changes. */
    method RoundStep(X: array<Word>, keys: seq<Word>, i: nat, ghost xs: seq<Word>)
      requires Valid() && X.Length == 36 && |keys| == ROUNDS && i < ROUNDS && |xs| == 36
      requires X[i] == xs[i] && X[i + 1] == xs[i + 1] && X[i + 2] == xs[i + 2] && X[i + 3] == xs[i + 3]
      requires xs[i + 4] == NextX(RoundFn(Table()), keys, xs, i)
      modifies X
      ensures X[i + 4] == xs[i + 4]
      ensures forall k :: 0 <= k < 36 && k != i + 4 ==> X[k] == old(X[k])
    {
      hide Xor, TBox, Sbox, L, ByteOf, Index;
      var tval := Mix(X[i + 1], X[i + 2], X[i + 3], keys[i]);
      var result := Lookups(tval);
      X[i + 4] := Xor(X[i], result);
    }

    /** The rounds and the byte conversions encrypt and decrypt share. */
    method Rounds(block: seq<Byte>, keys: seq<Word>) returns (out: seq<Byte>)
      requires Valid() && |block| == 16 && |keys| == ROUNDS
      ensures out == CryptWith(RoundFn(Table()), keys, block)
    {
      hide Xor, TBox, WordsToBytes, LoadBE32, Sbox, L, ByteOf, Index, NextX, Feistel;
      var f := RoundFn(Table());
      ghost var xs := Feistel(f, keys, BytesToWords(block), 36);
      FeistelRecurrence(f, keys, BytesToWords(block), 36);
      var X := new Word[36];
      LoadBlock(block, X);
      assert xs[..4] == BytesToWords(block);
      assert forall k :: 0 <= k < 4 ==> X[k] == xs[k] by {
        forall k | 0 <= k < 4 ensures X[k] == xs[k] { assert xs[k] == xs[..4][k]; }
      }
      for i := 0 to ROUNDS
        invariant forall k :: 0 <= k < i + 4 ==> X[k] == xs[k]
      {
        RoundStep(X, keys, i, xs);
      }
      var ws := [X[35], X[34], X[33], X[32]];
      assert ws == Output(xs);
      out := StoreBlock(ws);
    }

    /** The closing loop of encrypt and decrypt: the four output words
        stored big-endian into the 16-byte block. */
    static method StoreBlock(ws: seq<Word>) returns (out: seq<Byte>)
      requires |ws| == 4
      ensures out == WordsToBytes(ws)
    {
      var a := new Byte[16];
      for i := 0 to 4
        invariant forall k :: 0 <= k < 4 * i ==> a[k] == WordsToBytes(ws)[k]
      {
        StoreWord(a, ws, ws[i], i);
      }
      out := a[..];
    }
  }
}

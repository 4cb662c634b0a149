# SM3, its length-extension forgery, a Merkle tree over it, and SM4 T-tables

This project models the hashing and block-cipher exercises of the repository
in Dafny and proves what they promise.

- **SM3 (GB/T 32905-2016).** `Sm3Spec` defines the hash as pure functions: the
  constants and boolean functions, the padding of section 5.2, the message
  expansion of section 5.3.2, the compression function CF of section 5.3.3 and
  the iteration of section 5.4.
- **Four compression backends**, each an imperative method over arrays, proved
  equal to CF:
  - the reference loop (`Sm3Reference`);
  - the unrolled ROUND00/ROUND16 macros (`Sm3Unrolled`);
  - the single-pass W/W' scalar routine (`Sm3SinglePass`);
  - the eight-lane AVX2 routine (`Sm3Avx2`). Each 256-bit register is modelled
    as eight 32-bit lanes, in the word-major layout its loads use.
- **The streaming context** (`Sm3Engine.Context`). It is a class holding
  `state[8]`, the wrapping `uint64` `bitlen` and `buffer[64]`, plus a ghost
  record of every byte absorbed. `Update` keeps the invariant that the context
  is exactly what absorbing those bytes from IV yields. `Final` returns `Hash`
  of them. Absorbing `a` then `b` equals absorbing `a + b`.
- **The length-extension forgery** (`LengthExtension`). It covers the padding
  helpers `pad_len` and `sm3_padding`, the attacker's computation from `H(secret)`
  and `|secret|` alone, and the proof that the forged digest is
  `Hash(secret || glue || suffix)`.
- **The Merkle tree** (`Merkle`). It is generic over the hash. It models level
  building with odd-node promotion, `gen_proof` and `verify_proof`. It proves:
  - the round trip when the path is intact (every power-of-two tree, and the
    demo's leaf 12345 of 100000);
  - a counterexample for three leaves;
  - a corrected, size-aware verification that round-trips for every leaf.
- **The SM4 T-table cipher** (`Sm4.Sm4TTable`, GB/T 32907-2016 sections 6 and 7).
  - The class computes what its code does. `init_T_table` fills every table
    with L of the S-box byte replicated into all four byte positions.
    `set_key` applies L' on top of those table lookups.
  - Decryption with reversed round keys is proved to undo encryption, for any
    tables and keys, the class's own included.
  - The standard's tables and key schedule are defined beside the class.
    Their lookups are proved to compute the round transform `T = L(tau(x))`,
    and they reproduce the first round key and the first round word of the
    example in appendix A.
  - The two departures are logged under Findings, with counterexamples.

The modules follow the source files:

| module | source |
|---|---|
| `Bits` | byte/word conversions shared by all files |
| `Sm3Spec` | 4.a.1.cpp |
| `Sm3Reference` | 4.a.1.cpp |
| `Sm3Unrolled` | 4.a.2.cpp |
| `Sm3SinglePass` | 4.a.4.cpp |
| `Sm3Avx2` | 4.a.4.cpp |
| `Sm3Engine` | the `sm3_init`/`sm3_update`/`sm3_final` of all three engine files |
| `LengthExtension` | 4.b.cpp |
| `Merkle` | 4.c.cpp |
| `Sm4` | 1b.cpp |

The three engine files share the same context code and differ only in the
compression they call, which a `Backend` value selects.

Where the source's intent and its code disagree:
- The model follows the code as written, in the members named under Findings.
- It uses the corrected definition elsewhere.

## Model

| member | source | states |
|---|---|---|
| Bits.WordsToBytes | 4.a.1.cpp:115-120 | serializing n words gives 4n bytes |
| Bits.BytesToWords | 4.a.1.cpp:42-45 | a 4n-byte string decodes to n big-endian words |
| Bits.LoadStoreWord | 4.b.cpp:52-55 | reassembling the four big-endian bytes of a word gives the word |
| Bits.StoreLoadWord | 4.b.cpp:66-71 | the bytes of a word assembled from four bytes are those bytes, most significant first |
| Bits.ByteOfLoad | 4.a.1.cpp:43-44 | byte m of the word loaded at off is the input byte at off + m |
| Bits.WordsToBytesAt | 4.a.1.cpp:115-120 | byte 4i+k of the serialization is byte k (big-endian) of word i |
| Bits.DecodeWordAt | 4.b.cpp:52-55 | loading at 4i from a serialization gives back word i |
| Bits.DecodeEncode | 4.b.cpp:52-71 | decoding a serialized word sequence gives the sequence back |
| Bits.EncodeByteAt | 4.a.1.cpp:115-120 | byte i survives decoding then re-serializing |
| Bits.EncodeDecode | 1b.cpp:69-95 | serializing decoded words gives the bytes back (both directions of the round trip) |
| Bits.BE64 | 4.a.1.cpp:106-107 | the big-endian encoding of a uint64 has 8 bytes |
| Bits.BE64At | 4.a.1.cpp:107 | byte i of BE64(x) is (x >> (56 - 8i)) & 0xFF |
| Bits.BE64Value | 4.a.1.cpp:106-107 | the eight bytes of BE64(x), shifted back together, are x |
| Bits.WrappedBitCount | 4.a.1.cpp:83-84 | the byte index bitlen / 8 % 64 of the wrapped bit count is the byte count mod 64 |
| Bits.StoreWord | 4.a.1.cpp:116-119 | writing the four bytes of word i extends the serialized prefix from 4i to 4i+4 bytes |
| Sm3Spec.ExpandTo | 4.a.1.cpp:46-49 | the words built up to n number exactly n |
| Sm3Spec.ExpandRecurrence | 4.a.1.cpp:46-49 | the expanded words keep the sixteen block words and satisfy W[i] = P1(W[i-16]^W[i-9]^rotl(W[i-3],15)) ^ rotl(W[i-13],7) ^ W[i-6] for 16 <= i < n |
| Sm3Spec.Expand | 4.a.1.cpp:42-49 | a block expands to 68 words |
| Sm3Spec.ExpandShape | 4.a.1.cpp:42-49 | Expand(block) starts with the block's big-endian words and satisfies the recurrence for 16 <= i < 68 |
| Sm3Spec.WPrime | 4.a.1.cpp:50 | there are 64 words W'_j |
| Sm3Spec.Words | 4.a.1.cpp:27 | the registers A..H as eight words |
| Sm3Spec.FeedForward | 4.a.1.cpp:72-73 | the new chaining value has eight words |
| Sm3Spec.Compress | 4.a.1.cpp:38-74 | CF maps an 8-word chaining value to an 8-word one |
| Sm3Spec.Iterate | 4.a.1.cpp:95-97 | iterating CF over whole blocks keeps eight words |
| Sm3Spec.IterateEmpty | 4.a.1.cpp:95-97 | no blocks leave the chaining value unchanged |
| Sm3Spec.CompressBy | 4.a.1.cpp:38-74 | CF is the feed-forward of the registers after the 64 rounds over W and W' |
| Sm3Spec.IterateAppend | 4.a.1.cpp:95-97 | iterating over a + b equals iterating over a, then over b |
| Sm3Spec.IterateBlock | 4.a.1.cpp:96 | one more block compresses into the previous chaining value |
| Sm3Spec.PaddingShape | 4.a.1.cpp:104-113 | the padding is 9..72 bytes and block-aligns the message; it is 0x80, then zeros, then the big-endian bit count |
| Sm3Spec.Hash | 4.a.1.cpp:103-121 | an SM3 digest is 32 bytes |
| Sm3Reference.LoadWords | 4.a.1.cpp:42-45 | W[0..16) are the block's big-endian words |
| Sm3Reference.ExtendWords | 4.a.1.cpp:46-49 | after the loop, W is exactly Expand(block) |
| Sm3Reference.ExtendStep | 4.a.1.cpp:47-48 | the loop body's expression is the recurrence's next word |
| Sm3Reference.PrimeWords | 4.a.1.cpp:50 | Wp[j] = W[j] ^ W[j+4] for all 64 j |
| Sm3Reference.ExpandBlock | 4.a.1.cpp:39-50 | fresh W and Wp hold Expand(block) and its W' words |
| Sm3Reference.CompressRounds | 4.a.1.cpp:53-69 | the 64-iteration register loop computes rounds 0..63 from the loaded registers |
| Sm3Reference.FeedForwardInto | 4.a.1.cpp:72-73 | V becomes old V xor the registers, word by word |
| Sm3Reference.Compress | 4.a.1.cpp:38-74 | sm3_compress turns V into CF(old V, block) |
| Sm3Unrolled.Round00 | 4.a.2.cpp:35-42 | ROUND00(i), with TJROT[i] by formula, is reference round i for i < 16 |
| Sm3Unrolled.Round16 | 4.a.2.cpp:44-51 | ROUND16(i) is reference round i for 16 <= i < 64 |
| Sm3Unrolled.FirstBand | 4.a.2.cpp:84-87 | the sixteen ROUND00 expansions compute rounds 0..15 |
| Sm3Unrolled.SecondBand | 4.a.2.cpp:89-100 | the forty-eight ROUND16 expansions complete all 64 rounds |
| Sm3Unrolled.Compress | 4.a.2.cpp:65-104 | the unrolled sm3_compress turns V into CF(old V, block), as the reference does |
| Sm3Unrolled.PrintedTableOverfull | 4.a.2.cpp:20-32 | the printed TJROT has 72 initialisers for 64 slots; TJROT32 has 64 |
| Sm3Unrolled.PrintedEntry8Wrong | 4.a.2.cpp:23 | printed entry 8 of both tables is not T_8 <<< 8 |
| Sm3Unrolled.PrintedEntry16Wrong | 4.a.2.cpp:25 | printed entry 16 of both tables is not T_16 <<< 16 |
| Sm3Unrolled.PrintedTablesDisagree | 4.a.4.cpp:32-33 | the two printed tables differ at entries 49 and 63 |
| Sm3SinglePass.LoadPass | 4.a.4.cpp:50-54 | the first loop loads W[0..16) and already writes Wp[0..12) = W[k] ^ W[k+4] |
| Sm3SinglePass.PassStep | 4.a.4.cpp:56-58 | one step writes W[i] by the recurrence and then Wp[i-4] |
| Sm3SinglePass.ExtendPass | 4.a.4.cpp:55-59 | the second loop completes W = Expand(block) and writes every Wp[0..64) as W[k] ^ W[k+4] |
| Sm3SinglePass.SinglePassExpand | 4.a.4.cpp:49-59 | the single pass yields exactly the reference W and W' |
| Sm3SinglePass.ScalarSecondBand | 4.a.4.cpp:77-80 | the j < 32 test runs ROUND16 on both arms, so the loop completes rounds 16..63 |
| Sm3SinglePass.CompressScalar | 4.a.4.cpp:48-84 | sm3_compress_scalar turns V into CF(old V, block) |
| Sm3Avx2.VRotl | 4.a.4.cpp:91-93 | rotl32_vec, the lane-wise or of a left shift by n and a right shift by 32 - n, rotates every lane by n; for n = 0 or 32 it leaves the vector unchanged |
| Sm3Avx2.ShiftOrRotl | 4.a.4.cpp:92 | the or of (w << n) and (w >> (32 - n)) is w rotated by n mod 32, for every 0 <= n <= 32, with the AVX2 shifts giving 0 at 32 |
| Sm3Avx2.VP0 | 4.a.4.cpp:142 | P0 on a vector is P0 in every lane |
| Sm3Avx2.VP1 | 4.a.4.cpp:125 | P1 on a vector is P1 in every lane |
| Sm3Avx2.VExpandWord | 4.a.4.cpp:124-125 | the vector expansion recurrence is the scalar one in every lane |
| Sm3Avx2.LaneBlock | 4.a.4.cpp:119-121 | lane k's block has 64 bytes |
| Sm3Avx2.LaneBlockWords | 4.a.4.cpp:95-101 | decoding lane k's block gives its sixteen message words, as load_be256's byte reversal does |
| Sm3Avx2.LaneBlockBytes | 4.a.4.cpp:119-120 | byte 4i+m of lane k's block is byte 32i+4k+m of the message |
| Sm3Avx2.LanewiseCompress | 4.a.4.cpp:103-159 | the routine's effect keeps 64 state words |
| Sm3Avx2.LaneIsCompress | 4.a.4.cpp:103-159 | lane k of the result is CF of lane k's state and block |
| Sm3Avx2.LanesIndependent | 4.a.4.cpp:106-158 | lane k of the result depends only on lane k's state and block |
| Sm3Avx2.LoadVecWords | 4.a.4.cpp:119-121 | the first loop puts lane k's message word i in lane k of W[i] |
| Sm3Avx2.ExtendVecWords | 4.a.4.cpp:123-126 | after the second loop, lane k of W[i] is word i of Expand(lane k's block) for all 68 i |
| Sm3Avx2.VecExtendStep | 4.a.4.cpp:124-125 | one iteration extends that fact to W[i] |
| Sm3Avx2.VSS1 | 4.a.4.cpp:130 | the vector SS1 is SS1 in every lane |
| Sm3Avx2.VSS2 | 4.a.4.cpp:131 | the vector SS2 is SS2 in every lane |
| Sm3Avx2.VSum4 | 4.a.4.cpp:135-139 | the chained vector adds are the 32-bit sum in every lane |
| Sm3Avx2.VFF00 | 4.a.4.cpp:135 | FF00 on vectors is FF00 in every lane |
| Sm3Avx2.VGG00 | 4.a.4.cpp:136 | GG00 on vectors is GG00 in every lane |
| Sm3Avx2.VFF16 | 4.a.4.cpp:138 | FF16 on vectors is FF16 in every lane |
| Sm3Avx2.VGG16 | 4.a.4.cpp:139 | GG16 on vectors is GG16 in every lane |
| Sm3Avx2.VRound | 4.a.4.cpp:129-142 | one iteration, with Wp = W[j] ^ W[j+4] formed on the fly, is scalar round j in every lane |
| Sm3Avx2.VRoundStep | 4.a.4.cpp:128-143 | after iteration j, every lane has run rounds 0..j of its own words |
| Sm3Avx2.VecRounds | 4.a.4.cpp:128-143 | the round loop runs the 64 rounds of each lane over that lane's W and W' |
| Sm3Avx2.LoadState | 4.a.4.cpp:108-115 | the loaded register vectors hold, in lane k, lane k's eight state words |
| Sm3Avx2.VWords | 4.a.4.cpp:155-158 | the eight register vectors in store order |
| Sm3Avx2.VWordsLane | 4.a.4.cpp:155-158 | lane k of the w-th stored vector is register w of lane k |
| Sm3Avx2.StoreXor | 4.a.4.cpp:145-158 | V[off..off+8) is xored with a vector and nothing else in V changes |
| Sm3Avx2.FeedForwardStore | 4.a.4.cpp:144-158 | every V[8w + k] becomes old V[8w + k] xor register w of lane k |
| Sm3Avx2.LanewiseAt | 4.a.4.cpp:103-159 | word w of lane k of the effect is word w of lane k's CF |
| Sm3Avx2.LanesFedForward | 4.a.4.cpp:144-158 | the stored state is the lane-wise CF once every lane has run its rounds |
| Sm3Avx2.CompressAvx2 | 4.a.4.cpp:103-159 | sm3_compress_avx2 turns V into the lane-wise CF of the old state and the eight blocks |
| Sm3Engine.CompressWith | 4.a.4.cpp:172 | each engine's compression turns V into CF(old V, block) |
| Sm3Engine.Full | 4.a.1.cpp:95-97 | the whole-block prefix of n bytes is within a block of n and block-aligned |
| Sm3Engine.Absorb | 4.a.1.cpp:82-101 | absorbing keeps an 8-word chain and a tail shorter than a block |
| Sm3Engine.AbsorbAppend | 4.a.1.cpp:82-101 | absorbing a then b equals absorbing a + b, empty a or b included |
| Sm3Engine.FullAdd | 4.a.1.cpp:89-97 | whole blocks of x + y are those of x plus those of the leftover and y |
| Sm3Engine.BitCountStep | 4.a.1.cpp:84 | two wrapping bit-count increments equal one |
| Sm3Engine.AbsorbedFromStart | 4.a.1.cpp:77-101 | from IV, the observed state after m is CF iterated over m's whole blocks, 8|m| mod 2^64 and m's tail |
| Sm3Engine.FinalPadding | 4.a.1.cpp:104-113 | 1 <= padlen <= 64, idx + padlen + 8 is a multiple of 64, and the two updates feed exactly Padding(n) |
| Sm3Engine.CopyInto | 4.a.1.cpp:90 | memcpy into buffer + off writes src there and keeps the bytes before |
| Sm3Engine.Context.constructor | 4.a.1.cpp:77-80 | a fresh context is initialised: state = IV, bitlen = 0, nothing absorbed |
| Sm3Engine.Context.Init | 4.a.1.cpp:77-80 | sm3_init sets state to IV and bitlen to 0, and keeps the buffer |
| Sm3Engine.Context.Update | 4.a.1.cpp:82-101 | sm3_update keeps the context invariant, appends data to what was absorbed, and advances the observed state by Absorb |
| Sm3Engine.Context.Final | 4.a.1.cpp:103-121 | sm3_final returns Hash of everything absorbed before it and leaves a block-aligned stream |
| Sm3Engine.PaddedStream | 4.a.1.cpp:112-113 | the two updates append Padding(|a|) and align the stream |
| Sm3Engine.FinalBlocks | 4.a.1.cpp:112-120 | on an aligned stream the chain is CF iterated over all of it |
| Sm3Engine.FirstBlock | 4.a.1.cpp:89-91 | the completed buffer is the first block of tail + data |
| Sm3Engine.AbsorbBlock | 4.a.1.cpp:96 | compressing one more block extends the iterated chain |
| Sm3Engine.FillBlock | 4.a.1.cpp:89-94 | the first branch compresses the completed buffer exactly when bytes were buffered and data completes the block |
| Sm3Engine.CompressBlocks | 4.a.1.cpp:95-97 | the block loop compresses the whole blocks of the data and stops within a block of its end |
| Sm3Engine.CopyTail | 4.a.1.cpp:98-100 | the leftover bytes go to buffer + idx and the bytes before stay |
| Sm3Engine.TailIndex | 4.a.1.cpp:83 | the buffer index mod 64 composes with appended lengths |
| Sm3Engine.UpdateEnd | 4.a.1.cpp:82-101 | the chain, bit count and buffer sm3_update leaves are Absorb of the old state, and Absorb from IV of everything absorbed |
| Sm3Engine.UpdateSnapshot | 4.a.1.cpp:89-100 | the same, relative to the starting snapshot |
| Sm3Engine.UpdateSplit | 4.a.1.cpp:82-100 | the bytes sm3_update compressed are the whole blocks of the buffered bytes ++ data, and the bytes it left in the buffer are the rest |
| Sm3Engine.LengthBytes | 4.a.1.cpp:105-107 | len_be is the big-endian encoding of bitlen |
| Sm3Engine.StoreDigest | 4.a.1.cpp:115-120 | out[4i..4i+4) is state[i] big-endian |
| Sm3Engine.HashOnce | 4.b.cpp:7 | sm3_hash (init, update, final) returns Hash(msg) |
| LengthExtension.PadLen | 4.b.cpp:10-14 | pad_len(len) = len + the length of the section 5.2 padding |
| LengthExtension.PadArith | 4.b.cpp:11-13 | the bit arithmetic (l + 1 + k + 64) / 8 equals len + 9 + the number of zero bytes |
| LengthExtension.ShiftedByte | 4.b.cpp:24 | (blen >> 8i) & 0xFF is big-endian byte 7 - i |
| LengthExtension.Sm3Padding | 4.b.cpp:16-26 | sm3_padding(len) is exactly the padding sm3_final feeds: 0x80, zeros, and 8 len big-endian |
| LengthExtension.PutCountByte | 4.b.cpp:23-24 | one loop step writes count byte 7 - i at pad.size() - 1 - i and nothing else |
| LengthExtension.PaddingBytes | 4.b.cpp:20-24 | a string with 0x80 first, zeros, then the big-endian bit count is the padding |
| LengthExtension.PaddingParts | 4.b.cpp:20-24 | the padding is its head of 0x80 and zeros, then the count |
| LengthExtension.HeadBytes | 4.b.cpp:20-21 | 0x80 and zero bytes form the head |
| LengthExtension.CountBytes | 4.b.cpp:22-24 | eight big-endian bytes of x form BE64(x) |
| LengthExtension.LoadDigest | 4.b.cpp:52-55 | IV[] is the digest decoded into eight big-endian words |
| LengthExtension.ForgedStream | 4.b.cpp:57-60 | corrected: the stream the forgery must compress after the original digest, suffix ++ Padding(fake_len + the suffix length), is block-aligned |
| LengthExtension.ForgedDigest | 4.b.cpp:62-71 | the attacker's digest is 32 bytes |
| LengthExtension.ForgeryWorks | 4.b.cpp:57-81 | from Hash(secret) and length of secret, the forged digest equals Hash(secret ++ glue ++ suffix) |
| LengthExtension.Forge | 4.b.cpp:48-71 | the attacker's computation, with the corrected stream, returns that forged digest |
| LengthExtension.LengthExtensionAttack | 4.b.cpp:40-81 | the corrected demo: with the corrected stream, forged equals the real digest of secret ++ glue ++ suffix, so its memcmp succeeds (the code as written: GlueCompressedTwice) |
| LengthExtension.ForgedDigestAsWritten | 4.b.cpp:49-71 | the digest the code as written prints is 32 bytes |
| LengthExtension.ForgeAsWritten | 4.b.cpp:48-71 | the code as written compresses only the whole blocks of glue ++ suffix ++ padding from the original digest |
| LengthExtension.GlueCompressedTwice | 4.b.cpp:41-63 | for "secret" and ";admin=true" the as-written stream is 122 bytes; its one block starts with the glue's 0x80, while the forgery needs ";admin=true" ++ padding |
| Merkle.NextLevel | 4.c.cpp:39-43 | the next level has ceil(n/2) nodes |
| Merkle.LevelsFrom | 4.c.cpp:33-46 | the levels start with the leaves and end at a level of one node |
| Merkle.LevelsChain | 4.c.cpp:37-45 | every level below the top has more than one node and is followed by the level built from it |
| Merkle.ProofFrom | 4.c.cpp:51-56 | the proof from a level starts with that level's sibling entry, and is empty past the top |
| Merkle.ParentIsStep | 4.c.cpp:41 | a parent with two children is the verification step at the child's index |
| Merkle.PromotedNode | 4.c.cpp:42 | an odd last node is pushed unchanged, never rehashed or duplicated |
| Merkle.PromotedToRoot | 4.c.cpp:42-46 | a node never given a sibling is the root and its proof is empty |
| Merkle.TopLevel | 4.c.cpp:46 | a level of one node is the top and its node the root |
| Merkle.ProofStep | 4.c.cpp:51-56 | the levels, root and proof above a level of more than one node, one level up |
| Merkle.RoundTrip | 4.c.cpp:81-85 | verify_proof(idx, leaf, gen_proof(idx)) is the root when the path meets a promoted node only above its last sibling |
| Merkle.PowerOfTwo | 4.c.cpp:49-57 | with 2^d leaves every path is intact and every proof has d entries |
| Merkle.PowerOfTwoRoundTrip | 4.c.cpp:81-85 | the round trip holds for every leaf of a power-of-two tree |
| Merkle.DemoPathIntact | 4.c.cpp:72-85 | the demo's leaf 12345 of 100000 has an intact path |
| Merkle.PromotedPathCounterexample | 4.c.cpp:49-68 | with 3 leaves, the proof of leaf 2 is [H(L0++L1)], verify gives H(L2++H(L0++L1)), and the root is H(H(L0++L1)++L2) |
| Merkle.VerifySizedRoundTrip | 4.c.cpp:60-68 | size-aware verification returns the root for every leaf and every tree |
| Merkle.Decimal | 4.c.cpp:29 | std::to_string writes at least one decimal digit |
| Merkle.Digit | 4.c.cpp:29 | the digit character denotes its value |
| Merkle.DecimalRoundTrip | 4.c.cpp:29 | reading the decimal digits back gives the number |
| Merkle.LeafLabelsDistinct | 4.c.cpp:29 | distinct indices give distinct leaf labels |
| Merkle.MerkleTree.constructor | 4.c.cpp:20-24 | a tree starts with no leaves, levels or root |
| Merkle.MerkleTree.Build | 4.c.cpp:26-31 | leaf i is H("leaf#" ++ decimal i), then the levels and root are built |
| Merkle.MerkleTree.BuildFromLeaves | 4.c.cpp:33-47 | the levels are LevelsFrom(leaves), the root is the node of the top level, and the leaves are unchanged |
| Merkle.MerkleTree.GenProof | 4.c.cpp:49-58 | gen_proof returns the siblings in range on the path, idx halving per level, without changing the tree |
| Merkle.MerkleTree.VerifyProof | 4.c.cpp:60-68 | verify_proof folds the proof into the leaf on the side idx's parity says, idx halving per entry |
| Merkle.BuildLevel | 4.c.cpp:39-43 | the inner loop builds the next level |
| Merkle.LevelsAppend | 4.c.cpp:44 | pushing the next level keeps the built levels a prefix of the leaves' levels |
| Sm4.LXor | 1b.cpp:22 | L is linear over xor |
| Sm4.LOfWord4 | 1b.cpp:22 | L of a four-byte word is the xor of L of each byte in place |
| Sm4.EntryRotation24 | 1b.cpp:23 | T[1] = T[0] rotated by 24 is L of the S-box byte in the second position |
| Sm4.EntryRotation16 | 1b.cpp:24 | T[2] = T[0] rotated by 16 is L of the byte in the third position |
| Sm4.EntryRotation8 | 1b.cpp:25 | T[3] = T[0] rotated by 8 is L of the byte in the lowest position |
| Sm4.TBoxIsRoundT | 1b.cpp:74-84 | the four lookups in the standard tables compute T(x) = L(tau(x)) |
| Sm4.Feistel | 1b.cpp:73-87 | the recurrence run to n gives n words |
| Sm4.FeistelRecurrence | 1b.cpp:73-87 | those words start with X[0..4) and satisfy X[i+4] = X[i] ^ f(X[i+1]^X[i+2]^X[i+3]^k[i]) |
| Sm4.CryptWith | 1b.cpp:67-96 | a 16-byte block maps to a 16-byte block |
| Sm4.ReverseReverse | 1b.cpp:109 | reversal is an involution |
| Sm4.MixSwap | 1b.cpp:109 | the round input is symmetric in the outer two words |
| Sm4.MirrorStep | 1b.cpp:105-118 | one round of decrypt: when its four input words are the forward words 39 - i down to 36 - i, round key ks[35 - i] makes its word i the forward word 35 - i |
| Sm4.Mirror | 1b.cpp:98-127 | rerunning the recurrence on the reversed output with reversed keys retraces the words backwards |
| Sm4.FeistelRoundTrip | 1b.cpp:67-127 | decryption with reversed keys undoes encryption, for any round function and keys |
| Sm4.EncryptDecrypt | 1b.cpp:67-127 | decrypt(encrypt(p)) == p and encrypt(decrypt(c)) == c for any tables and round keys |
| Sm4.KeyInit | 1b.cpp:39-47 | K starts as four words |
| Sm4.ReplicatedFixed | 1b.cpp:21-25 | L of a byte replicated four times is fixed by byte rotations |
| Sm4.BytesOfReplicate | 1b.cpp:21 | every byte of the replicated word is the S-box byte |
| Sm4.AsWrittenTableCounterexample | 1b.cpp:18-26 | as written, the four tables coincide and the round function maps every replicated word, 0xFFFFFFFF among them, to 0 |
| Sm4.ReplicateOnes | 1b.cpp:21 | 0xFF replicated is 0xFFFFFFFF |
| Sm4.StdTableOnes | 1b.cpp:18-26 | the standard's tables map 0xFFFFFFFF to T(0xFFFFFFFF) = 0x21212121 |
| Sm4.KeyScheduleAsWritten | 1b.cpp:49-63 | the as-written schedule yields ROUNDS keys |
| Sm4.AsWrittenKeyTransform | 1b.cpp:50-60 | over the standard's tables, the key round as written computes L'(L(tau(x))) for every x |
| Sm4.AsWrittenKeyCounterexample | 1b.cpp:49-62 | the key-schedule defect alone: over the standard's tables the key transform as written is L'(L(tau(x))), and on a probe key rk[0] is 0x95959595, not the standard's 0x65656565 |
| Sm4.AsWrittenProbeKey | 1b.cpp:18-62 | with the tables init_T_table builds, set_key's first round key for the probe key is 0 |
| Sm4.StandardKeyVector | 1b.cpp:45-62 | corrected: the standard key schedule, L' over tau alone, gives the first round key 0xF12186F9 of the example in appendix A of GB/T 32907-2016 |
| Sm4.StandardFirstRound | 1b.cpp:69-84 | corrected: with the standard's tables and key schedule, the example's first round gives X[4] = 0x27FAD345 |
| Sm4.AsWrittenKeyVector | 1b.cpp:18-62 | what the code computes: on the example key, set_key with the tables init_T_table builds gives rk[0] = 0xA595F8A6, not 0xF12186F9 |
| Sm4.Slots | 1b.cpp:50 | the slots i%4..(i+3)%4 are distinct and (i+4)%4 = i%4 |
| Sm4.Sm4TTable.constructor | 1b.cpp:34-36 | the constructor fills the tables as init_T_table does, and allocates rk |
| Sm4.Sm4TTable.InitTTable | 1b.cpp:18-27 | init_T_table fills every T[j][i] with the entry as written: L of S[i] replicated into all four bytes, rotated by 0, 24, 16 or 8 |
| Sm4.Sm4TTable.FillColumn | 1b.cpp:20-25 | one iteration writes column i of the four tables from L((a << 24) \| (a << 16) \| (a << 8) \| a), a = S[i], and no other column |
| Sm4.Sm4TTable.Lookups | 1b.cpp:74-84 | the four lookups and xors compute TBox of the object's tables |
| Sm4.Sm4TTable.SetKey | 1b.cpp:38-64 | set_key fills rk with the schedule as written over the object's tables: K[i] ^ L'(the four lookups), changing only rk |
| Sm4.Sm4TTable.LoadKey | 1b.cpp:40-47 | K[0..4) becomes the key's big-endian words xor FK |
| Sm4.Sm4TTable.ScheduleRounds | 1b.cpp:49-63 | the 32 rounds from K = the loaded key words write rk as the schedule as written |
| Sm4.Sm4TTable.KeyRound | 1b.cpp:50-62 | one round xors L' of the four table lookups of K[(i+1)%4] ^ K[(i+2)%4] ^ K[(i+3)%4] ^ CK[i] into K[i%4], and writes the result to rk[i] |
| Sm4.Sm4TTable.Commit | 1b.cpp:61-62 | the round key goes to rk[i] and K[i%4], which then holds the next four words |
| Sm4.Sm4TTable.Encrypt | 1b.cpp:67-96 | encrypt is the 32-round recurrence with the object's tables and rk, and it changes nothing |
| Sm4.Sm4TTable.Decrypt | 1b.cpp:98-127 | decrypt is the same recurrence with rk[ROUNDS-1-i] in round i |
| Sm4.Sm4TTable.LoadBlock | 1b.cpp:69-72 | X[0..4) are the block's big-endian words |
| Sm4.Sm4TTable.RoundStep | 1b.cpp:73-87 | round i sets X[i+4] by the recurrence and leaves the rest of X |
| Sm4.Sm4TTable.StoreBlock | 1b.cpp:89-94 | the output loop stores the four words big-endian into 16 bytes |
| Sm4.Sm4TTable.Rounds | 1b.cpp:67-96 | the rounds and stores produce CryptWith of the object's round function |

## Left out

- Printing, hex formatting, timing and the `main`s are not modelled (4.a.1.cpp:124-136, 4.b.cpp:28-38, 4.c.cpp:71-93, 1b.cpp:256-329).
- 4.b.cpp's `main`, as written, compresses the glue twice. `GlueCompressedTwice` shows this: its compressed block is not the one the forgery needs. So the memcmp at 4.b.cpp:80 is not expected to succeed, but the model does not prove that it fails, since that would be a statement about SM3 outputs. `LengthExtensionAttack` is the corrected demo.
- 4.c.cpp's `main`: `DemoPathIntact` states that its existence check passes.
- Default message `"abc"` digest: not evaluated against section A.1 of GB/T 32905-2016. Unfolding 64 rounds of bit-vector arithmetic is beyond what the verifier can afford.
- The full SM4 example of GB/T 32907-2016 appendix A (32 rounds to the ciphertext) is not evaluated, for the same reason. `StandardKeyVector` and `StandardFirstRound` pin its first round key and first round word.
- `rotl32` with amounts 0 or 32 and above is undefined in C (4.a.1.cpp:9-11, 57). The model rotates by j mod 32, as the standard does, and `Bits.Rotl` requires the amount below 32.
- `Sm4.RotateLeft`'s amounts: only the constant amounts 2, 10, 13, 18, 23, 24 and the table rotations 8, 16, 24 are used. The model requires 0 < n < 32. `rotate_left(x, 0)` would shift by 32.
- Signed promotion in the byte loads: `key[i*4] << 24` in SM4 (1b.cpp:41-42, 70-71) and `H_orig[i*4] << 24` in `LengthExtension.LoadDigest` (4.b.cpp:54) shift a promoted `int`. The model loads the words as unsigned big-endian values.
- `Sm3Avx2.VP0`, `Sm3Avx2.VP1`: 4.a.4.cpp:125 and 142 call the scalar `P1(uint32_t)` and `P0(uint32_t)` on `__m256i` values, which does not compile. The model reads them as lane-wise P1 and P0.
- `Sm3Avx2.VRound`: the AVX2 loop broadcasts the printed `TJROT32[j]` (4.a.4.cpp:129). The model uses the formula table T_j <<< (j mod 32) instead; entries where the printed table differs are listed under Findings.
- AVX2 batching in 4.a.4.cpp's `sm3_update` (4.a.4.cpp:174-187) is not modelled. It xor-reduces eight lane results computed from copies of one state, which is not SM3 chaining. The engine models the non-AVX2 path; `sm3_compress_avx2` itself is modelled lane by lane.
- `load_be256`'s byte shuffle (4.a.4.cpp:95-101) is modelled only as the big-endian decode it performs.
- 4.a.4.cpp ends at line 198, inside `sm3_final`. Its final is taken to be the one of 4.a.2.cpp:118-124, which the engine shares.
- SM4_AESNI and SM4_GFNI_AVX512 (1b.cpp:131-253) are not modelled. They have empty round loops and placeholder key schedules, so they state nothing.
- `sm3_hash` is declared (4.b.cpp:7) but not shown. It is modelled as init, one update, final (`Sm3Engine.HashOnce`). `Merkle` takes the hash as a parameter.
- `Sm4.ROUNDS` is defined in 1a.cpp, which is not part of this model. It is taken as 32, matching CK[32] and X[36].
- Sizes and lengths (`size_t`, `uint64_t` message lengths) are unbounded naturals. Only the context's `bitlen` wraps modulo 2^64.
- `LengthExtension.PadLen`, `LengthExtension.Sm3Padding`, `LengthExtension.Forge`: they require `BitCountFits` (8·len + 576 < 2^64). pad_len's bit arithmetic in `uint64_t` is left unmodelled beyond that.
- `LengthExtension.Forge`: the call at 4.b.cpp:59-60 takes `begin()` and `end()` from two separate temporaries, which is undefined behaviour. It is modelled as appending one padding.
- `Merkle.MerkleTree.Build`, `Merkle.MerkleTree.BuildFromLeaves`: they require at least one leaf. With none, `levels[level][0]` at 4.c.cpp:46 reads past an empty vector.
- `Merkle.MerkleTree`: `levels` is a `std::map` from level to nodes, with keys 0 up to the top level. It is modelled as a sequence indexed by level.
- Merkle over 4.c.cpp's fake non-existence check (4.c.cpp:87-91): a collision statement about SM3, which nothing here can prove.

## Findings

| source | as written | input that shows it | evidently intended | confidence | as-written member | corrected member |
|---|---|---|---|---|---|---|
| 4.a.2.cpp:20-32 | TJROT has 72 initialisers for 64 slots, and entries from 8 on are not T_j <<< j | entry 8 is 0xC4519799, but T_8 <<< 8 = 0xCC451979 | entry j is T_j <<< (j mod 32), as the comment at line 19 says | not executed | Sm3Unrolled.PrintedEntry8Wrong | Sm3Unrolled.Compress |
| 4.a.4.cpp:25-33 | TJROT32 has the same wrong entries and differs from TJROT at entries 49 and 63 | entry 49 is 0x0DCDCDCC here and 0xDCDCDC in TJROT | the same formula table as the reference | not executed | Sm3Unrolled.PrintedTablesDisagree | Sm3SinglePass.CompressScalar |
| 4.b.cpp:49-63 | the code compresses glue ++ suffix ++ padding from H(secret), so the glue is compressed twice. The 122-byte stream yields one block, which starts with 0x80 | secret "secret", suffix ";admin=true" | compress suffix ++ sm3_padding(fake_len + suffix length) | not executed | LengthExtension.GlueCompressedTwice | LengthExtension.ForgeryWorks |
| 4.c.cpp:49-68 | gen_proof halves idx per level and skips promoted levels. verify_proof halves idx per proof entry, so after a promotion it uses the wrong parity | 3 leaves, idx 2 | verification that keeps idx per level, knowing the leaf count | not executed | Merkle.PromotedPathCounterexample | Merkle.VerifySizedRoundTrip |
| 1b.cpp:18-26 | T[0][i] = L(S[i] replicated into four bytes), so all four tables coincide and T(x) is not L(tau(x)) | x = 0xFFFFFFFF: the lookups give 0, the standard's T gives 0x21212121 | T[0][i] = L(S[i] << 24), the standard's T-table | not executed | Sm4.AsWrittenTableCounterexample | Sm4.TBoxIsRoundT |
| 1b.cpp:49-62 | the key schedule applies L' to the table lookups, which already contain L. Over the standard's tables alone this gives L'(L(tau(x))) | the example key of appendix A: with the tables the code builds, rk[0] is 0xA595F8A6 instead of 0xF12186F9. Over the standard's tables alone, the key MK = FK xor (0, CK[0] xor 0xFFFFFFFF, 0, 0) gives 0x95959595 instead of 0x65656565 | rk[i] = K[i] ^ L'(tau(...)) | not executed | Sm4.AsWrittenKeyVector | Sm4.StandardKeyVector |

/**
  The Merkle tree over SM3 digests: levels built bottom-up by hashing
  adjacent pairs, an odd last node promoted unchanged; inclusion proofs of
  the siblings met on the way up; and their verification.

  The tree is generic over the hash H: the source's sm3_concat(a, b) is
  H(a || b) and its leaves are H("leaf#" || decimal index), with H the SM3
  hash (Sm3Spec.Hash fits the parameter).
 */
module Merkle {
  import opened Sm3Spec

  type Digest = seq<Byte>
  type Hasher = seq<Byte> -> Digest

  /** sm3_concat: the hash of the concatenation of two digests. */
  function Concat(H: Hasher, a: Digest, b: Digest): Digest {
    H(a + b)
  }

  /** Node k of the level above cur: the hash of the pair at 2k, 2k+1, or
      the node at 2k itself when it has no partner. */
  function NodeAt(H: Hasher, cur: seq<Digest>, k: nat): Digest
    requires 2 * k < |cur|
  {
    if 2 * k + 1 < |cur| then Concat(H, cur[2 * k], cur[2 * k + 1]) else cur[2 * k]
  }

  /** The level above cur: ceil(|cur| / 2) nodes. */
  function NextLevel(H: Hasher, cur: seq<Digest>): (next: seq<Digest>)
    ensures |next| == (|cur| + 1) / 2
  {
    seq((|cur| + 1) / 2, k requires 0 <= k < (|cur| + 1) / 2 => NodeAt(H, cur, k))
  }

  /** The levels from cur up to the level of one node. */
  function LevelsFrom(H: Hasher, cur: seq<Digest>): (ls: seq<seq<Digest>>)
    requires |cur| >= 1
    ensures |ls| >= 1 && ls[0] == cur && |ls[|ls| - 1]| == 1
    decreases |cur|
  {
    if |cur| == 1 then [cur] else [cur] + LevelsFrom(H, NextLevel(H, cur))
  }

  /** The root: the sole node of the top level. */
  function Root(H: Hasher, leaves: seq<Digest>): Digest
    requires |leaves| >= 1
  {
    var ls := LevelsFrom(H, leaves);
    ls[|ls| - 1][0]
  }

  /** The number of levels above a level of n nodes. */
  function Depth(n: nat): nat
    decreases n
  {
    if n <= 1 then 0 else 1 + Depth((n + 1) / 2)
  }

  /** Every level but the top has more than one node and is followed by the
      level built from it; there are Depth(n) levels above the leaves. */
  lemma {:induction false} LevelsChain(H: Hasher, cur: seq<Digest>)
    requires |cur| >= 1
    ensures var ls := LevelsFrom(H, cur);
            |ls| == 1 + Depth(|cur|) &&
            forall l :: 0 <= l < |ls| - 1 ==> |ls[l]| > 1 && ls[l + 1] == NextLevel(H, ls[l])
    decreases |cur|
  {
    if |cur| > 1 {
      var next := NextLevel(H, cur);
      LevelsChain(H, next);
      var ls := LevelsFrom(H, cur);
      assert ls == [cur] + LevelsFrom(H, next);
      forall l | 0 <= l < |ls| - 1
        ensures |ls[l]| > 1 && ls[l + 1] == NextLevel(H, ls[l])
      {
        if l > 0 {
          assert ls[l] == LevelsFrom(H, next)[l - 1];
        }
      }
    }
  }

  /** The position of the sibling: idx ^ 1 on an unsigned index. */
  function Sibling(idx: nat): nat {
    if idx % 2 == 0 then idx + 1 else idx - 1
  }

  /** The proof entry a level contributes: the sibling, when it exists. */
  function SiblingEntry(level: seq<Digest>, idx: nat): seq<Digest> {
    if Sibling(idx) < |level| then [level[Sibling(idx)]] else []
  }

  /** The proof of gen_proof: the siblings present on the path, bottom up. */
  function Proof(levels: seq<seq<Digest>>, idx: nat): seq<Digest>
    decreases |levels|
  {
    if |levels| == 0 then [] else SiblingEntry(levels[0], idx) + Proof(levels[1..], idx / 2)
  }

  /** The proof from a level on starts with that level's entry, and is
      empty past the top. */
  lemma ProofFrom(levels: seq<seq<Digest>>, level: nat, idx: nat)
    requires level <= |levels|
    ensures level == |levels| ==> Proof(levels[level..], idx) == []
    ensures level < |levels| ==> Proof(levels[level..], idx) == SiblingEntry(levels[level], idx) + Proof(levels[level + 1..], idx / 2)
  {
    if level < |levels| {
      assert levels[level..][1..] == levels[level + 1..];
    } else {
      assert levels[level..] == [];
    }
  }

  /** One step of verification: the sibling goes right of an even index and
      left of an odd one. */
  function Step(H: Hasher, idx: nat, h: Digest, sibling: Digest): Digest {
    if idx % 2 == 0 then Concat(H, h, sibling) else Concat(H, sibling, h)
  }

  /** verify_proof: fold the proof into the leaf, halving idx per entry. */
  function Verify(H: Hasher, idx: nat, h: Digest, proof: seq<Digest>): Digest
    decreases |proof|
  {
    if |proof| == 0 then h else Verify(H, idx / 2, Step(H, idx, h, proof[0]), proof[1..])
  }

  /** Whether no level from one of n nodes up gives node idx a sibling. */
  predicate NoSiblingAbove(n: nat, idx: nat)
    decreases n
  {
    n <= 1 || (Sibling(idx) >= n && NoSiblingAbove((n + 1) / 2, idx / 2))
  }

  /** Whether the path from node idx of a level of n nodes meets a promoted
      node only above its last recorded sibling: the condition under which
      verify_proof, which halves idx once per proof entry, keeps in step
      with gen_proof, which halves it once per level. */
  predicate PathIntact(n: nat, idx: nat)
    decreases n
  {
    if n <= 1 then true
    else if Sibling(idx) < n then PathIntact((n + 1) / 2, idx / 2)
    else NoSiblingAbove((n + 1) / 2, idx / 2)
  }

  /** The parent of node idx is the step of verification at idx. */
  lemma ParentIsStep(H: Hasher, cur: seq<Digest>, idx: nat)
    requires idx < |cur| && Sibling(idx) < |cur|
    ensures NextLevel(H, cur)[idx / 2] == Step(H, idx, cur[idx], cur[Sibling(idx)])
  {
    var k := idx / 2;
    assert NextLevel(H, cur)[k] == NodeAt(H, cur, k);
    if idx % 2 == 0 {
      assert 2 * k == idx;
    } else {
      assert 2 * k + 1 == idx;
    }
  }

  /** A node with no partner is promoted unchanged. */
  lemma PromotedNode(H: Hasher, cur: seq<Digest>, idx: nat)
    requires idx < |cur| && Sibling(idx) >= |cur|
    ensures NextLevel(H, cur)[idx / 2] == cur[idx]
  {
    var k := idx / 2;
    assert NextLevel(H, cur)[k] == NodeAt(H, cur, k);
    assert 2 * k == idx;
  }

  /** A node that never gets a sibling is promoted all the way to the root,
      and its proof is empty. */
  lemma {:induction false} PromotedToRoot(H: Hasher, cur: seq<Digest>, idx: nat)
    requires idx < |cur| && NoSiblingAbove(|cur|, idx)
    ensures cur[idx] == Root(H, cur) && Proof(LevelsFrom(H, cur), idx) == []
    decreases |cur|
  {
    hide LevelsFrom, Proof, Root;
    if |cur| > 1 {
      var next := NextLevel(H, cur);
      PromotedNode(H, cur, idx);
      PromotedToRoot(H, next, idx / 2);
      ProofStep(H, cur, idx);
      assert SiblingEntry(cur, idx) == [];
    } else {
      TopLevel(H, cur, idx);
    }
  }

  /** A level of one node is the top: its node is the root and the proof
      of that node ends there. */
  lemma TopLevel(H: Hasher, cur: seq<Digest>, idx: nat)
    requires |cur| == 1 && idx < |cur|
    ensures LevelsFrom(H, cur) == [cur] && Root(H, cur) == cur[0]
    ensures Proof(LevelsFrom(H, cur), idx) == []
  {
    assert Proof([cur], idx) == SiblingEntry(cur, idx) + Proof([], idx / 2);
  }

  /** The levels and the proof above a level of more than one node. */
  lemma ProofStep(H: Hasher, cur: seq<Digest>, idx: nat)
    requires |cur| > 1
    ensures LevelsFrom(H, cur) == [cur] + LevelsFrom(H, NextLevel(H, cur))
    ensures Root(H, cur) == Root(H, NextLevel(H, cur))
    ensures Proof(LevelsFrom(H, cur), idx) == SiblingEntry(cur, idx) + Proof(LevelsFrom(H, NextLevel(H, cur)), idx / 2)
  {
    var ls := LevelsFrom(H, cur);
    assert ls[1..] == LevelsFrom(H, NextLevel(H, cur));
  }

  /** The round trip of the source's demo: the proof gen_proof records for
      leaf idx, folded by verify_proof, gives the root, provided the path is
      intact. */
  lemma {:induction false} RoundTrip(H: Hasher, cur: seq<Digest>, idx: nat)
    requires idx < |cur| && PathIntact(|cur|, idx)
    ensures Verify(H, idx, cur[idx], Proof(LevelsFrom(H, cur), idx)) == Root(H, cur)
    decreases |cur|
  {
    hide LevelsFrom, Proof, Root;
    if |cur| == 1 {
      TopLevel(H, cur, idx);
    } else {
      var next := NextLevel(H, cur);
      var rest := Proof(LevelsFrom(H, next), idx / 2);
      ProofStep(H, cur, idx);
      if Sibling(idx) < |cur| {
        ParentIsStep(H, cur, idx);
        RoundTrip(H, next, idx / 2);
        assert Proof(LevelsFrom(H, cur), idx) == [cur[Sibling(idx)]] + rest;
        assert ([cur[Sibling(idx)]] + rest)[1..] == rest;
      } else {
        PromotedNode(H, cur, idx);
        PromotedToRoot(H, next, idx / 2);
        assert Proof(LevelsFrom(H, cur), idx) == [];
      }
    }
  }

  function Pow2(d: nat): (n: nat)
    ensures n >= 1
  {
    if d == 0 then 1 else 2 * Pow2(d - 1)
  }

  /** With 2^d leaves every path is intact and every proof has d entries. */
  lemma {:induction false} PowerOfTwo(H: Hasher, cur: seq<Digest>, d: nat, idx: nat)
    requires |cur| == Pow2(d) && idx < |cur|
    ensures PathIntact(|cur|, idx) && |Proof(LevelsFrom(H, cur), idx)| == d
    decreases d
  {
    hide LevelsFrom, Proof;
    if d == 0 {
      TopLevel(H, cur, idx);
    } else {
      var next := NextLevel(H, cur);
      assert |next| == Pow2(d - 1);
      ProofStep(H, cur, idx);
      PowerOfTwo(H, next, d - 1, idx / 2);
    }
  }

  /** The round trip holds for every leaf of a tree of 2^d leaves. */
  lemma PowerOfTwoRoundTrip(H: Hasher, leaves: seq<Digest>, d: nat, idx: nat)
    requires |leaves| == Pow2(d) && idx < |leaves|
    ensures Verify(H, idx, leaves[idx], Proof(LevelsFrom(H, leaves), idx)) == Root(H, leaves)
  {
    PowerOfTwo(H, leaves, d, idx);
    RoundTrip(H, leaves, idx);
  }

  /** The source's demo, leaf 12345 of 100000, has an intact path. */
  lemma DemoPathIntact()
    ensures PathIntact(100000, 12345)
  {
    assert PathIntact(2, 0);
    assert PathIntact(4, 0);
    assert PathIntact(7, 0);
    assert PathIntact(13, 1);
    assert PathIntact(25, 3);
    assert PathIntact(49, 6);
    assert PathIntact(98, 12);
    assert PathIntact(196, 24);
    assert PathIntact(391, 48);
    assert PathIntact(782, 96);
    assert PathIntact(1563, 192);
    assert PathIntact(3125, 385);
    assert PathIntact(6250, 771);
    assert PathIntact(12500, 1543);
    assert PathIntact(25000, 3086);
    assert PathIntact(50000, 6172);
  }

  /** With three leaves, leaf 2 is promoted at the bottom level, so its
      proof is the single sibling H(L0 || L1) one level up, and verify_proof
      puts it on the wrong side: it computes H(L2 || H(L0 || L1)) against the
      root H(H(L0 || L1) || L2). */
  lemma PromotedPathCounterexample(H: Hasher, leaves: seq<Digest>)
    requires |leaves| == 3
    ensures !PathIntact(3, 2)
    ensures Proof(LevelsFrom(H, leaves), 2) == [Concat(H, leaves[0], leaves[1])]
    ensures Verify(H, 2, leaves[2], Proof(LevelsFrom(H, leaves), 2)) == Concat(H, leaves[2], Concat(H, leaves[0], leaves[1]))
    ensures Root(H, leaves) == Concat(H, Concat(H, leaves[0], leaves[1]), leaves[2])
  {
    var next := NextLevel(H, leaves);
    assert next == [Concat(H, leaves[0], leaves[1]), leaves[2]] by {
      assert next[0] == NodeAt(H, leaves, 0) && next[1] == NodeAt(H, leaves, 1);
    }
    var top := NextLevel(H, next);
    assert top == [Concat(H, next[0], next[1])] by {
      assert top[0] == NodeAt(H, next, 0);
    }
    ProofStep(H, leaves, 2);
    ProofStep(H, next, 1);
    assert LevelsFrom(H, top) == [top];
    assert Proof([top], 0) == SiblingEntry(top, 0) + Proof([], 0);
    var p := [Concat(H, leaves[0], leaves[1])];
    assert Verify(H, 2, leaves[2], p) == Verify(H, 1, Step(H, 2, leaves[2], p[0]), p[1..]);
  }

  /** Verification that knows the leaf count: it walks the levels by size,
      consumes a proof entry only where the node has a sibling, and lets a
      promoted node rise unchanged, halving idx at every level. */
  function VerifySized(H: Hasher, n: nat, idx: nat, h: Digest, proof: seq<Digest>): Digest
    decreases n
  {
    if n <= 1 then h
    else if Sibling(idx) < n then
      (if |proof| == 0 then h else VerifySized(H, (n + 1) / 2, idx / 2, Step(H, idx, h, proof[0]), proof[1..]))
    else VerifySized(H, (n + 1) / 2, idx / 2, h, proof)
  }

  /** The corrected verification round-trips for every leaf. */
  lemma {:induction false} VerifySizedRoundTrip(H: Hasher, cur: seq<Digest>, idx: nat)
    requires idx < |cur|
    ensures VerifySized(H, |cur|, idx, cur[idx], Proof(LevelsFrom(H, cur), idx)) == Root(H, cur)
    decreases |cur|
  {
    hide LevelsFrom, Proof, Root;
    if |cur| == 1 {
      TopLevel(H, cur, idx);
    } else {
      var next := NextLevel(H, cur);
      var rest := Proof(LevelsFrom(H, next), idx / 2);
      ProofStep(H, cur, idx);
      VerifySizedRoundTrip(H, next, idx / 2);
      if Sibling(idx) < |cur| {
        ParentIsStep(H, cur, idx);
        assert Proof(LevelsFrom(H, cur), idx) == [cur[Sibling(idx)]] + rest;
        assert ([cur[Sibling(idx)]] + rest)[1..] == rest;
      } else {
        PromotedNode(H, cur, idx);
        assert SiblingEntry(cur, idx) == [];
        assert Proof(LevelsFrom(H, cur), idx) == rest;
      }
    }
  }

  /** The decimal digits of i, most significant first, as std::to_string
      writes them. */
  function Decimal(i: nat): (ds: seq<Byte>)
    ensures |ds| >= 1 && forall k :: 0 <= k < |ds| ==> 0x30 <= ds[k] <= 0x39
    decreases i
  {
    if i < 10 then [Digit(i)] else Decimal(i / 10) + [Digit(i % 10)]
  }

  function Digit(d: nat): (b: Byte)
    requires d < 10
    ensures 0x30 <= b <= 0x39 && b as int - 0x30 == d
  {
    (0x30 + d) as Byte
  }

  /** The number a string of decimal digits denotes. */
  function DecimalValue(ds: seq<Byte>): nat
    requires forall k :: 0 <= k < |ds| ==> 0x30 <= ds[k] <= 0x39
  {
    if |ds| == 0 then 0 else 10 * DecimalValue(ds[..|ds| - 1]) + (ds[|ds| - 1] as int - 0x30)
  }

  /** Reading the digits back gives the number. */
  lemma {:induction false} DecimalRoundTrip(i: nat)
    ensures DecimalValue(Decimal(i)) == i
    decreases i
  {
    if i >= 10 {
      DecimalRoundTrip(i / 10);
      var ds := Decimal(i);
      assert ds[..|ds| - 1] == Decimal(i / 10);
    }
  }

  /** The label of leaf i: "leaf#" followed by i in decimal. */
  function LeafLabel(i: nat): seq<Byte> {
    [0x6C, 0x65, 0x61, 0x66, 0x23] + Decimal(i)
  }

  /** Distinct leaves have distinct labels. */
  lemma LeafLabelsDistinct(i: nat, j: nat)
    requires i != j
    ensures LeafLabel(i) != LeafLabel(j)
  {
    if LeafLabel(i) == LeafLabel(j) {
      assert Decimal(i) == LeafLabel(i)[5..];
      assert Decimal(j) == LeafLabel(j)[5..];
      DecimalRoundTrip(i);
      DecimalRoundTrip(j);
    }
  }

  /** The tree: its leaves, its levels (the map from level to nodes, whose
      keys are 0 up to the top) and its root. */
  class MerkleTree {
    const H: Hasher
    var leaves: seq<Digest>
    var levels: seq<seq<Digest>>
    var root: Digest

    constructor(H: Hasher)
      ensures this.H == H && leaves == [] && levels == [] && root == []
    {
      this.H := H;
      leaves := [];
      levels := [];
      root := [];
    }

    /** build: leaf i is the hash of its label, then the levels. A tree of
        no leaves has no root to read, so n is at least one. */
    method Build(n: nat)
      requires n >= 1
      modifies this
      ensures |leaves| == n && forall i :: 0 <= i < n ==> leaves[i] == H(LeafLabel(i))
      ensures levels == LevelsFrom(H, leaves) && root == Root(H, leaves)
    {
      leaves := seq(n, i => []);
      for i := 0 to n
        invariant |leaves| == n
        invariant forall k :: 0 <= k < i ==> leaves[k] == H(LeafLabel(k))
      {
        leaves := leaves[i := H(LeafLabel(i))];
      }
      BuildFromLeaves();
    }

    /** build_from_leaves: level 0 is the leaves, each next level is built
        from the one below until a level has one node, whose node is the
        root. */
    method BuildFromLeaves()
      requires |leaves| >= 1
      modifies this
      ensures leaves == old(leaves)
      ensures levels == LevelsFrom(H, leaves) && root == Root(H, leaves)
    {
      levels := [leaves];
      var level := 0;
      while |levels[level]| > 1
        invariant leaves == old(leaves)
        invariant level + 1 == |levels| && |levels[level]| >= 1 &&
                  levels[..level] + LevelsFrom(H, levels[level]) == LevelsFrom(H, leaves)
        decreases |levels[level]|
      {
        var cur := levels[level];
        var next := BuildLevel(H, cur);
        LevelsAppend(H, levels, cur, next);
        levels := levels + [next];
        level := level + 1;
      }
      assert LevelsFrom(H, levels[level]) == [levels[level]];
      assert levels == LevelsFrom(H, leaves);
      root := levels[level][0];
    }

    /** gen_proof: the siblings present on the path of idx, level by level,
        idx halving at every level; the tree is only read. */
    method GenProof(idx: nat) returns (proof: seq<Digest>)
      ensures proof == Proof(levels, idx)
    {
      hide Proof;
      proof := [];
      var i := idx;
      var level := 0;
      while level < |levels|
        invariant level <= |levels|
        invariant proof + Proof(levels[level..], i) == Proof(levels, idx)
        decreases |levels| - level
      {
        ProofFrom(levels, level, i);
        var sibling := Sibling(i);
        if sibling < |levels[level]| {
          proof := proof + [levels[level][sibling]];
        }
        i := i / 2;
        level := level + 1;
      }
      ProofFrom(levels, level, i);
      assert levels[0..] == levels;
    }

    /** verify_proof: the leaf folded with each sibling, on the side the
        parity of idx says, idx halving per entry. */
    static method VerifyProof(H: Hasher, idx: nat, leaf: Digest, proof: seq<Digest>) returns (h: Digest)
      ensures h == Verify(H, idx, leaf, proof)
    {
      h := leaf;
      var i := idx;
      for k := 0 to |proof|
        invariant Verify(H, i, h, proof[k..]) == Verify(H, idx, leaf, proof)
      {
        assert proof[k..][1..] == proof[k + 1..];
        if i % 2 == 0 {
          h := Concat(H, h, proof[k]);
        } else {
          h := Concat(H, proof[k], h);
        }
        i := i / 2;
      }
    }
  }

  /** The inner loop of build_from_leaves: pairs hashed, an odd last node
      pushed unchanged. */
  method BuildLevel(H: Hasher, cur: seq<Digest>) returns (next: seq<Digest>)
    ensures next == NextLevel(H, cur)
  {
    next := [];
    var i := 0;
    while i < |cur|
      invariant i % 2 == 0 && i <= |cur| + 1 && |next| == i / 2
      invariant forall k :: 0 <= k < |next| ==> next[k] == NodeAt(H, cur, k)
      decreases |cur| - i
    {
      if i + 1 < |cur| {
        next := next + [Concat(H, cur[i], cur[i + 1])];
      } else {
        next := next + [cur[i]];
      }
      i := i + 2;
    }
  }

  /** Appending the next level keeps the levels built so far a prefix of
      the levels of the leaves. */
  lemma LevelsAppend(H: Hasher, levels: seq<seq<Digest>>, cur: seq<Digest>, next: seq<Digest>)
    requires |levels| >= 1 && cur == levels[|levels| - 1] && |cur| > 1 && next == NextLevel(H, cur)
    ensures levels[..|levels| - 1] + LevelsFrom(H, cur) == (levels + [next])[..|levels|] + LevelsFrom(H, next)
  {
    hide LevelsFrom, NextLevel;
    ProofStep(H, cur, 0);
    assert (levels + [next])[..|levels|] == levels;
    assert levels == levels[..|levels| - 1] + [cur];
  }
}

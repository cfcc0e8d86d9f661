/** The partial Merkle trees of BRMerkleBlock.c. */
module Merkle {
  import opened Blocks
  import opened Int256
  import opened Words

  type Hasher = (Hash, Hash) -> Hash

  const SIZE_MAX: nat := W64 - 1

  /** The double SHA-256 of two hashes, as far as the walks rely on it. */
  ghost predicate IsGood(sha: Hasher) {
    && (forall a, b, c, d :: sha(a, b) == sha(c, d) ==> a == c && b == d)
    && (forall a, b :: sha(a, b) != 0)
  }

  // ---------- the depth of the tree ----------

  /** The least depth at which a binary tree has room for n leaves. */
  function Depth(n: nat): nat {
    if n == 0 then 0 else BitLength(n - 1)
  }

  lemma DepthIsLeast(n: nat, h: nat)
    requires n > 0
    ensures Depth(n) <= h <==> n <= Pow2(h)
  {
    BitLengthFits(n - 1, h);
  }

  lemma DepthHalves(n: nat)
    requires n > 1
    ensures Depth(n) == 1 + Depth((n + 1) / 2)
  {
    assert (n - 1) / 2 == (n + 1) / 2 - 1;
  }

  /** Whether x & (x - 1) leaves anything: one bit, or more than one. */
  lemma {:induction false} FloorAndCeiling(x: nat)
    requires x > 0
    ensures BitLength(x) - 1 + (if And(x, x - 1) != 0 then 1 else 0) == BitLength(x - 1)
  {
    var y := x / 2;
    if x == 1 {
      AndZero(1);
    } else if x % 2 == 0 {
      FloorAndCeiling(y);
      AndStep(x, x - 1);
      assert (x - 1) / 2 == y - 1;
    } else {
      AndStep(x, x - 1);
      AndSelf(y);
      assert (x - 1) / 2 == y;
    }
  }

  lemma {:induction false} AndSelf(x: nat)
    ensures And(x, x) == x
  {
    if x > 0 {
      AndSelf(x / 2);
      AndStep(x, x);
    }
  }

  /** _ceil_log2 */
  method CeilLog2(x: nat) returns (r: nat)
    requires x < 0x8000_0000
    ensures r == Depth(x)
  {
    hide And;
    if x == 0 {
      return 0;
    }
    FloorAndCeiling(x);
    r := if And(x, x - 1) != 0 then 1 else 0;
    var y: nat := x / 2;
    while y != 0
      invariant r + BitLength(y) == Depth(x)
      decreases y
    {
      y := y / 2;
      r := r + 1;
    }
  }

  // ---------- Merkle roots ----------

  /** The row above: neighbours hashed together, the last one with itself if it has no neighbour. */
  function PairUp(sha: Hasher, row: seq<Hash>): (up: seq<Hash>)
    ensures |up| == (|row| + 1) / 2
  {
    if row == [] then []
    else if |row| == 1 then [sha(row[0], row[0])]
    else [sha(row[0], row[1])] + PairUp(sha, row[2..])
  }

  /** The Merkle root, row by row. */
  function MerkleRoot(sha: Hasher, row: seq<Hash>): Hash
    requires row != []
    decreases |row|
  {
    if |row| == 1 then row[0] else MerkleRoot(sha, PairUp(sha, row))
  }

  /** Roots of few leaves, from left to right; a last one without neighbour is paired with itself. */
  lemma SmallTrees(sha: Hasher, a: Hash, b: Hash, c: Hash, d: Hash, e: Hash)
    ensures MerkleRoot(sha, [a]) == a && MerkleRoot(sha, [a, b]) == sha(a, b)
    ensures MerkleRoot(sha, [a, b, c]) == sha(sha(a, b), sha(c, c))
    ensures MerkleRoot(sha, [a, b, c, d, e]) == sha(sha(sha(a, b), sha(c, d)), sha(sha(e, e), sha(e, e)))
  {
    var ab, cd, ee, cc := sha(a, b), sha(c, d), sha(e, e), sha(c, c);
    assert PairUp(sha, []) == [] && PairUp(sha, [e]) == [ee] && PairUp(sha, [c]) == [cc];
    assert PairUp(sha, [a, b]) == [ab] by { PairUpStep(sha, a, b, []); assert [a, b] + [] == [a, b]; }
    assert PairUp(sha, [a, b, c]) == [ab, cc] by { PairUpStep(sha, a, b, [c]); assert [a, b] + [c] == [a, b, c]; }
    PairUpStep(sha, c, d, [e]);
    PairUpStep(sha, a, b, [c, d, e]);
    assert [c, d] + [e] == [c, d, e] && [a, b] + [c, d, e] == [a, b, c, d, e];
    assert PairUp(sha, [a, b, c, d, e]) == [ab, cd, ee];
    PairUpStep(sha, ab, cd, [ee]);
    assert [ab, cd] + [ee] == [ab, cd, ee];
    SmallRows(sha, ab, cc);
    SmallRows(sha, sha(ab, cd), sha(ee, ee));
    assert PairUp(sha, [ab, cd, ee]) == [sha(ab, cd), sha(ee, ee)] by { assert PairUp(sha, [ee]) == [sha(ee, ee)]; }
  }

  lemma SmallRows(sha: Hasher, a: Hash, b: Hash)
    ensures MerkleRoot(sha, [a, b]) == sha(a, b)
  {
    PairUpStep(sha, a, b, []);
    assert [a, b] + [] == [a, b];
  }

  /** The node of height h above some leaves, of which the last may be missing. */
  function Node(sha: Hasher, leaves: seq<Hash>, h: nat): Hash
    requires 0 < |leaves| <= Pow2(h)
    decreases h, leaves
  {
    if h == 0 then leaves[0]
    else
      var half := Pow2(h - 1);
      if |leaves| <= half then
        var left := Node(sha, leaves, h - 1);
        sha(left, left)
      else sha(Node(sha, leaves[..half], h - 1), Node(sha, leaves[half..], h - 1))
  }

  lemma PairUpStep(sha: Hasher, a: Hash, b: Hash, t: seq<Hash>)
    ensures PairUp(sha, [a, b] + t) == [sha(a, b)] + PairUp(sha, t)
  {
    assert ([a, b] + t)[2..] == t;
  }

  lemma {:induction false} PairUpSplit(sha: Hasher, row: seq<Hash>, k: nat)
    requires 2 * k <= |row|
    ensures PairUp(sha, row)[..k] == PairUp(sha, row[..2 * k])
    ensures PairUp(sha, row)[k..] == PairUp(sha, row[2 * k..])
  {
    if k == 0 {
      assert row[0..] == row;
    } else {
      hide PairUp;
      var a, b, t, m := row[0], row[1], row[2..], 2 * (k - 1);
      PairUpSplit(sha, t, k - 1);
      assert row == [a, b] + t && row[..2 * k] == [a, b] + t[..m] && row[2 * k..] == t[m..];
      PairUpStep(sha, a, b, t);
      PairUpStep(sha, a, b, t[..m]);
    }
  }

  /** A tree is as high over a row as, one less, over the row above. */
  lemma {:induction false} NodeOverPairs(sha: Hasher, row: seq<Hash>, h: nat)
    requires 0 < |row| <= Pow2(h + 1)
    ensures |PairUp(sha, row)| <= Pow2(h) && Node(sha, row, h + 1) == Node(sha, PairUp(sha, row), h)
    decreases h
  {
    PowDoubles(h);
    if h == 0 {
      assert |row| > 1 ==> row[1..][0] == row[1];
    } else {
      PowDoubles(h - 1);
      var half, quarter := Pow2(h), Pow2(h - 1);
      if |row| <= half {
        NodeOverPairs(sha, row, h - 1);
      } else {
        NodeOverPairs(sha, row[..half], h - 1);
        NodeOverPairs(sha, row[half..], h - 1);
        PairUpSplit(sha, row, quarter);
      }
    }
  }

  /** The recursive tree and the row by row construction have the same root. */
  lemma {:induction false} TreeRoot(sha: Hasher, row: seq<Hash>)
    requires row != []
    ensures |row| <= Pow2(Depth(|row|)) && Node(sha, row, Depth(|row|)) == MerkleRoot(sha, row)
    decreases |row|
  {
    DepthIsLeast(|row|, Depth(|row|));
    if |row| > 1 {
      DepthHalves(|row|);
      var up := PairUp(sha, row);
      NodeOverPairs(sha, row, Depth(|up|));
      TreeRoot(sha, up);
    }
  }

  // ---------- no two different nodes of one height are equal ----------

  ghost predicate DistinctHashes(leaves: seq<Hash>) {
    && (forall i :: 0 <= i < |leaves| ==> leaves[i] != 0)
    && (forall i, j :: 0 <= i < j < |leaves| ==> leaves[i] != leaves[j])
  }

  lemma {:induction false} NodesDiffer(sha: Hasher, a: seq<Hash>, b: seq<Hash>, h: nat)
    requires IsGood(sha) && 0 < |a| <= Pow2(h) && 0 < |b| <= Pow2(h)
    requires forall i, j :: 0 <= i < |a| && 0 <= j < |b| ==> a[i] != b[j]
    ensures Node(sha, a, h) != Node(sha, b, h)
    decreases h
  {
    if h > 0 {
      var half := Pow2(h - 1);
      var a', b' := if |a| <= half then a else a[..half], if |b| <= half then b else b[..half];
      NodesDiffer(sha, a', b', h - 1);
    }
  }

  lemma {:induction false} NodeIsNotZero(sha: Hasher, a: seq<Hash>, h: nat)
    requires IsGood(sha) && DistinctHashes(a) && 0 < |a| <= Pow2(h)
    ensures Node(sha, a, h) != 0
  {
  }

  // ---------- the partial tree format of BIP 37 ----------

  datatype Partial = Partial(bits: seq<bool>, hashes: seq<Hash>)

  /** The part of a partial tree below one node: depth first, down to the matches and no further. */
  function Encode(sha: Hasher, leaves: seq<Hash>, matches: seq<bool>, h: nat): (p: Partial)
    requires 0 < |leaves| == |matches| <= Pow2(h)
    ensures p.bits != [] && p.hashes != []
    decreases h, leaves
  {
    if h == 0 || true !in matches then Partial([true in matches], [Node(sha, leaves, h)])
    else
      var half := Pow2(h - 1);
      if |leaves| <= half then
        var left := Encode(sha, leaves, matches, h - 1);
        Partial([true] + left.bits, left.hashes)
      else
        var left := Encode(sha, leaves[..half], matches[..half], h - 1);
        var right := Encode(sha, leaves[half..], matches[half..], h - 1);
        Partial([true] + left.bits + right.bits, left.hashes + right.hashes)
  }

  /** The partial tree of three leaves with a match of the second one: depth first, left before right. */
  lemma SmallEncoding(sha: Hasher, a: Hash, b: Hash, c: Hash)
    ensures Pow2(2) == 4 && Encode(sha, [a, b, c], [false, true, false], 2)
                            == Partial([true, true, false, true, false], [a, b, sha(c, c)])
    ensures Pack([true, true, false, true, false]) == [0x0b]
  {
    assert Pow2(1) == 2 && Pow2(0) == 1;
    var leaves, matches := [a, b, c], [false, true, false];
    assert leaves[..2] == [a, b] && leaves[2..] == [c] && matches[..2] == [false, true] && matches[2..] == [false];
    assert matches[1] && matches[..2][1];
    assert [a, b][..1] == [a] && [a, b][1..] == [b] && [false, true][..1] == [false] && [false, true][1..] == [true];
    assert [true][0];
    assert Encode(sha, [a], [false], 0) == Partial([false], [a]) && Encode(sha, [b], [true], 0) == Partial([true], [b]);
    assert Encode(sha, [a, b], [false, true], 1) == Partial([true, false, true], [a, b]);
    assert Node(sha, [c], 1) == sha(c, c);
    assert Encode(sha, [c], [false], 1) == Partial([false], [sha(c, c)]);
    SmallByte();
  }

  lemma SmallByte()
    ensures Pack([true, true, false, true, false]) == [0x0b]
  {
    var bits := [true, true, false, true, false];
    assert bits[..5] == bits && bits[5..] == [];
    assert bits[1..] == [true, false, true, false] && bits[1..][1..] == [false, true, false];
    assert ByteOf([false, true, false]) == 2 by {
      assert [false, true, false][1..] == [true, false] && [true, false][1..] == [false] && [false][1..] == [];
    }
  }

  function Matched(leaves: seq<Hash>, matches: seq<bool>): seq<Hash>
    requires |leaves| == |matches|
  {
    if leaves == [] then []
    else (if matches[0] then [leaves[0]] else []) + Matched(leaves[1..], matches[1..])
  }

  datatype MerkleBlock = MerkleBlock(totalTx: nat, hashes: seq<Hash>, flags: seq<byte>)

  /** Flag i of the block, from the low bit of the first byte up. */
  function FlagAt(b: MerkleBlock, i: nat): bool
    requires i / 8 < |b.flags|
  {
    And(b.flags[i / 8], Pow2(i % 8)) != 0
  }

  ghost predicate HasMore(b: MerkleBlock, hashIdx: nat, flagIdx: nat) {
    flagIdx / 8 < |b.flags| && hashIdx < |b.hashes|
  }

  /** The bits and hashes of p come next. */
  ghost predicate ComesNext(b: MerkleBlock, hashIdx: nat, flagIdx: nat, p: Partial) {
    && hashIdx + |p.hashes| <= |b.hashes| && b.hashes[hashIdx..hashIdx + |p.hashes|] == p.hashes
    && flagIdx + |p.bits| <= 8 * |b.flags| && forall i :: 0 <= i < |p.bits| ==> FlagAt(b, flagIdx + i) == p.bits[i]
  }

  /** A block that carries the encoding of some matches; what its last flag byte is padded with does not matter. */
  ghost predicate Carries(b: MerkleBlock, sha: Hasher, leaves: seq<Hash>, matches: seq<bool>) {
    && 0 < |leaves| == |matches| <= Pow2(Depth(|leaves|)) && b.totalTx == |leaves|
    && var p := Encode(sha, leaves, matches, Depth(|leaves|));
    b.hashes == p.hashes && ComesNext(b, 0, 0, p)
  }

  // ---------- the walks ----------

  function Min(x: nat, y: nat): nat {
    if x <= y then x else y
  }

  datatype Walked<T> = Walked(result: T, hashIdx: nat, flagIdx: nat)

  /** What _BRMerkleBlockTxHashesR finds from a position on, and where it stops. */
  function TxWalk(b: MerkleBlock, hashIdx: nat, flagIdx: nat, depth: nat): Walked<seq<Hash>>
    requires depth <= Depth(b.totalTx)
    decreases Depth(b.totalTx) - depth
  {
    if !(flagIdx / 8 < |b.flags| && hashIdx < |b.hashes|) then Walked([], hashIdx, flagIdx)
    else
      var flag := FlagAt(b, flagIdx);
      if !flag || depth == Depth(b.totalTx) then Walked(if flag then [b.hashes[hashIdx]] else [], hashIdx + 1, flagIdx + 1)
      else
        var left := TxWalk(b, hashIdx, flagIdx + 1, depth + 1);
        var right := TxWalk(b, left.hashIdx, left.flagIdx, depth + 1);
        Walked(left.result + right.result, right.hashIdx, right.flagIdx)
  }

  /** What _BRMerkleBlockRootR computes from a position on, and where it stops. */
  function RootWalk(b: MerkleBlock, sha: Hasher, hashIdx: nat, flagIdx: nat, depth: nat): Walked<Hash>
    requires depth <= Depth(b.totalTx)
    decreases Depth(b.totalTx) - depth
  {
    if !(flagIdx / 8 < |b.flags| && hashIdx < |b.hashes|) then Walked(0, hashIdx, flagIdx)
    else if FlagAt(b, flagIdx) && depth != Depth(b.totalTx) then
      var left := RootWalk(b, sha, hashIdx, flagIdx + 1, depth + 1);
      var right := RootWalk(b, sha, left.hashIdx, left.flagIdx, depth + 1);
      if left.result != 0 && left.result != right.result then
        Walked(sha(left.result, if right.result == 0 then left.result else right.result), right.hashIdx, right.flagIdx)
      else Walked(0, SIZE_MAX, right.flagIdx)
    else Walked(b.hashes[hashIdx], hashIdx + 1, flagIdx + 1)
  }

  lemma {:induction false} MatchedSplit(leaves: seq<Hash>, matches: seq<bool>, k: nat)
    requires k <= |leaves| == |matches|
    ensures Matched(leaves, matches) == Matched(leaves[..k], matches[..k]) + Matched(leaves[k..], matches[k..])
  {
    if k == 0 {
      assert leaves[0..] == leaves && matches[0..] == matches;
    } else {
      MatchedSplit(leaves[1..], matches[1..], k - 1);
      assert leaves[1..][..k - 1] == leaves[..k][1..] && matches[1..][..k - 1] == matches[..k][1..];
      assert leaves[1..][k - 1..] == leaves[k..] && matches[1..][k - 1..] == matches[k..];
    }
  }

  lemma {:induction false} NothingMatched(leaves: seq<Hash>, matches: seq<bool>)
    requires |leaves| == |matches| && true !in matches
    ensures Matched(leaves, matches) == []
  {
    if leaves != [] {
      NothingMatched(leaves[1..], matches[1..]);
    }
  }

  lemma NextParts(b: MerkleBlock, hashIdx: nat, flagIdx: nat, p: Partial, left: Partial, right: Partial)
    requires ComesNext(b, hashIdx, flagIdx, p)
    requires p.bits == [true] + left.bits + right.bits && p.hashes == left.hashes + right.hashes
    ensures ComesNext(b, hashIdx, flagIdx + 1, left)
    ensures ComesNext(b, hashIdx + |left.hashes|, flagIdx + 1 + |left.bits|, right)
  {
    hide FlagAt;
    var m, n := |left.hashes|, |left.bits|;
    assert left.hashes == p.hashes[..m] && right.hashes == p.hashes[m..];
    assert b.hashes[hashIdx..hashIdx + m] == b.hashes[hashIdx..hashIdx + |p.hashes|][..m];
    assert b.hashes[hashIdx + m..hashIdx + |p.hashes|] == b.hashes[hashIdx..hashIdx + |p.hashes|][m..];
    forall i | 0 <= i < n
      ensures FlagAt(b, flagIdx + 1 + i) == left.bits[i]
    {
      assert FlagAt(b, flagIdx + (i + 1)) == p.bits[i + 1];
    }
    forall i | 0 <= i < |right.bits|
      ensures FlagAt(b, flagIdx + 1 + n + i) == right.bits[i]
    {
      assert FlagAt(b, flagIdx + (i + 1 + n)) == p.bits[i + 1 + n];
    }
  }

  lemma NextFirst(b: MerkleBlock, hashIdx: nat, flagIdx: nat, p: Partial)
    requires ComesNext(b, hashIdx, flagIdx, p) && p.bits != [] && p.hashes != []
    ensures HasMore(b, hashIdx, flagIdx) && FlagAt(b, flagIdx) == p.bits[0] && b.hashes[hashIdx] == p.hashes[0]
  {
    hide FlagAt;
    assert FlagAt(b, flagIdx + 0) == p.bits[0];
    assert b.hashes[hashIdx..hashIdx + |p.hashes|][0] == p.hashes[0];
  }

  /** A right child is missing only when every hash has been consumed. */
  ghost predicate CompleteOrLast(b: MerkleBlock, hashIdx: nat, leaves: seq<Hash>, h: nat, p: Partial) {
    |leaves| == Pow2(h) || hashIdx + |p.hashes| == |b.hashes|
  }

  /** The right half of an encoding, which is empty when there is no right child. */
  function RightPart(sha: Hasher, leaves: seq<Hash>, matches: seq<bool>, h: nat): Partial
    requires 0 < |leaves| == |matches| <= 2 * Pow2(h)
  {
    if |leaves| <= Pow2(h) then Partial([], []) else Encode(sha, leaves[Pow2(h)..], matches[Pow2(h)..], h)
  }

  function LeftCount(leaves: seq<Hash>, h: nat): (n: nat)
    ensures n <= |leaves| && n <= Pow2(h)
  {
    Min(|leaves|, Pow2(h))
  }

  lemma EncodeSplits(sha: Hasher, leaves: seq<Hash>, matches: seq<bool>, h: nat)
    requires 0 < |leaves| == |matches| <= Pow2(h + 1) && true in matches
    ensures |leaves| <= 2 * Pow2(h) && 0 < LeftCount(leaves, h)
    ensures var n := LeftCount(leaves, h);
            var left, right := Encode(sha, leaves[..n], matches[..n], h), RightPart(sha, leaves, matches, h);
            Encode(sha, leaves, matches, h + 1) == Partial([true] + left.bits + right.bits, left.hashes + right.hashes)
  {
    hide Node;
    PowDoubles(h);
    hide Pow2;
    if |leaves| <= Pow2(h) {
      assert leaves[..|leaves|] == leaves && matches[..|leaves|] == matches;
    }
  }

  lemma EncodeStops(sha: Hasher, leaves: seq<Hash>, matches: seq<bool>, h: nat)
    requires 0 < |leaves| == |matches| <= Pow2(h) && (h == 0 || true !in matches)
    ensures Encode(sha, leaves, matches, h) == Partial([true in matches], [Node(sha, leaves, h)])
    ensures Matched(leaves, matches) == if true in matches then [Node(sha, leaves, h)] else []
  {
    if h == 0 {
      OneLeaf(leaves, matches);
    } else {
      NothingMatched(leaves, matches);
    }
  }

  lemma TxWalkInner(b: MerkleBlock, hashIdx: nat, flagIdx: nat, depth: nat, left: Walked<seq<Hash>>, right: Walked<seq<Hash>>)
    requires HasMore(b, hashIdx, flagIdx) && FlagAt(b, flagIdx) && depth < Depth(b.totalTx)
    requires left == TxWalk(b, hashIdx, flagIdx + 1, depth + 1)
    requires right == TxWalk(b, left.hashIdx, left.flagIdx, depth + 1)
    ensures TxWalk(b, hashIdx, flagIdx, depth) == Walked(left.result + right.result, right.hashIdx, right.flagIdx)
  {
    hide FlagAt;
    hide Depth;
  }

  lemma TxWalkStops(b: MerkleBlock, hashIdx: nat, flagIdx: nat, depth: nat)
    requires HasMore(b, hashIdx, flagIdx) && depth <= Depth(b.totalTx)
    requires !FlagAt(b, flagIdx) || depth == Depth(b.totalTx)
    ensures TxWalk(b, hashIdx, flagIdx, depth)
            == Walked(if FlagAt(b, flagIdx) then [b.hashes[hashIdx]] else [], hashIdx + 1, flagIdx + 1)
  {
    hide FlagAt;
    hide Depth;
  }

  lemma MatchedParts(leaves: seq<Hash>, matches: seq<bool>, h: nat)
    requires |leaves| == |matches|
    ensures var n := LeftCount(leaves, h);
            Matched(leaves, matches) == Matched(leaves[..n], matches[..n]) + Matched(leaves[n..], matches[n..])
  {
    MatchedSplit(leaves, matches, LeftCount(leaves, h));
  }

  /** Walking over an encoding finds its matches and consumes exactly the encoding. */
  lemma {:induction false} TxWalkDecodes(b: MerkleBlock, sha: Hasher, leaves: seq<Hash>, matches: seq<bool>, h: nat,
      hashIdx: nat, flagIdx: nat)
    requires 0 < |leaves| == |matches| <= Pow2(h) && h <= Depth(b.totalTx)
    requires ComesNext(b, hashIdx, flagIdx, Encode(sha, leaves, matches, h))
    requires CompleteOrLast(b, hashIdx, leaves, h, Encode(sha, leaves, matches, h))
    ensures var p := Encode(sha, leaves, matches, h);
            TxWalk(b, hashIdx, flagIdx, Depth(b.totalTx) - h)
            == Walked(Matched(leaves, matches), hashIdx + |p.hashes|, flagIdx + |p.bits|)
    decreases h
  {
    hide ComesNext;
    hide FlagAt;
    hide Depth;
    hide Encode;
    hide Matched;
    hide TxWalk;
    hide Node;
    hide Pow2;
    var p, d := Encode(sha, leaves, matches, h), Depth(b.totalTx) - h;
    NextFirst(b, hashIdx, flagIdx, p);
    if h == 0 || true !in matches {
      EncodeStops(sha, leaves, matches, h);
      TxWalkStops(b, hashIdx, flagIdx, d);
    } else {
      EncodeSplits(sha, leaves, matches, h - 1);
      PowDoubles(h - 1);
      MatchedParts(leaves, matches, h - 1);
      var n := LeftCount(leaves, h - 1);
      var left, right := Encode(sha, leaves[..n], matches[..n], h - 1), RightPart(sha, leaves, matches, h - 1);
      var hashIdx', flagIdx' := hashIdx + |left.hashes|, flagIdx + 1 + |left.bits|;
      NextParts(b, hashIdx, flagIdx, p, left, right);
      TxWalkDecodes(b, sha, leaves[..n], matches[..n], h - 1, hashIdx, flagIdx + 1);
      if n == |leaves| {
        NoMoreTx(b, hashIdx', flagIdx', d + 1);
        NothingMatched(leaves[n..], matches[n..]);
      } else {
        TxWalkDecodes(b, sha, leaves[n..], matches[n..], h - 1, hashIdx', flagIdx');
      }
      TxWalkInner(b, hashIdx, flagIdx, d, TxWalk(b, hashIdx, flagIdx + 1, d + 1), TxWalk(b, hashIdx', flagIdx', d + 1));
    }
  }

  lemma OneLeaf(leaves: seq<Hash>, matches: seq<bool>)
    requires |leaves| == |matches| == 1
    ensures Matched(leaves, matches) == (if matches[0] then [leaves[0]] else []) && (true in matches <==> matches[0])
  {
  }

  lemma NoMoreTx(b: MerkleBlock, hashIdx: nat, flagIdx: nat, depth: nat)
    requires depth <= Depth(b.totalTx) && hashIdx >= |b.hashes|
    ensures TxWalk(b, hashIdx, flagIdx, depth) == Walked([], hashIdx, flagIdx)
  {
  }

  lemma NoMoreRoot(b: MerkleBlock, sha: Hasher, hashIdx: nat, flagIdx: nat, depth: nat)
    requires depth <= Depth(b.totalTx) && hashIdx >= |b.hashes|
    ensures RootWalk(b, sha, hashIdx, flagIdx, depth) == Walked(0, hashIdx, flagIdx)
  {
  }

  lemma RootWalkInner(b: MerkleBlock, sha: Hasher, hashIdx: nat, flagIdx: nat, depth: nat, left: Walked<Hash>, right: Walked<Hash>)
    requires HasMore(b, hashIdx, flagIdx) && FlagAt(b, flagIdx) && depth < Depth(b.totalTx)
    requires left == RootWalk(b, sha, hashIdx, flagIdx + 1, depth + 1)
    requires right == RootWalk(b, sha, left.hashIdx, left.flagIdx, depth + 1)
    requires left.result != 0 && left.result != right.result
    ensures RootWalk(b, sha, hashIdx, flagIdx, depth)
            == Walked(sha(left.result, if right.result == 0 then left.result else right.result), right.hashIdx, right.flagIdx)
  {
    hide FlagAt;
    hide Depth;
  }

  lemma RootWalkStops(b: MerkleBlock, sha: Hasher, hashIdx: nat, flagIdx: nat, depth: nat)
    requires HasMore(b, hashIdx, flagIdx) && depth <= Depth(b.totalTx)
    requires !FlagAt(b, flagIdx) || depth == Depth(b.totalTx)
    ensures RootWalk(b, sha, hashIdx, flagIdx, depth) == Walked(b.hashes[hashIdx], hashIdx + 1, flagIdx + 1)
  {
    hide FlagAt;
    hide Depth;
  }

  /** The node above one or two halves. */
  lemma NodeSplits(sha: Hasher, leaves: seq<Hash>, h: nat)
    requires 0 < |leaves| <= 2 * Pow2(h)
    ensures Pow2(h + 1) == 2 * Pow2(h) && 0 < LeftCount(leaves, h)
    ensures var n := LeftCount(leaves, h);
            var left := Node(sha, leaves[..n], h);
            Node(sha, leaves, h + 1) == sha(left, if n == |leaves| then left else Node(sha, leaves[n..], h))
  {
    PowDoubles(h);
    hide Pow2;
    if |leaves| <= Pow2(h) {
      assert leaves[..|leaves|] == leaves;
    }
  }

  /** Walking over an encoding computes the node it stands for and consumes exactly the encoding. */
  lemma {:induction false} RootWalkDecodes(b: MerkleBlock, sha: Hasher, leaves: seq<Hash>, matches: seq<bool>, h: nat,
      hashIdx: nat, flagIdx: nat)
    requires IsGood(sha) && DistinctHashes(leaves)
    requires 0 < |leaves| == |matches| <= Pow2(h) && h <= Depth(b.totalTx)
    requires ComesNext(b, hashIdx, flagIdx, Encode(sha, leaves, matches, h))
    requires CompleteOrLast(b, hashIdx, leaves, h, Encode(sha, leaves, matches, h))
    ensures var p := Encode(sha, leaves, matches, h);
            RootWalk(b, sha, hashIdx, flagIdx, Depth(b.totalTx) - h)
            == Walked(Node(sha, leaves, h), hashIdx + |p.hashes|, flagIdx + |p.bits|)
    decreases h
  {
    hide ComesNext;
    hide FlagAt;
    hide Depth;
    hide IsGood;
    hide DistinctHashes;
    hide Encode;
    hide RootWalk;
    hide Node;
    hide Pow2;
    var p, d := Encode(sha, leaves, matches, h), Depth(b.totalTx) - h;
    NextFirst(b, hashIdx, flagIdx, p);
    if h == 0 || true !in matches {
      EncodeStops(sha, leaves, matches, h);
      RootWalkStops(b, sha, hashIdx, flagIdx, d);
    } else {
      EncodeSplits(sha, leaves, matches, h - 1);
      PowDoubles(h - 1);
      NodeSplits(sha, leaves, h - 1);
      var n := LeftCount(leaves, h - 1);
      var left, right := Encode(sha, leaves[..n], matches[..n], h - 1), RightPart(sha, leaves, matches, h - 1);
      var hashIdx', flagIdx' := hashIdx + |left.hashes|, flagIdx + 1 + |left.bits|;
      NextParts(b, hashIdx, flagIdx, p, left, right);
      LeftIsDistinct(sha, leaves, n, h - 1);
      RootWalkDecodes(b, sha, leaves[..n], matches[..n], h - 1, hashIdx, flagIdx + 1);
      if n == |leaves| {
        NoMoreRoot(b, sha, hashIdx', flagIdx', d + 1);
      } else {
        HalvesDiffer(sha, leaves, n, h - 1);
        RootWalkDecodes(b, sha, leaves[n..], matches[n..], h - 1, hashIdx', flagIdx');
      }
      RootWalkInner(b, sha, hashIdx, flagIdx, d,
                    RootWalk(b, sha, hashIdx, flagIdx + 1, d + 1), RootWalk(b, sha, hashIdx', flagIdx', d + 1));
    }
  }

  lemma LeftIsDistinct(sha: Hasher, leaves: seq<Hash>, n: nat, h: nat)
    requires IsGood(sha) && DistinctHashes(leaves) && 0 < n <= |leaves| && n <= Pow2(h)
    ensures DistinctHashes(leaves[..n]) && Node(sha, leaves[..n], h) != 0
  {
    NodeIsNotZero(sha, leaves[..n], h);
  }

  lemma HalvesDiffer(sha: Hasher, leaves: seq<Hash>, half: nat, h: nat)
    requires IsGood(sha) && DistinctHashes(leaves) && half == Pow2(h) < |leaves| <= 2 * half
    ensures DistinctHashes(leaves[..half]) && DistinctHashes(leaves[half..])
    ensures Node(sha, leaves[..half], h) != Node(sha, leaves[half..], h)
    ensures Node(sha, leaves[..half], h) != 0 && Node(sha, leaves[half..], h) != 0
  {
    NodesDiffer(sha, leaves[..half], leaves[half..], h);
    NodeIsNotZero(sha, leaves[..half], h);
    NodeIsNotZero(sha, leaves[half..], h);
  }

  /** On every genuine partial tree, the walks find exactly the matched transactions, in order, and the true root. */
  lemma WalksDecode(b: MerkleBlock, sha: Hasher, leaves: seq<Hash>, matches: seq<bool>)
    requires IsGood(sha) && DistinctHashes(leaves) && Carries(b, sha, leaves, matches)
    ensures TxWalk(b, 0, 0, 0).result == Matched(leaves, matches)
    ensures RootWalk(b, sha, 0, 0, 0).result == MerkleRoot(sha, leaves)
  {
    hide ComesNext;
    hide IsGood;
    hide DistinctHashes;
    var h := Depth(|leaves|);
    TreeRoot(sha, leaves);
    TxWalkDecodes(b, sha, leaves, matches, h, 0, 0);
    RootWalkDecodes(b, sha, leaves, matches, h, 0, 0);
  }

  // ---------- partial trees as blocks ----------

  function ByteOf(bits: seq<bool>): nat {
    if bits == [] then 0 else (if bits[0] then 1 else 0) + 2 * ByteOf(bits[1..])
  }

  lemma {:induction false} ByteOfBound(bits: seq<bool>)
    ensures ByteOf(bits) < Pow2(|bits|)
  {
    if bits != [] {
      ByteOfBound(bits[1..]);
    }
  }

  lemma {:induction false} BitOfByte(bits: seq<bool>, i: nat)
    requires i < |bits|
    ensures And(ByteOf(bits), Pow2(i)) != 0 <==> bits[i]
  {
    AndStep(ByteOf(bits), Pow2(i));
    if i == 0 {
      AndZero(ByteOf(bits[1..]));
    } else {
      BitOfByte(bits[1..], i - 1);
    }
  }

  /** The flag bits in bytes, from the low bit up, the last byte padded with zeros. */
  function Pack(bits: seq<bool>): (flags: seq<byte>)
    ensures |flags| == (|bits| + 7) / 8
  {
    if bits == [] then []
    else
      var first := bits[..Min(8, |bits|)];
      ByteOfBound(first);
      Pow2Monotone(|first|, 8);
      Pow2Words();
      [ByteOf(first)] + Pack(bits[|first|..])
  }

  lemma {:induction false} PackedFlag(b: MerkleBlock, bits: seq<bool>, i: nat)
    requires i < |bits| && b.flags == Pack(bits)
    ensures FlagAt(b, i) == bits[i]
    decreases i
  {
    hide And;
    var first := bits[..Min(8, |bits|)];
    if i < 8 {
      BitOfByte(first, i);
    } else {
      var rest := b.(flags := Pack(bits[8..]));
      assert b.flags == [b.flags[0]] + rest.flags;
      PackedFlag(rest, bits[8..], i - 8);
      assert i / 8 == (i - 8) / 8 + 1 && i % 8 == (i - 8) % 8;
    }
  }

  /** Every choice of matches among any number of transactions has a block that carries it. */
  lemma EncodedBlock(sha: Hasher, leaves: seq<Hash>, matches: seq<bool>) returns (b: MerkleBlock)
    requires 0 < |leaves| == |matches|
    ensures Carries(b, sha, leaves, matches)
  {
    hide FlagAt;
    hide Encode;
    hide Pack;
    DepthIsLeast(|leaves|, Depth(|leaves|));
    var p := Encode(sha, leaves, matches, Depth(|leaves|));
    b := MerkleBlock(|leaves|, p.hashes, Pack(p.bits));
    assert b.hashes[0..0 + |p.hashes|] == p.hashes;
    forall i | 0 <= i < |p.bits|
      ensures FlagAt(b, 0 + i) == p.bits[i]
    {
      PackedFlag(b, p.bits, i);
    }
  }

  // ---------- the recursive functions of the source, with their shared cursors ----------

  class Cursor {
    var idx: nat
    var hashIdx: nat
    var flagIdx: nat

    constructor ()
      ensures idx == 0 && hashIdx == 0 && flagIdx == 0
    {
      idx, hashIdx, flagIdx := 0, 0, 0;
    }
  }

  /** The hashes that fit behind the first from: what txHashes holds after found has been delivered. */
  function Delivered(was: seq<Hash>, from: nat, found: seq<Hash>): (now: seq<Hash>)
    requires from <= |was|
    ensures |now| == |was|
  {
    var n := Min(|found|, |was| - from);
    was[..from] + found[..n] + was[from + n..]
  }

  /** idx has moved past as much of found as there was room for, and the array, if there is one, holds that much. */
  ghost predicate Delivers(txHashes: array?<Hash>, was: seq<Hash>, idx: nat, idx': nat, count: nat, found: seq<Hash>)
    reads if txHashes == null then {} else {txHashes}
  {
    && idx <= count && idx' == Min(idx + |found|, count)
    && (txHashes != null ==> |was| == count == txHashes.Length && txHashes[..] == Delivered(was, idx, found))
  }

  lemma DeliversOn(txHashes: array?<Hash>, was: seq<Hash>, mid: seq<Hash>, idx: nat, idx': nat, idx'': nat, count: nat,
      x: seq<Hash>, y: seq<Hash>)
    requires idx <= count && idx' == Min(idx + |x|, count)
    requires txHashes != null ==> |was| == count && mid == Delivered(was, idx, x)
    requires Delivers(txHashes, mid, idx', idx'', count, y)
    ensures Delivers(txHashes, was, idx, idx'', count, x + y)
  {
    if txHashes != null {
      DeliveredTwice(was, idx, x, y);
    }
  }

  lemma DeliveredTwice(was: seq<Hash>, from: nat, x: seq<Hash>, y: seq<Hash>)
    requires from <= |was|
    ensures Delivered(Delivered(was, from, x), Min(from + |x|, |was|), y) == Delivered(was, from, x + y)
  {
  }

  function Contents(a: array?<Hash>): seq<Hash>
    reads if a == null then {} else {a}
  {
    if a == null then [] else a[..]
  }

  lemma DeliversNothing(txHashes: array?<Hash>, idx: nat, count: nat)
    requires idx <= count && (txHashes != null ==> count == txHashes.Length)
    ensures Delivers(txHashes, Contents(txHashes), idx, idx, count, [])
  {
  }

  /** A matched leaf, if there is room for it. */
  method DeliverLeaf(txHashes: array?<Hash>, hashesCount: nat, c: Cursor, hash: Hash)
    requires c.idx <= hashesCount && (txHashes != null ==> hashesCount == txHashes.Length)
    modifies c`idx, if txHashes == null then {} else {txHashes}
    ensures Delivers(txHashes, old(Contents(txHashes)), old(c.idx), c.idx, hashesCount, [hash])
  {
    if c.idx < hashesCount {
      if txHashes != null {
        txHashes[c.idx] := hash;
      }
      c.idx := c.idx + 1;
    }
  }

  /** _BRMerkleBlockTxHashesR */
  method TxHashesR(b: MerkleBlock, txHashes: array?<Hash>, hashesCount: nat, c: Cursor, depth: nat)
    requires b.totalTx < 0x8000_0000 && depth <= Depth(b.totalTx)
    requires c.idx <= hashesCount && (txHashes != null ==> hashesCount == txHashes.Length)
    modifies c, if txHashes == null then {} else {txHashes}
    ensures var walk := old(TxWalk(b, c.hashIdx, c.flagIdx, depth));
            && c.hashIdx == walk.hashIdx && c.flagIdx == walk.flagIdx
            && Delivers(txHashes, old(Contents(txHashes)), old(c.idx), c.idx, hashesCount, walk.result)
    decreases Depth(b.totalTx) - depth, 0
  {
    hide FlagAt;
    hide Depth;
    hide Delivered;
    hide TxWalk;
    ghost var hashIdx, flagIdx := c.hashIdx, c.flagIdx;
    if c.flagIdx / 8 < |b.flags| && c.hashIdx < |b.hashes| {
      var flag := FlagAt(b, c.flagIdx);
      c.flagIdx := c.flagIdx + 1;
      var bottom := CeilLog2(b.totalTx);
      if !flag || depth == bottom {
        TxWalkStops(b, hashIdx, flagIdx, depth);
        if flag {
          DeliverLeaf(txHashes, hashesCount, c, b.hashes[c.hashIdx]);
        } else {
          DeliversNothing(txHashes, c.idx, hashesCount);
        }
        c.hashIdx := c.hashIdx + 1;
      } else {
        TxBranches(b, txHashes, hashesCount, c, depth + 1, hashIdx, flagIdx);
      }
    } else {
      NoMoreFlags(b, hashIdx, flagIdx, depth);
      DeliversNothing(txHashes, c.idx, hashesCount);
    }
  }

  lemma NoMoreFlags(b: MerkleBlock, hashIdx: nat, flagIdx: nat, depth: nat)
    requires depth <= Depth(b.totalTx) && !HasMore(b, hashIdx, flagIdx)
    ensures TxWalk(b, hashIdx, flagIdx, depth) == Walked([], hashIdx, flagIdx)
  {
  }

  /** The left branch and then the right branch. */
  method TxBranches(b: MerkleBlock, txHashes: array?<Hash>, hashesCount: nat, c: Cursor, depth: nat,
      ghost hashIdx: nat, ghost flagIdx: nat)
    requires b.totalTx < 0x8000_0000 && 0 < depth <= Depth(b.totalTx)
    requires c.idx <= hashesCount && (txHashes != null ==> hashesCount == txHashes.Length)
    requires HasMore(b, hashIdx, flagIdx) && FlagAt(b, flagIdx) && c.hashIdx == hashIdx && c.flagIdx == flagIdx + 1
    modifies c, if txHashes == null then {} else {txHashes}
    ensures var walk := TxWalk(b, hashIdx, flagIdx, depth - 1);
            && c.hashIdx == walk.hashIdx && c.flagIdx == walk.flagIdx
            && Delivers(txHashes, old(Contents(txHashes)), old(c.idx), c.idx, hashesCount, walk.result)
    decreases Depth(b.totalTx) - depth, 1
  {
    hide FlagAt;
    hide Depth;
    hide Delivered;
    hide TxWalk;
    ghost var was, idx := Contents(txHashes), c.idx;
    ghost var left := TxWalk(b, c.hashIdx, c.flagIdx, depth);
    TxHashesR(b, txHashes, hashesCount, c, depth);
    ghost var mid, idx' := Contents(txHashes), c.idx;
    assert idx' == Min(idx + |left.result|, hashesCount) && (txHashes != null ==> mid == Delivered(was, idx, left.result));
    ghost var right := TxWalk(b, c.hashIdx, c.flagIdx, depth);
    TxHashesR(b, txHashes, hashesCount, c, depth);
    TxWalkInner(b, hashIdx, flagIdx, depth - 1, left, right);
    DeliversOn(txHashes, was, mid, idx, idx', c.idx, hashesCount, left.result, right.result);
  }

  /** No walk finds more than the hashes it passes. */
  lemma {:induction false} FewFound(b: MerkleBlock, hashIdx: nat, flagIdx: nat, depth: nat)
    requires depth <= Depth(b.totalTx) && hashIdx <= |b.hashes|
    ensures var walk := TxWalk(b, hashIdx, flagIdx, depth);
            hashIdx + |walk.result| <= walk.hashIdx <= |b.hashes|
    decreases Depth(b.totalTx) - depth
  {
    hide FlagAt;
    hide Depth;
    if HasMore(b, hashIdx, flagIdx) && FlagAt(b, flagIdx) && depth != Depth(b.totalTx) {
      FewFound(b, hashIdx, flagIdx + 1, depth + 1);
      var left := TxWalk(b, hashIdx, flagIdx + 1, depth + 1);
      FewFound(b, left.hashIdx, left.flagIdx, depth + 1);
    }
  }

  /** BRMerkleBlockTxHashes: as many of the matched hashes as fit, or how many there are. */
  method TxHashes(b: MerkleBlock, txHashes: array?<Hash>) returns (count: nat)
    requires b.totalTx < 0x8000_0000 && |b.hashes| < SIZE_MAX
    modifies if txHashes == null then {} else {txHashes}
    ensures var found := TxWalk(b, 0, 0, 0).result;
            && count == (if txHashes == null then |found| else Min(|found|, txHashes.Length))
            && (txHashes != null ==> txHashes[..] == found[..count] + old(txHashes[..])[count..])
  {
    hide TxWalk;
    hide Depth;
    FewFound(b, 0, 0, 0);
    var c := new Cursor();
    TxHashesR(b, txHashes, if txHashes == null then SIZE_MAX else txHashes.Length, c, 0);
    count := c.idx;
  }

  /** _BRMerkleBlockRootR */
  method RootR(b: MerkleBlock, sha: Hasher, c: Cursor, depth: nat) returns (md: Hash)
    requires b.totalTx < 0x8000_0000 && depth <= Depth(b.totalTx)
    modifies c
    ensures Walked(md, c.hashIdx, c.flagIdx) == old(RootWalk(b, sha, c.hashIdx, c.flagIdx, depth))
    decreases Depth(b.totalTx) - depth
  {
    hide FlagAt;
    hide Depth;
    md := 0;
    if c.flagIdx / 8 < |b.flags| && c.hashIdx < |b.hashes| {
      var flag := FlagAt(b, c.flagIdx);
      c.flagIdx := c.flagIdx + 1;
      var bottom := CeilLog2(b.totalTx);
      if flag && depth != bottom {
        var left := RootR(b, sha, c, depth + 1);
        var right := RootR(b, sha, c, depth + 1);
        if left != 0 && left != right {
          if right == 0 {
            right := left;
          }
          md := sha(left, right);
        } else {
          c.hashIdx := SIZE_MAX;
        }
      } else {
        md := b.hashes[c.hashIdx];
        c.hashIdx := c.hashIdx + 1;
      }
    }
  }
}

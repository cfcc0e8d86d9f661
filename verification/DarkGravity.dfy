/** DarkGravityWaveTargetV3 of BRMerkleBlock.c */
module DarkGravity {
  import opened Blocks
  import opened Int256
  import opened Words
  import opened Wrappers

  const MAX_PROOF_OF_WORK: u32 := 0x1e00_ffff
  const DGW_TARGET_TIMESPAN: nat := 60
  const DGW_PAST_BLOCKS: nat := 180

  // ---------- signed 32-bit values ----------

  function ToI32(x: u32): i32 {
    if x < 0x8000_0000 then x else x - 0x1_0000_0000
  }

  function WrapI32(x: int): i32 {
    (x + 0x8000_0000) % 0x1_0000_0000 - 0x8000_0000
  }

  // ---------- what the retargeting is meant to compute ----------

  function Get(blocks: map<Hash, Block>, h: Hash): Option<Block> {
    if h in blocks then Some(blocks[h]) else None
  }

  /** The blocks from b back, newest first: at most n, and none at height zero. */
  function Window(blocks: map<Hash, Block>, b: Option<Block>, n: nat): (w: seq<Block>)
    ensures |w| <= n
    decreases n
  {
    if b.None? || b.value.height == 0 || n == 0 then []
    else [b.value] + Window(blocks, Get(blocks, b.value.prevBlock), n - 1)
  }

  function Target(b: Block): nat {
    Expanded(ToI32(b.target))
  }

  function SumOfTargets(w: seq<Block>): nat {
    if w == [] then 0 else SumOfTargets(w[..|w| - 1]) + Target(w[|w| - 1])
  }

  function Clamp(x: int, low: nat, high: nat): nat
    requires low <= high
  {
    if x < low then low else if x > high then high else x
  }

  /** The mean of the targets, with the newest one counted twice. */
  function Mean(w: seq<Block>): nat
    requires w != []
  {
    hide Target;
    hide SumOfTargets;
    (Target(w[0]) + SumOfTargets(w)) / (|w| + 1)
  }

  /** The time that n blocks took, kept between a third and three times the intended minute a block. */
  function Span(w: seq<Block>): nat
    requires w != []
  {
    Clamp(w[0].timestamp - w[|w| - 1].timestamp, 20 * |w|, 180 * |w|)
  }

  function Scaling(w: seq<Block>): nat
    requires w != []
  {
    hide Mean;
    hide Span;
    MulDiv(Mean(w), Span(w), 60 * |w|)
  }

  function MulDiv(a: nat, b: nat, d: nat): nat
    requires d > 0
  {
    a * b / d
  }

  function Retarget(w: seq<Block>): nat
    requires w != []
  {
    var compact := Compacted(Scaling(w));
    if compact > MAX_PROOF_OF_WORK then MAX_PROOF_OF_WORK else compact
  }

  /** Targets below 2^240, and times that are positive and within 2^31 seconds of the newest one. */
  ghost predicate Ordinary(w: seq<Block>) {
    forall i :: 0 <= i < |w| ==>
      && Target(w[i]) < Pow2(240) && w[i].timestamp > 0
      && -0x8000_0000 <= w[0].timestamp - w[i].timestamp < 0x8000_0000
  }

  // ---------- why no step of the 256-bit arithmetic wraps around ----------

  lemma {:induction false} SumBound(w: seq<Block>)
    requires Ordinary(w)
    ensures SumOfTargets(w) <= |w| * Pow2(240)
  {
    hide Pow2;
    hide Target;
    if w != [] {
      SumBound(w[..|w| - 1]);
      MoreTargets(|w| - 1, Pow2(240));
    }
  }

  lemma MoreTargets(n: nat, p: nat)
    ensures n * p + p == (n + 1) * p
  {
  }

  /** 256 numbers below 2^240 add up to less than 2^248. */
  lemma CountBound(n: nat, x: nat)
    requires n <= 0x100 && x <= n * Pow2(240)
    ensures x <= Pow2(248)
  {
    hide Pow2;
    Pow2Add(8, 240);
    BytePowers();
    assert n * Pow2(240) <= 0x100 * Pow2(240);
  }

  lemma MeanBound(sum: nat, n: nat, p: nat)
    requires sum <= (n + 1) * p
    ensures sum / (n + 1) <= p
  {
    QuotientOrder(sum, p + 1, n + 1);
    assert (p + 1) * (n + 1) == (n + 1) * p + n + 1;
  }

  /** The mean times the longest time a window can count for still has its top bit clear. */
  lemma ProductBound(mean: nat, span: nat)
    requires mean <= Pow2(240) && span < 0x8000
    ensures mean * span < Pow2(255)
  {
    hide Pow2;
    BytePowers();
    Pow2Add(8, 7);
    Pow2Add(240, 15);
    Pow2Seven();
    AtMostProduct(mean, Pow2(240), span, 0x7fff);
    AtMostProduct(Pow2(240), Pow2(240), 0x7fff, 0x8000);
  }

  lemma Pow2Seven()
    ensures Pow2(7) == 128
  {
  }

  lemma Pow2Below(k: nat)
    ensures Pow2(k) < Pow2(k + 1)
  {
  }

  lemma AtMostProduct(a: nat, b: nat, x: nat, y: nat)
    requires a <= b && x <= y
    ensures a * x <= b * y
  {
    assert a * x <= b * x;
  }

  lemma QuotientAtMost(x: nat, d: nat)
    requires d > 0
    ensures x / d <= x
  {
    var q := x / d;
    assert x == d * q + x % d;
    AtMostProduct(1, d, q, q);
  }

  lemma MeanFits(w: seq<Block>)
    requires w != [] && |w| <= DGW_PAST_BLOCKS && Ordinary(w)
    ensures Target(w[0]) + SumOfTargets(w) <= Pow2(248)
    ensures Mean(w) <= Pow2(240)
  {
    hide Pow2;
    hide Target;
    SumBound(w);
    MoreTargets(|w|, Pow2(240));
    CountBound(|w| + 1, Target(w[0]) + SumOfTargets(w));
    MeanBound(Target(w[0]) + SumOfTargets(w), |w|, Pow2(240));
  }

  lemma ThirdToTriple(m: nat, s: nat, n: nat)
    requires n > 0 && 20 * n <= s <= 180 * n
    ensures m / 3 <= MulDiv(m, s, 60 * n) <= 3 * m
  {
    var d, q := 60 * n, m / 3;
    AtMostProduct(m, m, s, 180 * n);
    assert m * (180 * n) == (3 * m) * d;
    QuotientOrder(m * s, 3 * m + 1, d);
    assert (3 * m + 1) * d == (3 * m) * d + d;
    AtMostProduct(3 * q, m, 20 * n, s);
    assert (3 * q) * (20 * n) == q * d;
    QuotientOrder(m * s, q, d);
  }

  /** One retargeting changes the mean target at most threefold, whatever the timestamps. */
  lemma ScalingIsLimited(w: seq<Block>)
    requires w != []
    ensures Mean(w) / 3 <= Scaling(w) <= 3 * Mean(w)
  {
    hide Mean;
    hide MulDiv;
    ThirdToTriple(Mean(w), Span(w), |w|);
  }

  // ---------- the rule in plain numbers ----------

  /** The window starts with b and goes on with parents, until the 181st block, a missing one, or one at height zero. */
  lemma {:induction false} WindowIs(blocks: map<Hash, Block>, b: Block, n: nat)
    requires b.height > 0 && n > 0
    ensures var w := Window(blocks, Some(b), n);
            && 0 < |w| <= n && w[0] == b && (forall i :: 0 <= i < |w| ==> w[i].height > 0)
            && (forall i :: 0 <= i < |w| - 1 ==> w[i].prevBlock in blocks && w[i + 1] == blocks[w[i].prevBlock])
            && (|w| < n && w[|w| - 1].prevBlock in blocks ==> blocks[w[|w| - 1].prevBlock].height == 0)
    decreases n
  {
    if n > 1 && b.prevBlock in blocks && blocks[b.prevBlock].height > 0 {
      WindowIs(blocks, blocks[b.prevBlock], n - 1);
    } else {
      assert Window(blocks, Get(blocks, b.prevBlock), n - 1) == [];
    }
  }

  /** The mean is that of all targets and once more the newest, rounded down. */
  lemma MeanIs(w: seq<Block>)
    requires w != []
    ensures Mean(w) * (|w| + 1) <= Target(w[0]) + SumOfTargets(w) < (Mean(w) + 1) * (|w| + 1)
  {
    hide Target;
    hide SumOfTargets;
    var sum, m := Target(w[0]) + SumOfTargets(w), Mean(w);
    QuotientOrder(sum, m, |w| + 1);
    QuotientOrder(sum, m + 1, |w| + 1);
  }

  lemma MulDivIs(a: nat, b: nat, d: nat)
    requires d > 0
    ensures MulDiv(a, b, d) * d <= a * b < (MulDiv(a, b, d) + 1) * d
  {
    QuotientOrder(a * b, a * b / d, d);
    QuotientOrder(a * b, a * b / d + 1, d);
  }

  /** If all targets are the same, so is the mean. */
  lemma MeanOfSame(w: seq<Block>, t: nat)
    requires w != [] && forall b :: b in w ==> Target(b) == t
    ensures Mean(w) == t
  {
    hide Target;
    SumOfSame(w, t);
    var n := |w|;
    assert w[0] in w;
    assert t + n * t == (n + 1) * t;
    QuotientUnique((n + 1) * t, n + 1, t, 0);
  }

  lemma {:induction false} SumOfSame(w: seq<Block>, t: nat)
    requires forall b :: b in w ==> Target(b) == t
    ensures SumOfTargets(w) == |w| * t
  {
    hide Target;
    if w != [] {
      SumOfSame(w[..|w| - 1], t);
      MoreTargets(|w| - 1, t);
      assert w[|w| - 1] in w;
    }
  }

  /**
   * The next target is the mean target, times the minutes that each block took. What is longer than three minutes a block
   * counts as three minutes, and what is shorter than twenty seconds as twenty seconds.
   */
  lemma RetargetIs(w: seq<Block>)
    requires w != []
    ensures var n, span := |w|, w[0].timestamp - w[|w| - 1].timestamp;
            var scaled := if span >= 180 * n then 3 * Mean(w) else if span <= 20 * n then Mean(w) / 3 else MulDiv(Mean(w), span, 60 * n);
            Retarget(w) == if Compacted(scaled) > 0x1e00_ffff then 0x1e00_ffff else Compacted(scaled)
  {
    hide Mean;
    hide Compacted;
    var n, mean := |w|, Mean(w);
    assert mean * (180 * n) == (60 * n) * (3 * mean);
    QuotientUnique(mean * (180 * n), 60 * n, 3 * mean, 0);
    ThirdIs(mean, n);
  }

  lemma ThirdIs(m: nat, n: nat)
    requires n > 0
    ensures MulDiv(m, 20 * n, 60 * n) == m / 3
  {
    var q, r := m / 3, m % 3;
    assert m * (20 * n) == (60 * n) * q + r * (20 * n);
    assert r * (20 * n) < 60 * n by {
      AtMostProduct(r, 2, 20 * n, 20 * n);
    }
    QuotientUnique(m * (20 * n), 60 * n, q, r * (20 * n));
  }

  /** Of two windows with the same targets, the one that took longer never gets the smaller target. */
  lemma SlowerIsEasier(w: seq<Block>, w': seq<Block>)
    requires |w| == |w'| > 0 && forall i :: 0 <= i < |w| ==> w[i].target == w'[i].target
    requires w[0].timestamp - w[|w| - 1].timestamp <= w'[0].timestamp - w'[|w| - 1].timestamp
    ensures Retarget(w) <= Retarget(w')
  {
    hide Target;
    hide SumOfTargets;
    hide Compacted;
    hide Mean;
    hide MulDiv;
    hide Retarget;
    SameMean(w, w');
    LongerScalesMore(Mean(w), Span(w), Span(w'), 60 * |w|);
    CompactedMonotone(Scaling(w), Scaling(w'));
    RetargetOrder(w, w');
  }

  lemma RetargetOrder(w: seq<Block>, w': seq<Block>)
    requires w != [] && w' != [] && Compacted(Scaling(w)) <= Compacted(Scaling(w'))
    ensures Retarget(w) <= Retarget(w')
  {
    hide Scaling;
    hide Compacted;
  }

  lemma LongerScalesMore(m: nat, s: nat, s': nat, d: nat)
    requires s <= s' && d > 0
    ensures MulDiv(m, s, d) <= MulDiv(m, s', d)
  {
    AtMostProduct(m, m, s, s');
    QuotientOrder(m * s', m * s / d, d);
    QuotientOrder(m * s, m * s / d, d);
  }

  lemma SameMean(w: seq<Block>, w': seq<Block>)
    requires |w| == |w'| > 0 && forall i :: 0 <= i < |w| ==> w[i].target == w'[i].target
    ensures Mean(w) == Mean(w')
  {
    SameSum(w, w');
  }

  lemma {:induction false} SameSum(w: seq<Block>, w': seq<Block>)
    requires |w| == |w'| && forall i :: 0 <= i < |w| ==> w[i].target == w'[i].target
    ensures SumOfTargets(w) == SumOfTargets(w')
  {
    if w != [] {
      SameSum(w[..|w| - 1], w'[..|w| - 1]);
    }
  }

  /** 180 blocks of target 0x1a00ffff that took 200 seconds each make it three times as easy: 0x1a02fffd. */
  lemma SlowWindow(w: seq<Block>)
    requires |w| == 180 && (forall b :: b in w ==> b.target == 0x1a00_ffff) && w[0].timestamp - w[179].timestamp == 179 * 200
    ensures Retarget(w) == 0x1a02_fffd
  {
    hide Pow2;
    hide Expanded;
    hide Compacted;
    hide Mean;
    hide SumOfTargets;
    hide Retarget;
    var p := Pow2(8 * (26 - 3));
    CompactForm(26, 0xffff, 0);
    CompactForm(26, 0x2_fffd, 0);
    MeanOfSame(w, 0xffff * p);
    RetargetIs(w);
    assert 3 * (0xffff * p) == 0x2_fffd * p;
  }

  // ---------- the loop over the past blocks ----------

  /** After i blocks: the sum of their targets, the time they took, and the time of the last one. */
  ghost predicate Averaging(w: seq<Block>, i: nat, sum: nat, span: int, last: int) {
    && i <= |w|
    && last == (if i == 0 then 0 else w[i - 1].timestamp)
    && (Ordinary(w) ==>
          && sum == (if i == 0 then 0 else Target(w[0]) + SumOfTargets(w[..i]))
          && span == if i == 0 then 0 else w[0].timestamp - w[i - 1].timestamp)
  }

  lemma OrdinaryPrefix(w: seq<Block>, i: nat)
    requires i <= |w| && Ordinary(w)
    ensures Ordinary(w[..i])
  {
    hide Pow2;
    hide Target;
  }

  lemma PartialSumFits(w: seq<Block>, i: nat)
    requires i < |w| <= DGW_PAST_BLOCKS && Ordinary(w)
    ensures SumOfTargets(w[..i + 1]) == SumOfTargets(w[..i]) + Target(w[i])
    ensures Target(w[0]) + SumOfTargets(w[..i + 1]) < Pow2(256)
  {
    hide Pow2;
    hide Target;
    OrdinaryPrefix(w, i + 1);
    MeanFits(w[..i + 1]);
    assert w[..i + 1][..i] == w[..i];
    Pow2Monotone(248, 255);
    Pow2Below(255);
  }

  lemma NoTargets()
    ensures SumOfTargets([]) == 0
  {
  }

  method AddTarget(b: Block, ghost w: seq<Block>, blockCount: nat, ghost i: nat, sumTargets: UInt256,
    ghost span: int, ghost last: int)
    returns (sum: UInt256)
    requires blockCount == i + 1 && i < |w| <= DGW_PAST_BLOCKS && b == w[i] && Averaging(w, i, Value(sumTargets), span, last)
    ensures Ordinary(w) ==> Value(sum) == Target(w[0]) + SumOfTargets(w[..i + 1])
  {
    hide Pow2;
    hide Value;
    hide Expanded;
    hide SumOfTargets;
    hide Wrap;
    var currentTarget := SetCompact(ToI32(b.target));
    if blockCount == 1 {
      sum := Add(currentTarget, currentTarget);
    } else {
      sum := Add(sumTargets, currentTarget);
    }
    if Ordinary(w) {
      PartialSumFits(w, i);
      NoTargets();
      WrapSmall(Target(w[0]) + SumOfTargets(w[..i + 1]));
    }
  }

  lemma SmallI32(x: int)
    requires -0x8000_0000 <= x < 0x8000_0000
    ensures WrapI32(x) == x
  {
  }

  method AddTime(b: Block, ghost w: seq<Block>, ghost i: nat, ghost sum: nat, nActualTimespan: i32, lastBlockTime: int)
    returns (span: i32)
    requires i < |w| && b == w[i] && Averaging(w, i, sum, nActualTimespan, lastBlockTime)
    ensures Ordinary(w) ==> span == w[0].timestamp - w[i].timestamp
  {
    hide Pow2;
    hide Target;
    hide SumOfTargets;
    hide WrapI32;
    span := nActualTimespan;
    if lastBlockTime > 0 {
      span := WrapI32(nActualTimespan + (lastBlockTime - b.timestamp));
    }
    if Ordinary(w) {
      SmallI32(w[0].timestamp - w[i].timestamp);
    }
  }

  /** The loop stands at block i of the window. */
  ghost predicate StandsAt(blocks: map<Hash, Block>, w: seq<Block>, i: nat, current: Option<Block>) {
    i <= |w| && i <= DGW_PAST_BLOCKS && Window(blocks, current, DGW_PAST_BLOCKS - i) == w[i..]
  }

  lemma StandingOn(blocks: map<Hash, Block>, w: seq<Block>, i: nat, current: Option<Block>)
    requires StandsAt(blocks, w, i, current)
    ensures current.Some? && current.value.height > 0 && i < DGW_PAST_BLOCKS <==> i < |w|
    ensures i < |w| ==> w[i] == current.value && StandsAt(blocks, w, i + 1, Get(blocks, current.value.prevBlock))
  {
    if i < |w| {
      assert w[i] == w[i..][0] && w[i + 1..] == w[i..][1..];
    }
  }

  /** What one past block adds. */
  method Accumulate(b: Block, ghost w: seq<Block>, blockCount: nat, ghost i: nat, sumTargets: UInt256,
    nActualTimespan: i32, lastBlockTime: int) returns (sum: UInt256, span: i32)
    requires blockCount == i + 1 && i < |w| <= DGW_PAST_BLOCKS && b == w[i]
    requires Averaging(w, i, Value(sumTargets), nActualTimespan, lastBlockTime)
    ensures Averaging(w, i + 1, Value(sum), span, b.timestamp)
  {
    hide Value;
    hide Target;
    hide SumOfTargets;
    hide Averaging;
    hide Ordinary;
    sum := AddTarget(b, w, blockCount, i, sumTargets, nActualTimespan, lastBlockTime);
    span := AddTime(b, w, i, Value(sumTargets), nActualTimespan, lastBlockTime);
    AveragingOn(w, i + 1, Value(sum), span, b.timestamp);
  }

  /** The loop over the past blocks: the sum of their targets, their number plus one, and the time they took. */
  method Gather(blocks: map<Hash, Block>, previousBlock: Block)
    returns (sumTargets: UInt256, nActualTimespan: i32, blockCount: nat)
    requires previousBlock.height > 0
    ensures var w := Window(blocks, Some(previousBlock), DGW_PAST_BLOCKS);
            && w != [] && blockCount == |w| + 1
            && (Ordinary(w) ==>
                  && Value(sumTargets) == Target(w[0]) + SumOfTargets(w)
                  && nActualTimespan == w[0].timestamp - w[|w| - 1].timestamp)
  {
    hide Value;
    hide Target;
    hide SumOfTargets;
    hide Averaging;
    hide Ordinary;
    hide StandsAt;
    hide Window;
    hide Get;
    ghost var w := Window(blocks, Some(previousBlock), DGW_PAST_BLOCKS);
    nActualTimespan, sumTargets := 0, OfWord(0);
    var lastBlockTime := 0;
    var currentBlock := Some(previousBlock);
    blockCount := 1;
    ghost var i := 0;
    ValueOfWord(0);
    AveragingStarts(w);
    StandsAtFirst(blocks, w, currentBlock);
    StandingOn(blocks, w, 0, currentBlock);
    while currentBlock.Some? && currentBlock.value.height > 0 && blockCount <= DGW_PAST_BLOCKS
      invariant i <= |w| && i <= DGW_PAST_BLOCKS && blockCount == i + 1
      invariant StandsAt(blocks, w, i, currentBlock)
      invariant Averaging(w, i, Value(sumTargets), nActualTimespan, lastBlockTime)
      decreases DGW_PAST_BLOCKS + 1 - blockCount
    {
      StandingOn(blocks, w, i, currentBlock);
      var b := currentBlock.value;
      sumTargets, nActualTimespan := Accumulate(b, w, blockCount, i, sumTargets, nActualTimespan, lastBlockTime);
      lastBlockTime := b.timestamp;
      currentBlock := Get(blocks, b.prevBlock);
      blockCount, i := blockCount + 1, i + 1;
    }
    StandingOn(blocks, w, i, currentBlock);
    AveragingEnds(w, Value(sumTargets), nActualTimespan, lastBlockTime);
  }

  lemma StandsAtFirst(blocks: map<Hash, Block>, w: seq<Block>, current: Option<Block>)
    requires w == Window(blocks, current, DGW_PAST_BLOCKS)
    ensures StandsAt(blocks, w, 0, current)
  {
    hide Window;
    assert w[0..] == w;
  }

  lemma AveragingStarts(w: seq<Block>)
    ensures Averaging(w, 0, 0, 0, 0)
  {
  }

  lemma AveragingOn(w: seq<Block>, i: nat, sum: nat, span: int, last: int)
    requires 0 < i <= |w| && last == w[i - 1].timestamp
    requires Ordinary(w) ==> sum == Target(w[0]) + SumOfTargets(w[..i]) && span == w[0].timestamp - last
    ensures Averaging(w, i, sum, span, last)
  {
  }

  lemma AveragingEnds(w: seq<Block>, sum: nat, span: int, last: int)
    requires w != [] && Averaging(w, |w|, sum, span, last)
    ensures Ordinary(w) ==> sum == Target(w[0]) + SumOfTargets(w) && span == w[0].timestamp - w[|w| - 1].timestamp
  {
    assert w[..|w|] == w;
  }

  // ---------- the new target ----------

  lemma WordBelow255(x: nat)
    requires x < W32
    ensures x < Pow2(255)
  {
    hide Pow2;
    Pow2Words();
    Pow2Monotone(32, 255);
  }

  /**
   * DarkGravityWaveTargetV3: for ordinary blocks, exactly the target of the rule, however many of the last 180 blocks
   * are at hand; the minimal work before the rule starts; never less than the minimal work.
   */
  method DarkGravityWaveTarget(previous: Hash, blocks: map<Hash, Block>) returns (target: u32)
    ensures previous !in blocks || blocks[previous].height < 338778 ==> target == 0x1e00_ffff
    ensures previous in blocks && blocks[previous].height >= 338778 ==>
              var w := Window(blocks, Some(blocks[previous]), 180);
              && w != []
              && (Ordinary(w) ==>
                    var n, span := |w|, w[0].timestamp - w[|w| - 1].timestamp;
                    var scaled := if span >= 180 * n then 3 * Mean(w) else if span <= 20 * n then Mean(w) / 3
                                  else MulDiv(Mean(w), span, 60 * n);
                    target == if Compacted(scaled) > 0x1e00_ffff then 0x1e00_ffff else Compacted(scaled))
    ensures target <= MAX_PROOF_OF_WORK
  {
    hide Pow2;
    hide Value;
    hide Expanded;
    hide Compacted;
    hide Window;
    hide Mean;
    hide MulDiv;
    hide Ordinary;
    var found := Get(blocks, previous);
    if found.None? || found.value.height == 0 || found.value.height < DGW_START_BLOCK {
      return MAX_PROOF_OF_WORK;
    }
    ghost var w := Window(blocks, found, DGW_PAST_BLOCKS);
    var sumTargets, nActualTimespan, blockCount := Gather(blocks, found.value);
    var darkTarget := MeanTarget(sumTargets, blockCount, w);
    var nTargetTimespan: i32 := (blockCount - 1) * DGW_TARGET_TIMESPAN;
    if nActualTimespan < nTargetTimespan / 3 {
      nActualTimespan := nTargetTimespan / 3;
    }
    if nActualTimespan > nTargetTimespan * 3 {
      nActualTimespan := nTargetTimespan * 3;
    }
    darkTarget := ScaledTarget(darkTarget, nActualTimespan, nTargetTimespan, w);
    var compact := GetCompact(darkTarget);
    if compact > MAX_PROOF_OF_WORK {
      compact := MAX_PROOF_OF_WORK;
    }
    RetargetIs(w);
    return compact;
  }

  method MeanTarget(sumTargets: UInt256, blockCount: u32, ghost w: seq<Block>) returns (mean: UInt256)
    requires w != [] && blockCount == |w| + 1 <= DGW_PAST_BLOCKS + 1
    requires Ordinary(w) ==> Value(sumTargets) == Target(w[0]) + SumOfTargets(w)
    ensures Ordinary(w) ==> Value(mean) == Mean(w)
  {
    hide Pow2;
    hide Value;
    hide Expanded;
    hide Ordinary;
    ValueOfWord(blockCount);
    WordBelow255(blockCount);
    mean := Divide(sumTargets, OfWord(blockCount));
    if Ordinary(w) {
      MeanFits(w);
      Pow2Below(248);
      Pow2Monotone(249, 255);
    }
  }

  method ScaledTarget(mean: UInt256, span: u32, time: u32, ghost w: seq<Block>) returns (target: UInt256)
    requires w != [] && |w| <= DGW_PAST_BLOCKS && time == 60 * |w| && span <= 180 * |w|
    requires Ordinary(w) ==> Value(mean) == Mean(w) && span == Span(w)
    ensures Ordinary(w) ==> Value(target) == Scaling(w) < Pow2(255)
  {
    hide Pow2;
    hide Value;
    hide Mean;
    hide Wrap;
    hide Ordinary;
    ValueOfWord(time);
    WordBelow255(time);
    var product := MultiplyThis32(mean, span);
    target := Divide(product, OfWord(time));
    if Ordinary(w) {
      MeanFits(w);
      ProductBound(Mean(w), span);
      Pow2Monotone(255, 256);
      WrapSmall(Mean(w) * span);
      QuotientAtMost(Mean(w) * span, time);
    }
  }
}

/** _peerRelayedBlock of BRPeerManager.c: the chain of blocks, and the wallet that follows it. */
module Chains {
  import opened Blocks
  import Ledgers
  import opened WalletData
  import opened WalletOrder
  import opened Wallets
  import opened Words
  import opened Wrappers

  // ---------- the tree of all blocks ----------

  /** What the hash of a block stands for: the block before it, its height, and its transactions. */
  datatype Tree = Tree(parent: Hash -> Hash, heightOf: Hash -> nat, contents: Hash -> set<Hash>)

  /** The hash that is all zero bits, which no block has. */
  const NO_BLOCK: Hash := 0

  /** All branches grow from one first block. */
  ghost predicate IsTree(t: Tree) {
    && (forall h :: if t.heightOf(h) > 0 then t.heightOf(h) == t.heightOf(t.parent(h)) + 1 else t.parent(h) == NO_BLOCK)
    && (forall h, h' :: t.heightOf(h) == 0 == t.heightOf(h') ==> h == h')
  }

  /** The block at height k on the branch that ends with h. */
  ghost function Ancestor(t: Tree, h: Hash, k: nat): (a: Hash)
    requires IsTree(t) && k <= t.heightOf(h)
    ensures t.heightOf(a) == k
    decreases t.heightOf(h)
  {
    if t.heightOf(h) == k then h else Ancestor(t, t.parent(h), k)
  }

  lemma {:induction false} AncestorOfAncestor(t: Tree, h: Hash, j: nat, k: nat)
    requires IsTree(t) && k <= j <= t.heightOf(h)
    ensures Ancestor(t, Ancestor(t, h, j), k) == Ancestor(t, h, k)
    decreases t.heightOf(h)
  {
    if t.heightOf(h) > j {
      AncestorOfAncestor(t, t.parent(h), j, k);
    }
  }

  /** A relayed block names the parent that its hash commits to, and transactions that are in it. */
  ghost predicate Genuine(t: Tree, b: Block) {
    && b.hash != NO_BLOCK && b.prevBlock == t.parent(b.hash) && t.heightOf(b.hash) < TX_UNCONFIRMED
    && forall x :: x in b.txHashes ==> x in t.contents(b.hash)
  }

  ghost predicate Placed(t: Tree, b: Block) {
    Genuine(t, b) && b.height == t.heightOf(b.hash)
  }

  ghost predicate AllPlaced(t: Tree, blocks: map<Hash, Block>) {
    forall h :: h in blocks ==> blocks[h].hash == h && Placed(t, blocks[h])
  }

  ghost predicate AllWaiting(t: Tree, orphans: map<Hash, Block>) {
    forall p :: p in orphans ==> orphans[p].prevBlock == p && Genuine(t, orphans[p])
  }

  /** Every confirmed transaction of the list is in the block at its height on the branch that ends with tip. */
  ghost predicate Follows(t: Tree, tip: Hash, all: map<Hash, Tx>, list: seq<Hash>)
    requires IsTree(t)
  {
    forall x :: x in list && x in all && all[x].blockHeight != TX_UNCONFIRMED ==>
      all[x].blockHeight <= t.heightOf(tip) && x in t.contents(Ancestor(t, tip, all[x].blockHeight))
  }

  lemma FollowsFurther(t: Tree, tip: Hash, tip': Hash, all: map<Hash, Tx>, list: seq<Hash>)
    requires IsTree(t) && Follows(t, tip, all, list)
    requires t.heightOf(tip) <= t.heightOf(tip') && Ancestor(t, tip', t.heightOf(tip)) == tip
    ensures Follows(t, tip', all, list)
  {
    hide Ancestor;
    forall x | x in list && x in all && all[x].blockHeight != TX_UNCONFIRMED
      ensures x in t.contents(Ancestor(t, tip', all[x].blockHeight))
    {
      AncestorOfAncestor(t, tip', t.heightOf(tip), all[x].blockHeight);
    }
  }

  /** Transactions of a block on the branch get its height. */
  lemma FollowsUpdate(t: Tree, tip: Hash, b: Block, was: map<Hash, Tx>, now: map<Hash, Tx>, list: seq<Hash>, list': seq<Hash>,
      height: u32, timestamp: u32)
    requires IsTree(t) && Follows(t, tip, was, list) && Genuine(t, b)
    requires height == t.heightOf(b.hash) <= t.heightOf(tip) && Ancestor(t, tip, height) == b.hash
    requires forall x :: x in list' ==> x in list && x in was && x in now && now[x] == TimedIf(was, x, b.txHashes, height, timestamp)
    ensures Follows(t, tip, now, list')
  {
    hide Ancestor;
  }

  /** With everything above a common ancestor unconfirmed, the list follows the other branch as well. */
  lemma FollowsOther(t: Tree, tip: Hash, tip': Hash, k: nat, was: map<Hash, Tx>, now: map<Hash, Tx>, list: seq<Hash>)
    requires IsTree(t) && Follows(t, tip, was, list) && k <= t.heightOf(tip) && k <= t.heightOf(tip')
    requires Ancestor(t, tip, k) == Ancestor(t, tip', k)
    requires k < W32 && UnconfirmedAfter(was, now, list, k)
    ensures Follows(t, tip', now, list)
  {
    hide Ancestor;
    forall x | x in list && x in now && now[x].blockHeight != TX_UNCONFIRMED
      ensures now[x].blockHeight <= t.heightOf(tip') && x in t.contents(Ancestor(t, tip', now[x].blockHeight))
    {
      assert now[x] == was[x] && was[x].blockHeight <= k;
      AncestorOfAncestor(t, tip, k, now[x].blockHeight);
      AncestorOfAncestor(t, tip', k, now[x].blockHeight);
    }
  }

  // ---------- the join of two branches ----------

  function Get(blocks: map<Hash, Block>, h: Hash): Option<Block> {
    if h in blocks then Some(blocks[h]) else None
  }

  ghost predicate Common(t: Tree, a: Hash, b: Hash, k: nat)
    requires IsTree(t)
  {
    k <= t.heightOf(a) && k <= t.heightOf(b) && Ancestor(t, a, k) == Ancestor(t, b, k)
  }

  /** The branch that ends with h is stored down to height k. */
  ghost predicate StoredDownTo(t: Tree, blocks: map<Hash, Block>, h: Hash, k: nat)
    requires IsTree(t)
  {
    forall j :: k <= j <= t.heightOf(h) ==> Ancestor(t, h, j) in blocks
  }

  ghost predicate ForkStored(t: Tree, blocks: map<Hash, Block>, a: Hash, b: Hash, k: nat)
    requires IsTree(t)
  {
    Common(t, a, b, k) && StoredDownTo(t, blocks, a, k) && StoredDownTo(t, blocks, b, k)
  }

  ghost predicate AnyForkStored(t: Tree, blocks: map<Hash, Block>, a: Hash, b: Hash)
    requires IsTree(t)
  {
    exists k :: ForkStored(t, blocks, a, b, k)
  }

  /** The walk is on both branches, with the first block never below the second, and they do not meet further up. */
  ghost predicate Walking(t: Tree, tip: Hash, tip2: Hash, b: Block, b2: Block)
    requires IsTree(t)
  {
    && t.heightOf(b2.hash) <= t.heightOf(b.hash) <= t.heightOf(tip) && t.heightOf(b2.hash) <= t.heightOf(tip2)
    && Ancestor(t, tip, t.heightOf(b.hash)) == b.hash && Ancestor(t, tip2, t.heightOf(b2.hash)) == b2.hash
    && (t.heightOf(b.hash) > t.heightOf(b2.hash) ==> b2.hash == tip2)
    && forall k :: t.heightOf(b2.hash) < k ==> !Common(t, tip, tip2, k)
  }

  lemma AncestorStep(t: Tree, tip: Hash, h: Hash)
    requires IsTree(t) && t.heightOf(h) <= t.heightOf(tip) && Ancestor(t, tip, t.heightOf(h)) == h && t.heightOf(h) > 0
    ensures t.heightOf(t.parent(h)) == t.heightOf(h) - 1 && Ancestor(t, tip, t.heightOf(h) - 1) == t.parent(h)
  {
    AncestorOfAncestor(t, tip, t.heightOf(h), t.heightOf(h) - 1);
    ParentIsAncestor(t, h);
  }

  lemma ParentIsAncestor(t: Tree, h: Hash)
    requires IsTree(t) && t.heightOf(h) > 0
    ensures Ancestor(t, h, t.heightOf(h) - 1) == t.parent(h)
  {
  }

  /** One step of the walk. */
  lemma WalkOn(t: Tree, tip: Hash, tip2: Hash, b: Block, b2: Block, c: Block, c2: Block)
    requires IsTree(t) && Walking(t, tip, tip2, b, b2) && b.hash != b2.hash && t.heightOf(b.hash) > 0
    requires c.hash == t.parent(b.hash)
    requires c2.hash == if t.heightOf(c.hash) < t.heightOf(b2.hash) then t.parent(b2.hash) else b2.hash
    ensures Walking(t, tip, tip2, c, c2) && t.heightOf(c.hash) == t.heightOf(b.hash) - 1
  {
    hide Ancestor;
    AncestorStep(t, tip, b.hash);
    if t.heightOf(c.hash) < t.heightOf(b2.hash) {
      AncestorStep(t, tip2, b2.hash);
      assert !Common(t, tip, tip2, t.heightOf(b.hash));
    }
  }

  /** While the walk has not met, a stored fork point is still below it, and so the next blocks are stored. */
  lemma ForkBelow(t: Tree, blocks: map<Hash, Block>, tip: Hash, tip2: Hash, b: Block, b2: Block, k: nat)
    requires IsTree(t) && Walking(t, tip, tip2, b, b2) && ForkStored(t, blocks, tip, tip2, k)
    ensures k <= t.heightOf(b2.hash)
    ensures b.hash != b2.hash ==> k < t.heightOf(b.hash) && t.parent(b.hash) in blocks
    ensures b.hash != b2.hash && t.heightOf(b.hash) == t.heightOf(b2.hash) ==> t.parent(b2.hash) in blocks
  {
    hide Ancestor;
    if b.hash != b2.hash {
      assert t.heightOf(b.hash) == k ==> t.heightOf(b2.hash) == k;
      AncestorStep(t, tip, b.hash);
      if t.heightOf(b.hash) == t.heightOf(b2.hash) {
        AncestorStep(t, tip2, b2.hash);
      }
    }
  }

  // ---------- old blocks ----------

  const BLOCK_DIFFICULTY_INTERVAL: u32 := 2016
  const DGW_BLOCK_DIFFICULTY_INTERVAL: u32 := 1

  /** How many blocks there are from one difficulty transition to the next. */
  function Interval(height: nat): u32 {
    if height < DGW_START_BLOCK then BLOCK_DIFFICULTY_INTERVAL else DGW_BLOCK_DIFFICULTY_INTERVAL
  }

  /** The ancestors of h are stored down to height k. */
  ghost predicate StoredBelow(t: Tree, blocks: map<Hash, Block>, h: Hash, k: nat)
    requires IsTree(t)
  {
    forall j: nat :: k <= j < t.heightOf(h) ==> Ancestor(t, h, j) in blocks
  }

  /** At a difficulty transition, the blocks back to the previous one are stored. */
  ghost predicate HasTransition(t: Tree, blocks: map<Hash, Block>, h: Hash)
    requires IsTree(t)
  {
    var height, interval := t.heightOf(h), Interval(t.heightOf(h));
    height % interval == 0 ==> height >= interval && StoredBelow(t, blocks, h, height - interval)
  }

  /** The stored ancestors of h in the given range of heights that are not at a transition. */
  ghost function BetweenTransitions(t: Tree, blocks: map<Hash, Block>, h: Hash, low: nat, high: nat): set<Hash>
    requires IsTree(t) && high <= t.heightOf(h)
  {
    set a | a in blocks && low <= t.heightOf(a) < high && t.heightOf(a) % Interval(t.heightOf(h)) != 0 && Ancestor(t, h, t.heightOf(a)) == a
  }

  /** The ancestors before the previous transition that can be reached, except for those at a transition. */
  ghost function ToPrune(t: Tree, blocks: map<Hash, Block>, h: Hash): set<Hash>
    requires IsTree(t)
  {
    set a | a in blocks && t.heightOf(a) + Interval(t.heightOf(h)) < t.heightOf(h) && t.heightOf(a) % Interval(t.heightOf(h)) != 0
            && Ancestor(t, h, t.heightOf(a)) == a && StoredBelow(t, blocks, h, t.heightOf(a))
  }

  /** The stored blocks after h has been verified. */
  ghost function Pruned(t: Tree, blocks: map<Hash, Block>, h: Hash): map<Hash, Block>
    requires IsTree(t)
  {
    if t.heightOf(h) % Interval(t.heightOf(h)) == 0 && HasTransition(t, blocks, h) then blocks - ToPrune(t, blocks, h) else blocks
  }

  /** What can be pruned at all: blocks between two transitions, more than an interval below the last transition. */
  ghost predicate IsPrunable(t: Tree, h: Hash) {
    t.heightOf(h) % BLOCK_DIFFICULTY_INTERVAL != 0 && t.heightOf(h) + BLOCK_DIFFICULTY_INTERVAL < DGW_START_BLOCK
  }

  /** Which blocks a block needs below it, with the intervals written out. */
  lemma TransitionIs(t: Tree, blocks: map<Hash, Block>, h: Hash)
    requires IsTree(t)
    ensures t.heightOf(h) >= 338778 ==> (HasTransition(t, blocks, h) <==> Ancestor(t, h, t.heightOf(h) - 1) in blocks)
    ensures t.heightOf(h) < 338778 && t.heightOf(h) % 2016 != 0 ==> HasTransition(t, blocks, h)
    ensures t.heightOf(h) == 0 ==> !HasTransition(t, blocks, h)
    ensures 0 < t.heightOf(h) < 338778 && t.heightOf(h) % 2016 == 0 && HasTransition(t, blocks, h) ==>
              forall j: nat :: t.heightOf(h) - 2016 <= j < t.heightOf(h) ==> Ancestor(t, h, j) in blocks
    ensures 0 < t.heightOf(h) < 338778 && (forall j: nat :: t.heightOf(h) - 2016 <= j < t.heightOf(h) ==> Ancestor(t, h, j) in blocks) ==>
              HasTransition(t, blocks, h)
  {
    hide Ancestor;
    if t.heightOf(h) >= 338778 {
      assert StoredBelow(t, blocks, h, t.heightOf(h) - 1) <==> Ancestor(t, h, t.heightOf(h) - 1) in blocks;
    }
  }

  /** Which blocks the verification of a block frees, with the intervals written out. */
  lemma PrunedIs(t: Tree, blocks: map<Hash, Block>, h: Hash, a: Hash)
    requires IsTree(t) && HasTransition(t, blocks, h) && a in blocks
    ensures a !in Pruned(t, blocks, h) ==>
              && t.heightOf(h) < 338778 && t.heightOf(h) % 2016 == 0
              && t.heightOf(a) < t.heightOf(h) - 2016 && t.heightOf(a) % 2016 != 0 && Ancestor(t, h, t.heightOf(a)) == a
              && forall j: nat :: t.heightOf(a) <= j < t.heightOf(h) ==> Ancestor(t, h, j) in blocks
    ensures && t.heightOf(h) < 338778 && t.heightOf(h) % 2016 == 0
            && t.heightOf(a) < t.heightOf(h) - 2016 && t.heightOf(a) % 2016 != 0 && Ancestor(t, h, t.heightOf(a)) == a
            && (forall j: nat :: t.heightOf(a) <= j < t.heightOf(h) ==> Ancestor(t, h, j) in blocks)
            ==> a !in Pruned(t, blocks, h)
    ensures a in Pruned(t, blocks, h) ==> Pruned(t, blocks, h)[a] == blocks[a]
  {
    hide Ancestor;
    hide HasTransition;
    assert Interval(t.heightOf(h)) == if t.heightOf(h) < 338778 then 2016 else 1;
  }

  /** Nothing else is ever pruned, least of all the parent of the block. */
  lemma PrunesOnlyOld(t: Tree, blocks: map<Hash, Block>, h: Hash)
    requires IsTree(t) && t.heightOf(h) > 0
    ensures forall a :: a in blocks && a !in Pruned(t, blocks, h) ==> IsPrunable(t, a)
    ensures forall a :: a in Pruned(t, blocks, h) ==> a in blocks && Pruned(t, blocks, h)[a] == blocks[a]
    ensures t.parent(h) in blocks ==> t.parent(h) in Pruned(t, blocks, h)
    ensures h in blocks ==> h in Pruned(t, blocks, h)
  {
    hide Ancestor;
    hide StoredBelow;
  }

  /** Where the walk over old ancestors ends, all that are to be pruned have been met. */
  lemma AllPruned(t: Tree, blocks: map<Hash, Block>, h: Hash, k: nat)
    requires IsTree(t) && t.heightOf(h) >= Interval(t.heightOf(h)) && k <= t.heightOf(h) - Interval(t.heightOf(h))
    requires StoredBelow(t, blocks, h, k) && (k > 0 ==> Ancestor(t, h, k - 1) !in blocks)
    ensures ToPrune(t, blocks, h) == BetweenTransitions(t, blocks, h, k, t.heightOf(h) - Interval(t.heightOf(h)))
  {
    hide Ancestor;
    hide StoredBelow;
    forall a | a in ToPrune(t, blocks, h)
      ensures t.heightOf(a) >= k
    {
      if t.heightOf(a) < k {
        StoredAbove(t, blocks, h, t.heightOf(a), k - 1);
      }
    }
    forall a | a in BetweenTransitions(t, blocks, h, k, t.heightOf(h) - Interval(t.heightOf(h)))
      ensures StoredBelow(t, blocks, h, t.heightOf(a))
    {
      StoredAbove(t, blocks, h, k, t.heightOf(a));
    }
  }

  lemma StoredAbove(t: Tree, blocks: map<Hash, Block>, h: Hash, k: nat, j: nat)
    requires IsTree(t) && StoredBelow(t, blocks, h, k) && k <= j < t.heightOf(h)
    ensures Ancestor(t, h, j) in blocks && StoredBelow(t, blocks, h, j)
  {
  }

  /** One step of that walk. */
  lemma PruneStep(t: Tree, was: map<Hash, Block>, now: map<Hash, Block>, h: Hash, k: nat, high: nat, c: Option<Block>)
    requires IsTree(t) && AllPlaced(t, was) && k <= high < t.heightOf(h) && StoredBelow(t, was, h, k)
    requires now == was - BetweenTransitions(t, was, h, k, high) && c == Get(now, t.parent(Ancestor(t, h, k)))
    ensures c.None? && k > 0 ==> Ancestor(t, h, k - 1) !in was
    ensures c.Some? ==>
              && k > 0 && c.value.hash == Ancestor(t, h, k - 1) && Placed(t, c.value) && StoredBelow(t, was, h, k - 1)
              && was - BetweenTransitions(t, was, h, k - 1, high)
                 == if c.value.height % Interval(t.heightOf(h)) != 0 then now - {c.value.hash} else now
  {
    hide Ancestor;
    hide StoredBelow;
    hide BetweenTransitions;
    if k > 0 {
      AncestorOfAncestor(t, h, k, k - 1);
      ParentIsAncestor(t, Ancestor(t, h, k));
      OneMorePruned(t, was, h, k - 1, high);
      StoredOneMore(t, was, h, k - 1);
    }
  }

  lemma StoredOneMore(t: Tree, blocks: map<Hash, Block>, h: Hash, k: nat)
    requires IsTree(t) && StoredBelow(t, blocks, h, k + 1) && k < t.heightOf(h)
    ensures Ancestor(t, h, k) in blocks ==> StoredBelow(t, blocks, h, k)
  {
    hide Ancestor;
  }

  lemma NothingPruned(t: Tree, was: map<Hash, Block>, h: Hash, k: nat)
    requires IsTree(t) && k <= t.heightOf(h)
    ensures was - BetweenTransitions(t, was, h, k, k) == was
  {
  }

  lemma OneMorePruned(t: Tree, was: map<Hash, Block>, h: Hash, k: nat, high: nat)
    requires IsTree(t) && k < high < t.heightOf(h)
    ensures var a := Ancestor(t, h, k);
            BetweenTransitions(t, was, h, k, high)
            == BetweenTransitions(t, was, h, k + 1, high) + if a in was && k % Interval(t.heightOf(h)) != 0 then {a} else {}
    ensures Ancestor(t, h, k) !in BetweenTransitions(t, was, h, k + 1, high)
  {
    hide Ancestor;
  }

  // ---------- the heights of transactions on a new branch ----------

  /** The time for the transactions of a block, between its own and that of the block before it. */
  function BlockTime(blocks: map<Hash, Block>, b: Block): u32 {
    if b.prevBlock in blocks then b.timestamp / 2 + blocks[b.prevBlock].timestamp / 2 else b.timestamp
  }

  /** A transaction, after a walk from h down to height j which sets its height at every block that lists it. */
  ghost function Settled(t: Tree, blocks: map<Hash, Block>, h: Hash, j: nat, x: Hash, tx: Tx): Tx
    requires IsTree(t)
    decreases t.heightOf(h)
  {
    if t.heightOf(h) <= j || h !in blocks then tx
    else
      var b := blocks[h];
      Settled(t, blocks, t.parent(h), j, x, if x in b.txHashes then Timed(tx, b.height, BlockTime(blocks, b)) else tx)
  }

  /** The stored block at height k of the branch that ends with h lists the transaction x. */
  ghost predicate Listing(t: Tree, blocks: map<Hash, Block>, h: Hash, k: nat, x: Hash)
    requires IsTree(t)
  {
    k <= t.heightOf(h) && Ancestor(t, h, k) in blocks && x in blocks[Ancestor(t, h, k)].txHashes
  }

  ghost predicate NotListedBetween(t: Tree, blocks: map<Hash, Block>, h: Hash, j: nat, k: nat, x: Hash)
    requires IsTree(t)
  {
    forall i: nat :: j < i < k ==> !Listing(t, blocks, h, i, x)
  }

  /** The walk leaves a transaction with the height and the time of the lowest block that lists it. */
  lemma {:induction false} SettledLowest(t: Tree, blocks: map<Hash, Block>, h: Hash, j: nat, x: Hash, tx: Tx, k: nat)
    requires IsTree(t) && AllPlaced(t, blocks) && j <= t.heightOf(h) && StoredDownTo(t, blocks, h, j)
    requires j < k && Listing(t, blocks, h, k, x) && NotListedBetween(t, blocks, h, j, k, x)
    ensures var b := blocks[Ancestor(t, h, k)]; 
            && b.height == k
            && Settled(t, blocks, h, j, x, tx)
               == tx.(blockHeight := k,
                      timestamp := if b.prevBlock in blocks then b.timestamp / 2 + blocks[b.prevBlock].timestamp / 2 else b.timestamp)
    decreases t.heightOf(h)
  {
    assert Ancestor(t, h, t.heightOf(h)) == h;
    var b := blocks[h];
    var tx' := if x in b.txHashes then Timed(tx, b.height, BlockTime(blocks, b)) else tx;
    BelowTop(t, blocks, h, j, k, x);
    if k == t.heightOf(h) {
      SettledUnlisted(t, blocks, t.parent(h), j, x, tx');
    } else {
      SettledLowest(t, blocks, t.parent(h), j, x, tx', k);
    }
  }

  lemma {:induction false} SettledUnlisted(t: Tree, blocks: map<Hash, Block>, h: Hash, j: nat, x: Hash, tx: Tx)
    requires IsTree(t) && j <= t.heightOf(h) && StoredDownTo(t, blocks, h, j)
    requires NotListedBetween(t, blocks, h, j, t.heightOf(h) + 1, x)
    ensures Settled(t, blocks, h, j, x, tx) == tx
    decreases t.heightOf(h)
  {
    if t.heightOf(h) > j {
      assert Ancestor(t, h, t.heightOf(h)) == h;
      assert !Listing(t, blocks, h, t.heightOf(h), x);
      BelowTop(t, blocks, h, j, t.heightOf(h) + 1, x);
      SettledUnlisted(t, blocks, t.parent(h), j, x, tx);
    }
  }

  /** What is stored and listed on a branch below its top block. */
  lemma BelowTop(t: Tree, blocks: map<Hash, Block>, h: Hash, j: nat, k: nat, x: Hash)
    requires IsTree(t) && j < t.heightOf(h) && StoredDownTo(t, blocks, h, j) && NotListedBetween(t, blocks, h, j, k, x)
    ensures StoredDownTo(t, blocks, t.parent(h), j)
    ensures forall i: nat :: i < t.heightOf(h) ==> Ancestor(t, h, i) == Ancestor(t, t.parent(h), i)
    ensures forall i: nat :: i < t.heightOf(h) ==> (Listing(t, blocks, h, i, x) <==> Listing(t, blocks, t.parent(h), i, x))
    ensures NotListedBetween(t, blocks, t.parent(h), j, if k > t.heightOf(h) then t.heightOf(h) else k, x)
  {
    assert forall i: nat :: i < t.heightOf(h) ==> Ancestor(t, h, i) == Ancestor(t, t.parent(h), i);
  }

  function Unconfirmed(tx: Tx, j: nat): Tx {
    if tx.blockHeight > j then tx.(blockHeight := TX_UNCONFIRMED) else tx
  }

  /** The listed transactions, with everything above the join unconfirmed and then settled on the branch of tip. */
  ghost predicate Resettled(t: Tree, blocks: map<Hash, Block>, tip: Hash, j: nat, was: map<Hash, Tx>, now: map<Hash, Tx>, list: seq<Hash>)
    requires IsTree(t)
  {
    forall x :: x in list ==> x in was && x in now && now[x] == Settled(t, blocks, tip, j, x, Unconfirmed(was[x], j))
  }

  /** No transaction is in two blocks of the branch. */
  ghost predicate InOneBlock(t: Tree, tip: Hash, x: Hash)
    requires IsTree(t)
  {
    forall i: nat, k: nat ::
      (i <= t.heightOf(tip) && k <= t.heightOf(tip)
       && x in t.contents(Ancestor(t, tip, i)) && x in t.contents(Ancestor(t, tip, k))) ==> i == k
  }

  /**
   * After a reorganisation, a transaction has the height of a block above the join exactly if that block lists it; one
   * that none of them lists is as it was if it was at most as high as the join, and unconfirmed otherwise.
   */
  lemma HeightsAfterReorganizing(t: Tree, blocks: map<Hash, Block>, tip: Hash, j: nat, was: map<Hash, Tx>, now: map<Hash, Tx>,
      list: seq<Hash>, x: Hash)
    requires IsTree(t) && AllPlaced(t, blocks) && j <= t.heightOf(tip) < TX_UNCONFIRMED && StoredDownTo(t, blocks, tip, j)
    requires Resettled(t, blocks, tip, j, was, now, list) && x in list && InOneBlock(t, tip, x)
    ensures forall k :: j < k <= t.heightOf(tip) ==> (now[x].blockHeight == k <==> Listing(t, blocks, tip, k, x))
    ensures NotListedBetween(t, blocks, tip, j, t.heightOf(tip) + 1, x) ==> now[x] == Unconfirmed(was[x], j)
  {
    hide Ancestor;
    hide Settled;
    if NotListedBetween(t, blocks, tip, j, t.heightOf(tip) + 1, x) {
      SettledUnlisted(t, blocks, tip, j, x, Unconfirmed(was[x], j));
    } else {
      var k :| j < k < t.heightOf(tip) + 1 && Listing(t, blocks, tip, k, x);
      assert forall i: nat :: Listing(t, blocks, tip, i, x) ==> x in t.contents(Ancestor(t, tip, i));
      SettledLowest(t, blocks, tip, j, x, Unconfirmed(was[x], j), k);
    }
  }

  ghost predicate SameList(list: seq<Hash>, list': seq<Hash>) {
    forall x :: x in list' <==> x in list
  }

  /** The same transactions are listed, those of the block b with its height, and all others as they were. */
  ghost predicate ListChanged(was: map<Hash, Tx>, list: seq<Hash>, now: map<Hash, Tx>, list': seq<Hash>, b: Block, timestamp: u32) {
    && SameList(list, list')
    && forall x :: x in list' ==>
         && x in was && x in now
         && now[x] == if x in b.txHashes then was[x].(blockHeight := b.height, timestamp := timestamp) else was[x]
  }

  /** The walk that settles the transactions of the list has come down to b. */
  ghost predicate Settling(t: Tree, blocks: map<Hash, Block>, was: map<Hash, Tx>, list: seq<Hash>, now: map<Hash, Tx>, list': seq<Hash>,
      tip: Hash, j: nat, b: Option<Block>)
    requires IsTree(t)
  {
    && SameList(list, list')
    && forall x :: x in list' ==>
         && x in was && x in now
         && Settled(t, blocks, tip, j, x, was[x]) == if b.Some? then Settled(t, blocks, b.value.hash, j, x, now[x]) else now[x]
  }

  lemma SettlingStarts(t: Tree, blocks: map<Hash, Block>, all: map<Hash, Tx>, list: seq<Hash>, tip: Hash, j: nat)
    requires IsTree(t) && tip in blocks && blocks[tip].hash == tip && forall x :: x in list ==> x in all
    ensures Settling(t, blocks, all, list, all, list, tip, j, Some(blocks[tip]))
  {
  }

  lemma SettlingOn(t: Tree, blocks: map<Hash, Block>, was: map<Hash, Tx>, list: seq<Hash>, mid: map<Hash, Tx>, between: seq<Hash>,
      now: map<Hash, Tx>, list': seq<Hash>, tip: Hash, j: nat, b: Block)
    requires IsTree(t) && AllPlaced(t, blocks) && Get(blocks, b.hash) == Some(b) && t.heightOf(b.hash) > j
    requires Settling(t, blocks, was, list, mid, between, tip, j, Some(b))
    requires ListChanged(mid, between, now, list', b, BlockTime(blocks, b))
    ensures Settling(t, blocks, was, list, now, list', tip, j, Get(blocks, b.prevBlock))
  {
    forall x | x in list'
      ensures x in was && Settled(t, blocks, tip, j, x, was[x]) == Settled(t, blocks, b.prevBlock, j, x, now[x])
    {
      assert x in between;
    }
  }

  lemma SettlingEnds(t: Tree, blocks: map<Hash, Block>, was: map<Hash, Tx>, list: seq<Hash>, now: map<Hash, Tx>, list': seq<Hash>,
      tip: Hash, j: nat, b: Option<Block>)
    requires IsTree(t) && Settling(t, blocks, was, list, now, list', tip, j, b) && (b.Some? ==> t.heightOf(b.value.hash) <= j)
    ensures Settling(t, blocks, was, list, now, list', tip, j, None)
  {
  }

  lemma UnconfirmedOne(was: map<Hash, Tx>, now: map<Hash, Tx>, list: seq<Hash>, height: u32)
    requires UnconfirmedAfter(was, now, list, height) && forall x :: x in list ==> x in now
    ensures forall x :: x in list ==> x in was && now[x] == Unconfirmed(was[x], height)
  {
  }

  // ---------- the chain state machine ----------

  /** What the surroundings decide about a relayed block. */
  datatype Judgement = Judgement(ignored: bool, recent: bool, valid: bool, peerLastBlock: u32)

  /** The orphans that stand above a height. */
  ghost function Above(t: Tree, orphans: map<Hash, Block>, k: nat): set<Hash> {
    set p | p in orphans && t.heightOf(orphans[p].hash) > k
  }

  ghost predicate Acceptable(judgement: Judgement) {
    !judgement.ignored && judgement.valid
  }

  /** The height that the acceptable orphans above a block reach, one after the other. */
  ghost function ConnectedTo(t: Tree, blocks: map<Hash, Block>, orphans: map<Hash, Block>, judge: Block -> Judgement, h: Hash): nat
    requires IsTree(t) && AllWaiting(t, orphans)
    decreases |orphans|
  {
    if h in orphans && Acceptable(judge(orphans[h])) && HasTransition(t, blocks, orphans[h].hash) then
      var next := orphans[h].(height := t.heightOf(orphans[h].hash));
      ConnectedTo(t, Pruned(t, blocks, next.hash)[next.hash := next], orphans - {h}, judge, next.hash)
    else t.heightOf(h)
  }

  class PeerManager {
    var blocks: map<Hash, Block>
    /** The blocks that wait for their parent, by the hash of that parent. */
    var orphans: map<Hash, Block>
    var lastBlock: Block
    const wallet: Wallet
    const lastCheckpoint: u32
    ghost const tree: Tree

    ghost predicate ValidBlocks()
      reads `blocks, `orphans, `lastBlock
    {
      IsTree(tree) && AllPlaced(tree, blocks) && AllWaiting(tree, orphans) && Placed(tree, lastBlock)
    }

    /** The wallet follows the branch that ends with tip. */
    ghost predicate WalletFollows(tip: Hash)
      requires IsTree(tree)
      reads wallet
    {
      wallet.Valid() && wallet.Balanced() && Follows(tree, tip, wallet.allTx, wallet.transactions)
    }

    /** What every step keeps: above all, the confirmed transactions are in the blocks of the main chain. */
    ghost predicate Valid()
      reads this, wallet
    {
      ValidBlocks() && WalletFollows(lastBlock.hash)
    }

    /** A peer manager that starts from some block, with a wallet that follows the chain up to there. */
    constructor (start: Block, wallet: Wallet, lastCheckpoint: u32, ghost tree: Tree)
      requires IsTree(tree) && Placed(tree, start)
      requires wallet.Valid() && wallet.Balanced() && Follows(tree, start.hash, wallet.allTx, wallet.transactions)
      ensures Valid() && this.wallet == wallet && this.tree == tree && lastBlock == start
    {
      this.tree, this.wallet, this.lastCheckpoint := tree, wallet, lastCheckpoint;
      blocks, orphans, lastBlock := map[start.hash := start], map[], start;
    }

    /** The walk from block stands on the branches of block and of the main chain; the former is stored down to there. */
    ghost predicate StandsOn(block: Block, b: Block, b2: Block)
      requires IsTree(tree)
      reads `blocks, `lastBlock
    {
      && Placed(tree, b) && Placed(tree, b2) && Walking(tree, block.hash, lastBlock.hash, b, b2)
      && StoredDownTo(tree, blocks, block.hash, tree.heightOf(b.hash))
    }

    /** The walk to where a fork joins the main chain; None where the walk would leave the stored blocks. */
    method FindJoin(block: Block) returns (join: Option<Block>)
      requires ValidBlocks() && Placed(tree, block) && block.hash in blocks && block.height > lastBlock.height
      ensures join.Some? ==> Placed(tree, join.value) && IsHighestCommon(block.hash, lastBlock.hash, join.value.hash)
      ensures join.Some? ==> StoredDownTo(tree, blocks, block.hash, tree.heightOf(join.value.hash))
      ensures AnyForkStored(tree, blocks, block.hash, lastBlock.hash) ==> join.Some?
    {
      hide Walking;
      hide Ancestor;
      hide ForkStored;
      WalkStarts(block, lastBlock);
      var b, b2 := Some(block), Some(lastBlock);
      while b.Some? && b2.Some? && b.value.hash != b2.value.hash
        invariant b.Some? && b2.Some? ==> StandsOn(block, b.value, b2.value)
        invariant b.None? || b2.None? ==> forall k :: !ForkStored(tree, blocks, block.hash, lastBlock.hash, k)
        decreases if b.Some? then b.value.height + 1 else 0
      {
        b, b2 := WalkStep(block, b.value, b2.value);
      }
      if b.None? || b2.None? {
        return None;
      }
      WalkEnds(block.hash, lastBlock.hash, b.value, b2.value);
      join := b;
    }

    method WalkStep(block: Block, b: Block, b2: Block) returns (c: Option<Block>, c2: Option<Block>)
      requires ValidBlocks() && Placed(tree, block) && Placed(tree, b) && Placed(tree, b2) && b.hash != b2.hash
      requires StandsOn(block, b, b2)
      ensures c.Some? && c2.Some? ==> StandsOn(block, c.value, c2.value)
      ensures c.Some? ==> c.value.height < b.height
      ensures c.None? || c2.None? ==> forall k :: !ForkStored(tree, blocks, block.hash, lastBlock.hash, k)
    {
      hide Walking;
      hide Ancestor;
      hide ForkStored;
      c, c2 := Get(blocks, b.prevBlock), Some(b2);
      if c.Some? && c.value.height < b2.height {
        c2 := Get(blocks, b2.prevBlock);
      }
      WalkStepKeeps(block, b, b2, c, c2);
    }

    lemma WalkStepKeeps(block: Block, b: Block, b2: Block, c: Option<Block>, c2: Option<Block>)
      requires ValidBlocks() && Placed(tree, block) && Placed(tree, b) && Placed(tree, b2) && b.hash != b2.hash
      requires StandsOn(block, b, b2)
      requires c == Get(blocks, b.prevBlock)
      requires c2 == if c.Some? && c.value.height < b2.height then Get(blocks, b2.prevBlock) else Some(b2)
      ensures c.Some? ==> c.value.height < b.height
      ensures c.Some? && c2.Some? ==> StandsOn(block, c.value, c2.value)
      ensures c.None? || c2.None? ==> forall k :: !ForkStored(tree, blocks, block.hash, lastBlock.hash, k)
    {
      hide Ancestor;
      hide ForkStored;
      NotAtBottom(tree, block.hash, lastBlock.hash, b, b2);
      forall k | ForkStored(tree, blocks, block.hash, lastBlock.hash, k)
        ensures c.Some? && c2.Some?
      {
        ForkBelow(tree, blocks, block.hash, lastBlock.hash, b, b2, k);
      }
      if c.Some? && c2.Some? {
        WalkOn(tree, block.hash, lastBlock.hash, b, b2, c.value, c2.value);
        StoredFurther(tree, blocks, block.hash, b.hash);
      }
    }

    /** The branches of two blocks meet at join, and nowhere above it. */
    ghost predicate IsHighestCommon(a: Hash, b: Hash, join: Hash)
      requires IsTree(tree)
    {
      && tree.heightOf(join) <= tree.heightOf(a) && tree.heightOf(join) <= tree.heightOf(b)
      && Ancestor(tree, a, tree.heightOf(join)) == join == Ancestor(tree, b, tree.heightOf(join))
      && forall k :: k > tree.heightOf(join) ==> !Common(tree, a, b, k)
    }

    lemma WalkStarts(block: Block, b2: Block)
      requires IsTree(tree) && tree.heightOf(block.hash) > tree.heightOf(b2.hash) && block.hash in blocks
      ensures Walking(tree, block.hash, b2.hash, block, b2)
      ensures StoredDownTo(tree, blocks, block.hash, tree.heightOf(block.hash))
    {
    }

    lemma WalkEnds(a: Hash, a2: Hash, b: Block, b2: Block)
      requires IsTree(tree) && Walking(tree, a, a2, b, b2) && b.hash == b2.hash
      ensures IsHighestCommon(a, a2, b.hash)
    {
      hide Ancestor;
    }

    lemma ListIsKnown()
      requires wallet.Valid()
      ensures forall x :: x in wallet.transactions ==> x in wallet.allTx
    {
      wallet.ListIsKnown();
    }

    /** Transactions of a block on the branch of tip get its height. */
    method UpdateTx(b: Block, timestamp: u32, now: int, ghost tip: Hash)
      requires IsTree(tree) && WalletFollows(tip) && Placed(tree, b)
      requires b.height <= tree.heightOf(tip) && Ancestor(tree, tip, b.height) == b.hash
      modifies wallet
      ensures WalletFollows(tip) && ListChanged(old(wallet.allTx), old(wallet.transactions), wallet.allTx, wallet.transactions, b, timestamp)
      ensures b.txHashes == [] ==> unchanged(wallet)
    {
      hide Ancestor;
      hide Follows;
      hide Wallet.Valid;
      hide Wallet.Balanced;
      ListIsKnown();
      if |b.txHashes| > 0 {
        ghost var was, list := wallet.allTx, wallet.transactions;
        var hashes := wallet.UpdateTransactions(b.txHashes, b.height, timestamp, now);
        FollowsUpdate(tree, tip, b, was, wallet.allTx, list, wallet.transactions, b.height, timestamp);
      }
    }

    /** The block extends the main chain. */
    method Extend(b: Block, txTime: u32, now: int)
      requires Valid() && Placed(tree, b) && b.prevBlock == lastBlock.hash && b.height == lastBlock.height + 1
      modifies `blocks, `lastBlock, wallet
      ensures Valid() && lastBlock == b && blocks == old(blocks)[b.hash := b]
      ensures ListChanged(old(wallet.allTx), old(wallet.transactions), wallet.allTx, wallet.transactions, b, txTime)
    {
      hide ListChanged;
      hide Ancestor;
      hide Follows;
      hide Wallet.Valid;
      hide Wallet.Balanced;
      blocks := blocks[b.hash := b];
      ParentIsAncestor(tree, b.hash);
      FollowsFurther(tree, lastBlock.hash, b.hash, wallet.allTx, wallet.transactions);
      TopIsAncestor(tree, b.hash);
      lastBlock := b;
      UpdateTx(b, txTime, now, b.hash);
    }

    /** The block of the main chain at a height, as far as it is stored. */
    method MainBlockAt(height: u32) returns (b: Option<Block>)
      requires ValidBlocks()
      ensures b.Some? ==> Placed(tree, b.value) && b.value.height == if height < lastBlock.height then height else lastBlock.height
      ensures b.Some? ==> Ancestor(tree, lastBlock.hash, b.value.height) == b.value.hash
      ensures StoredDownTo(tree, blocks, lastBlock.hash, height) ==> b.Some?
    {
      hide Ancestor;
      b := Some(lastBlock);
      TopIsAncestor(tree, lastBlock.hash);
      while b.Some? && b.value.height > height
        invariant b.Some? ==> Placed(tree, b.value) && b.value.height <= lastBlock.height
        invariant b.Some? ==> b.value.height >= (if height < lastBlock.height then height else lastBlock.height)
        invariant b.Some? ==> Ancestor(tree, lastBlock.hash, b.value.height) == b.value.hash
        invariant b.None? ==> !StoredDownTo(tree, blocks, lastBlock.hash, height)
        decreases if b.Some? then b.value.height + 1 else 0
      {
        AncestorStep(tree, lastBlock.hash, b.value.hash);
        b := Get(blocks, b.value.prevBlock);
      }
    }

    /** The block is on the main chain. */
    ghost predicate OnMainChain(b: Block)
      requires IsTree(tree)
      reads `lastBlock
    {
      tree.heightOf(b.hash) <= tree.heightOf(lastBlock.hash) && Ancestor(tree, lastBlock.hash, tree.heightOf(b.hash)) == b.hash
    }

    /** If the block is on the main chain, its transactions get its height; false where the walk leaves the stored blocks. */
    method UpdateExisting(b: Block, txTime: u32, now: int) returns (ok: bool)
      requires Valid() && Placed(tree, b)
      modifies `lastBlock, wallet
      ensures Valid() && lastBlock == if ok && b.hash == old(lastBlock).hash then b else old(lastBlock)
      ensures ok && old(OnMainChain(b)) ==> ListChanged(old(wallet.allTx), old(wallet.transactions), wallet.allTx, wallet.transactions, b, txTime)
      ensures !ok || !old(OnMainChain(b)) ==> unchanged(wallet)
      ensures StoredDownTo(tree, blocks, old(lastBlock).hash, b.height) ==> ok
    {
      hide Ancestor;
      hide Follows;
      hide Wallet.Valid;
      hide Wallet.Balanced;
      hide ListChanged;
      hide AllPlaced;
      hide AllWaiting;
      hide StoredDownTo;
      TopIsAncestor(tree, lastBlock.hash);
      var c := MainBlockAt(b.height);
      if c.None? {
        return false;
      }
      if c.value.hash == b.hash {
        UpdateTx(b, txTime, now, lastBlock.hash);
        if b.height == lastBlock.height {
          SameTop(tree, lastBlock.hash, b.hash);
          lastBlock := b;
        }
      }
      ok := true;
    }

    /** The stored block is replaced, and no longer waits as an orphan. */
    method Replace(b: Block)
      requires Valid() && Placed(tree, b) && b.hash in blocks
      modifies `blocks, `orphans
      ensures Valid() && blocks == old(blocks)[b.hash := b]
      ensures var was := old(blocks)[b.hash];
              orphans == if was.prevBlock in old(orphans) && old(orphans)[was.prevBlock] == was then old(orphans) - {was.prevBlock} else old(orphans)
    {
      hide Ancestor;
      hide Follows;
      hide Wallet.Valid;
      hide Wallet.Balanced;
      var was := blocks[b.hash];
      blocks := blocks[b.hash := b];
      if was.prevBlock in orphans && orphans[was.prevBlock] == was {
        orphans := orphans - {was.prevBlock};
      }
    }

    /** The block is already stored; false where the walk down the main chain would leave the stored blocks. */
    method Existing(b: Block, txTime: u32, now: int) returns (ok: bool)
      requires Valid() && Placed(tree, b) && b.hash in blocks
      modifies `blocks, `orphans, `lastBlock, wallet
      ensures Valid() && blocks == if ok then old(blocks)[b.hash := b] else old(blocks)
      ensures lastBlock == if ok && b.hash == old(lastBlock).hash then b else old(lastBlock)
      ensures ok && old(OnMainChain(b)) ==> ListChanged(old(wallet.allTx), old(wallet.transactions), wallet.allTx, wallet.transactions, b, txTime)
      ensures !ok || !old(OnMainChain(b)) ==> unchanged(wallet)
      ensures StoredDownTo(tree, old(blocks), old(lastBlock).hash, b.height) ==> ok
      ensures forall p :: p in orphans ==> p in old(orphans) && orphans[p] == old(orphans)[p]
      ensures forall p :: p in old(orphans) && p !in orphans ==> old(orphans)[p] == old(blocks)[b.hash]
    {
      hide PeerManager.ValidBlocks;
      hide PeerManager.WalletFollows;
      hide ListChanged;
      hide PeerManager.OnMainChain;
      hide StoredDownTo;
      hide Placed;
      OpenTree();
      ok := UpdateExisting(b, txTime, now);
      if ok {
        Replace(b);
      }
    }

    /** A fork has become longer than the main chain; false where the walks would leave the stored blocks. */
    method Reorganize(block: Block, now: int) returns (ok: bool, ghost join: Hash)
      requires Valid() && Placed(tree, block) && block.hash in blocks && blocks[block.hash] == block && block.height > lastBlock.height
      modifies `lastBlock, wallet
      ensures Valid() && lastBlock == if ok then block else old(lastBlock)
      ensures AnyForkStored(tree, blocks, block.hash, old(lastBlock).hash) ==> ok
      ensures ok ==> IsHighestCommon(block.hash, old(lastBlock).hash, join)
      ensures ok ==> StoredDownTo(tree, blocks, block.hash, tree.heightOf(join))
      ensures ok ==> SameList(old(wallet.transactions), wallet.transactions)
      ensures ok ==> Resettled(tree, blocks, block.hash, tree.heightOf(join), old(wallet.allTx), wallet.allTx, wallet.transactions)
      ensures !ok ==> unchanged(wallet)
    {
      hide Ancestor;
      hide Follows;
      hide Wallet.Valid;
      hide Wallet.Balanced;
      hide UnconfirmedAfter;
      hide ForkStored;
      hide StoredDownTo;
      hide Settled;
      hide AllPlaced;
      var found := FindJoin(block);
      if found.None? {
        return false, NO_BLOCK;
      }
      join := found.value.hash;
      ghost var was := wallet.allTx;
      var hashes := wallet.SetTxUnconfirmedAfter(found.value.height, now);
      FollowsOther(tree, lastBlock.hash, block.hash, found.value.height, was, wallet.allTx, wallet.transactions);
      ListIsKnown();
      UnconfirmedOne(was, wallet.allTx, wallet.transactions, found.value.height);
      SetHeights(block, found.value, now);
      lastBlock := block;
      ok := true;
    }

    /** The heights of the transactions on the new main chain, from its end down to where it joins the old one. */
    method SetHeights(block: Block, join: Block, now: int)
      requires ValidBlocks() && WalletFollows(block.hash) && Placed(tree, block)
      requires block.hash in blocks && blocks[block.hash] == block
      modifies wallet
      ensures WalletFollows(block.hash)
      ensures Settling(tree, blocks, old(wallet.allTx), old(wallet.transactions), wallet.allTx, wallet.transactions,
                       block.hash, join.height, None)
    {
      hide Ancestor;
      hide Follows;
      hide Wallet.Valid;
      hide Wallet.Balanced;
      hide Settling;
      hide ListChanged;
      TopIsAncestor(tree, block.hash);
      var b := Some(block);
      ListIsKnown();
      SettlingStarts(tree, blocks, wallet.allTx, wallet.transactions, block.hash, join.height);
      while b.Some? && b.value.height > join.height
        invariant WalletFollows(block.hash)
        invariant b.Some? ==> Placed(tree, b.value) && b.value.height <= block.height && Get(blocks, b.value.hash) == b
        invariant b.Some? ==> Ancestor(tree, block.hash, b.value.height) == b.value.hash
        invariant Settling(tree, blocks, old(wallet.allTx), old(wallet.transactions), wallet.allTx, wallet.transactions,
                           block.hash, join.height, b)
        decreases if b.Some? then b.value.height + 1 else 0
      {
        AncestorStep(tree, block.hash, b.value.hash);
        var prev := Get(blocks, b.value.prevBlock);
        var timestamp := if prev.Some? then b.value.timestamp / 2 + prev.value.timestamp / 2 else b.value.timestamp;
        ghost var all, list := wallet.allTx, wallet.transactions;
        UpdateTx(b.value, timestamp, now, block.hash);
        SettlingOn(tree, blocks, old(wallet.allTx), old(wallet.transactions), all, list, wallet.allTx, wallet.transactions,
                   block.hash, join.height, b.value);
        b := prev;
      }
      SettlingEnds(tree, blocks, old(wallet.allTx), old(wallet.transactions), wallet.allTx, wallet.transactions,
                   block.hash, join.height, b);
    }

    /** Frees the old ancestors of block, from b at the previous transition downwards. */
    method Prune(block: Block, b: Block)
      requires ValidBlocks() && Placed(tree, block) && Placed(tree, b)
      requires b.height + Interval(block.height) == block.height && Ancestor(tree, block.hash, b.height) == b.hash
      requires StoredBelow(tree, blocks, block.hash, b.height)
      modifies `blocks
      ensures ValidBlocks() && blocks == old(blocks) - ToPrune(tree, old(blocks), block.hash)
    {
      hide Ancestor;
      hide StoredBelow;
      hide ToPrune;
      hide BetweenTransitions;
      hide PeerManager.ValidBlocks;
      OpenBlocks();
      ghost var was := blocks;
      ghost var k: nat := b.height;
      var c, prevBlock := Some(b), b.prevBlock;
      NothingPruned(tree, was, block.hash, b.height);
      while c.Some?
        invariant ValidBlocks() && IsPruned(was, block, k, b.height, prevBlock)
        invariant c.None? && k > 0 ==> Ancestor(tree, block.hash, k - 1) !in was
        decreases if c.Some? then k + 1 else 0
      {
        c, prevBlock, k := PruneOne(block, prevBlock, was, k, b.height);
      }
      AllPruned(tree, was, block.hash, k);
    }

    /** The walk over old ancestors has come down to height k, and prevBlock is next. */
    ghost predicate IsPruned(was: map<Hash, Block>, block: Block, k: nat, high: nat, prevBlock: Hash)
      reads `blocks
    {
      && IsTree(tree) && AllPlaced(tree, was) && k <= high < tree.heightOf(block.hash) && StoredBelow(tree, was, block.hash, k)
      && prevBlock == tree.parent(Ancestor(tree, block.hash, k))
      && blocks == was - BetweenTransitions(tree, was, block.hash, k, high)
    }

    method PruneOne(block: Block, prevBlock: Hash, ghost was: map<Hash, Block>, ghost k: nat, ghost high: nat)
      returns (c: Option<Block>, prevBlock': Hash, ghost k': nat)
      requires ValidBlocks() && Placed(tree, block) && IsPruned(was, block, k, high, prevBlock)
      modifies `blocks
      ensures ValidBlocks() && IsPruned(was, block, k', high, prevBlock')
      ensures if c.Some? then k' + 1 == k else k' == k && (k > 0 ==> Ancestor(tree, block.hash, k - 1) !in was)
    {
      hide Ancestor;
      hide StoredBelow;
      hide BetweenTransitions;
      hide AllPlaced;
      hide PeerManager.ValidBlocks;
      c, prevBlock', k' := Get(blocks, prevBlock), prevBlock, k;
      PruneStep(tree, was, blocks, block.hash, k, high, c);
      if c.Some? {
        prevBlock', k' := c.value.prevBlock, k - 1;
        if c.value.height % Interval(block.height) != 0 {
          Free(c.value.hash);
        }
      }
    }

    method Free(h: Hash)
      requires ValidBlocks()
      modifies `blocks
      ensures ValidBlocks() && blocks == old(blocks) - {h}
    {
      blocks := blocks - {h};
    }

    /**
     * _BRPeerManagerVerifyBlock: at a difficulty transition the previous one must be stored, and what is older is freed;
     * valid tells whether the difficulty and the checkpoints are right.
     */
    method VerifyBlock(block: Block, valid: bool) returns (r: bool)
      requires ValidBlocks() && Placed(tree, block) && block.height > 0
      modifies `blocks
      ensures ValidBlocks() && blocks == Pruned(tree, old(blocks), block.hash)
      ensures r <==> HasTransition(tree, old(blocks), block.hash) && valid
    {
      hide Ancestor;
      hide ToPrune;
      r := true;
      if block.height % Interval(block.height) == 0 {
        TopIsAncestor(tree, block.hash);
        var b := StepBack(block, Interval(block.height), block.hash);
        if b.None? {
          r := false;
        } else {
          assert forall j: nat :: b.value.height <= j < block.height ==> Ancestor(tree, block.hash, j) in blocks;
          Prune(block, b.value);
        }
      }
      r := r && valid;
    }

    /** How the wallet's list has been resettled on the branch of block. */
    ghost predicate IsReorganized(was: map<Hash, Tx>, list: seq<Hash>, block: Block, tip: Hash)
      requires IsTree(tree)
      reads wallet, `blocks
    {
      && SameList(list, wallet.transactions)
      && exists join ::
           && IsHighestCommon(block.hash, tip, join) && StoredDownTo(tree, blocks, block.hash, tree.heightOf(join))
           && Resettled(tree, blocks, block.hash, tree.heightOf(join), was, wallet.allTx, wallet.transactions)
    }

    /** A block whose parent is stored, once it has been verified. */
    method PlaceVerified(b: Block, judgement: Judgement, txTime: u32, now: int) returns (kept: bool, ok: bool)
      requires Valid() && Placed(tree, b) && b.height > 0
      modifies `blocks, `orphans, `lastBlock, wallet
      ensures Valid()
      // on top of the main chain
      ensures b.prevBlock == old(lastBlock).hash ==>
                && kept && ok && blocks == old(blocks)[b.hash := b] && orphans == old(orphans) && lastBlock == b
                && ListChanged(old(wallet.allTx), old(wallet.transactions), wallet.allTx, wallet.transactions, b, txTime)
      // already stored
      ensures b.prevBlock != old(lastBlock).hash && b.hash in old(blocks) ==>
                && kept && (StoredDownTo(tree, old(blocks), old(lastBlock).hash, b.height) ==> ok)
                && blocks == (if ok then old(blocks)[b.hash := b] else old(blocks))
                && (forall p :: p in orphans ==> p in old(orphans) && orphans[p] == old(orphans)[p])
                && lastBlock == (if ok && b.hash == old(lastBlock).hash then b else old(lastBlock))
                && if ok && old(OnMainChain(b))
                   then ListChanged(old(wallet.allTx), old(wallet.transactions), wallet.allTx, wallet.transactions, b, txTime)
                   else unchanged(wallet)
      // ahead of a chain that is still being downloaded
      ensures b.prevBlock != old(lastBlock).hash && b.hash !in old(blocks)
              && old(lastBlock).height < judgement.peerLastBlock && b.height > old(lastBlock).height + 1 ==>
                && kept && ok && blocks == old(blocks) && orphans == old(orphans)[b.prevBlock := b] && lastBlock == old(lastBlock)
                && unchanged(wallet)
      // on a fork
      ensures b.prevBlock != old(lastBlock).hash && b.hash !in old(blocks)
              && (old(lastBlock).height >= judgement.peerLastBlock || b.height <= old(lastBlock).height + 1) ==>
                && kept == (b.height > lastCheckpoint) && orphans == old(orphans)
                && blocks == (if kept then old(blocks)[b.hash := b] else old(blocks))
                && (!kept || AnyForkStored(tree, blocks, b.hash, old(lastBlock).hash) ==> ok)
                && lastBlock == (if kept && ok && b.height > old(lastBlock).height then b else old(lastBlock))
                && if kept && ok && b.height > old(lastBlock).height
                   then IsReorganized(old(wallet.allTx), old(wallet.transactions), b, old(lastBlock).hash)
                   else unchanged(wallet)
    {
      hide Ancestor;
      hide Follows;
      hide Wallet.Valid;
      hide Wallet.Balanced;
      hide ListChanged;
      hide StoredDownTo;
      hide AnyForkStored;
      hide PeerManager.IsReorganized;
      hide PeerManager.OnMainChain;
      hide AllPlaced;
      HeightAboveParent(tree, b.hash);
      kept, ok := true, true;
      if b.prevBlock == lastBlock.hash {
        Extend(b, txTime, now);
      } else if b.hash in blocks {
        ok := Existing(b, txTime, now);
      } else if lastBlock.height < judgement.peerLastBlock && b.height > lastBlock.height + 1 {
        orphans := orphans[b.prevBlock := b];
      } else if b.height <= lastCheckpoint {
        kept := false;
      } else {
        ok := PlaceFork(b, now);
      }
    }

    /** A new block on a fork is stored; a fork longer than the main chain becomes the main chain. */
    method PlaceFork(b: Block, now: int) returns (ok: bool)
      requires Valid() && Placed(tree, b)
      modifies `blocks, `lastBlock, wallet
      ensures Valid() && blocks == old(blocks)[b.hash := b]
      ensures lastBlock == if ok && b.height > old(lastBlock).height then b else old(lastBlock)
      ensures AnyForkStored(tree, blocks, b.hash, old(lastBlock).hash) ==> ok
      ensures if ok && b.height > old(lastBlock).height
              then IsReorganized(old(wallet.allTx), old(wallet.transactions), b, old(lastBlock).hash)
              else unchanged(wallet)
    {
      hide Ancestor;
      hide Follows;
      hide Wallet.Valid;
      hide Wallet.Balanced;
      hide Settled;
      hide StoredDownTo;
      hide ForkStored;
      ok := true;
      blocks := blocks[b.hash := b];
      if b.height > lastBlock.height {
        ghost var join;
        ok, join := Reorganize(b, now);
      }
    }

    /** A block whose parent is stored is one above it. */
    lemma KnownHeight(block: Block)
      requires Valid() && Genuine(tree, block)
      ensures Placed(tree, lastBlock) && forall h :: h in blocks ==> blocks[h].hash == h
      ensures block.prevBlock in blocks ==>
                && blocks[block.prevBlock].height + 1 == tree.heightOf(block.hash) < TX_UNCONFIRMED
                && tree.heightOf(block.prevBlock) + 1 == tree.heightOf(block.hash)
    {
      HeightAboveParent(tree, block.hash);
    }

    /** What becomes of one block: whether it is kept, and false in ok where the code would leave the stored blocks. */
    method PlaceBlock(block: Block, judgement: Judgement, now: int) returns (kept: bool, height: u32, ok: bool)
      requires Valid() && Genuine(tree, block)
      modifies `blocks, `orphans, `lastBlock, wallet
      ensures Valid() && height == if block.prevBlock in old(blocks) then tree.heightOf(block.hash) else block.height
      // ignored, or an orphan that is too old
      ensures judgement.ignored || (block.prevBlock !in old(blocks) && !judgement.recent) ==>
                !kept && ok && blocks == old(blocks) && orphans == old(orphans) && lastBlock == old(lastBlock) && unchanged(wallet)
      // an orphan
      ensures !judgement.ignored && block.prevBlock !in old(blocks) && judgement.recent ==>
                && kept && ok && blocks == old(blocks) && orphans == old(orphans)[block.prevBlock := block] && lastBlock == old(lastBlock)
                && unchanged(wallet)
      // not valid
      ensures !judgement.ignored && block.prevBlock in old(blocks)
              && !(HasTransition(tree, old(blocks), block.hash) && judgement.valid) ==>
                && !kept && ok && blocks == Pruned(tree, old(blocks), block.hash) && orphans == old(orphans)
                && lastBlock == old(lastBlock) && unchanged(wallet)
      // on top of the main chain
      ensures !judgement.ignored && block.prevBlock in old(blocks) && HasTransition(tree, old(blocks), block.hash) && judgement.valid
              && block.prevBlock == old(lastBlock).hash ==>
                var b := block.(height := tree.heightOf(block.hash));
                && kept && ok && blocks == Pruned(tree, old(blocks), block.hash)[block.hash := b] && orphans == old(orphans)
                && lastBlock == b
                && ListChanged(old(wallet.allTx), old(wallet.transactions), wallet.allTx, wallet.transactions, b,
                               block.timestamp / 2 + old(blocks)[block.prevBlock].timestamp / 2)
      // already stored
      ensures !judgement.ignored && block.prevBlock in old(blocks) && HasTransition(tree, old(blocks), block.hash) && judgement.valid
              && block.prevBlock != old(lastBlock).hash && block.hash in old(blocks) ==>
                var b, store := block.(height := tree.heightOf(block.hash)), Pruned(tree, old(blocks), block.hash);
                && kept && (StoredDownTo(tree, store, old(lastBlock).hash, b.height) ==> ok)
                && blocks == (if ok then store[block.hash := b] else store)
                && (forall p :: p in orphans ==> p in old(orphans) && orphans[p] == old(orphans)[p])
                && lastBlock == (if ok && block.hash == old(lastBlock).hash then b else old(lastBlock))
                && if ok && old(OnMainChain(block))
                   then ListChanged(old(wallet.allTx), old(wallet.transactions), wallet.allTx, wallet.transactions, b,
                                    block.timestamp / 2 + old(blocks)[block.prevBlock].timestamp / 2)
                   else unchanged(wallet)
      // ahead of a chain that is still being downloaded
      ensures !judgement.ignored && block.prevBlock in old(blocks) && HasTransition(tree, old(blocks), block.hash) && judgement.valid
              && block.prevBlock != old(lastBlock).hash && block.hash !in old(blocks)
              && old(lastBlock).height < judgement.peerLastBlock && tree.heightOf(block.hash) > old(lastBlock).height + 1 ==>
                && kept && ok && blocks == Pruned(tree, old(blocks), block.hash) && lastBlock == old(lastBlock) && unchanged(wallet)
                && orphans == old(orphans)[block.prevBlock := block.(height := tree.heightOf(block.hash))]
      // on a fork
      ensures !judgement.ignored && block.prevBlock in old(blocks) && HasTransition(tree, old(blocks), block.hash) && judgement.valid
              && block.prevBlock != old(lastBlock).hash && block.hash !in old(blocks)
              && (old(lastBlock).height >= judgement.peerLastBlock || tree.heightOf(block.hash) <= old(lastBlock).height + 1) ==>
                var b, store := block.(height := tree.heightOf(block.hash)), Pruned(tree, old(blocks), block.hash);
                && kept == (b.height > lastCheckpoint) && orphans == old(orphans)
                && blocks == (if kept then store[block.hash := b] else store)
                && (!kept || AnyForkStored(tree, blocks, block.hash, old(lastBlock).hash) ==> ok)
                && lastBlock == (if kept && ok && b.height > old(lastBlock).height then b else old(lastBlock))
                && if kept && ok && b.height > old(lastBlock).height
                   then IsReorganized(old(wallet.allTx), old(wallet.transactions), b, old(lastBlock).hash)
                   else unchanged(wallet)
    {
      hide Ancestor;
      hide Follows;
      hide Wallet.Valid;
      hide Wallet.Balanced;
      hide ListChanged;
      hide Pruned;
      hide HasTransition;
      hide AnyForkStored;
      hide PeerManager.IsReorganized;
      hide AllPlaced;
      hide StoredDownTo;
      var prev := Get(blocks, block.prevBlock);
      var b, txTime := block, 0;
      ok := true;
      KnownHeight(block);
      if prev.Some? {
        txTime := block.timestamp / 2 + prev.value.timestamp / 2;
        b := block.(height := prev.value.height + 1);
        PrunesOnlyOld(tree, blocks, block.hash);
      }
      kept, height := true, b.height;
      if judgement.ignored {
        kept := false;
      } else if prev.None? {
        if judgement.recent {
          orphans := orphans[b.prevBlock := b];
        } else {
          kept := false;
        }
      } else {
        var verified := VerifyBlock(b, judgement.valid);
        if verified {
          kept, ok := PlaceVerified(b, judgement, txTime, now);
        } else {
          kept := false;
        }
      }
    }

    lemma OpenTree()
      requires Valid()
      ensures IsTree(tree) && Placed(tree, lastBlock) && AllWaiting(tree, orphans)
    {
    }

    /** The orphan that was waiting for a block. */
    method TakeOrphan(h: Hash) returns (next: Block)
      requires Valid() && h in orphans && h != NO_BLOCK
      modifies `orphans
      ensures Valid() && next == old(orphans)[h] && orphans == old(orphans) - {h}
      ensures Genuine(tree, next) && next.prevBlock == h && tree.heightOf(next.hash) == tree.heightOf(h) + 1
    {
      hide PeerManager.WalletFollows;
      hide AllPlaced;
      next := orphans[h];
      orphans := orphans - {h};
      HeightAboveParent(tree, next.hash);
    }

    /**
     * _peerRelayedBlock: places the block, and then the block that was waiting for it, and so on. Whatever comes in, and
     * in whatever order, the wallet follows the main chain, which never gets shorter; a block that extends it takes all
     * acceptable orphans above it along.
     */
    method RelayedBlock(block: Block, judge: Block -> Judgement, now: int) returns (ok: bool)
      requires Valid() && Genuine(tree, block)
      modifies `blocks, `orphans, `lastBlock, wallet
      ensures Valid() && forall h :: h in old(blocks) && h !in blocks ==> IsPrunable(tree, h)
      ensures lastBlock.hash == old(lastBlock).hash || lastBlock.height > old(lastBlock).height
      // ignored, or an orphan that is too old
      ensures judge(block).ignored || (block.prevBlock !in old(blocks) && !judge(block).recent) ==>
                ok && blocks == old(blocks) && orphans == old(orphans) && lastBlock == old(lastBlock) && unchanged(wallet)
      // an orphan for which nothing waits
      ensures !judge(block).ignored && block.prevBlock !in old(blocks) && judge(block).recent && block.hash !in old(orphans) ==>
                && ok && blocks == old(blocks) && orphans == old(orphans)[block.prevBlock := block] && lastBlock == old(lastBlock)
                && unchanged(wallet)
      // not valid
      ensures !judge(block).ignored && block.prevBlock in old(blocks)
              && !(HasTransition(tree, old(blocks), block.hash) && judge(block).valid) ==>
                && ok && blocks == Pruned(tree, old(blocks), block.hash) && orphans == old(orphans) && lastBlock == old(lastBlock)
                && unchanged(wallet)
      // on top of the main chain
      ensures !judge(block).ignored && block.prevBlock in old(blocks) && HasTransition(tree, old(blocks), block.hash)
              && judge(block).valid && block.prevBlock == old(lastBlock).hash ==>
                var store := Pruned(tree, old(blocks), block.hash)[block.hash := block.(height := tree.heightOf(block.hash))];
                && (block.hash in blocks || IsPrunable(tree, block.hash))
                && lastBlock.height >= ConnectedTo(tree, store, old(orphans), judge, block.hash)
      // on a fork
      ensures !judge(block).ignored && block.prevBlock in old(blocks) && HasTransition(tree, old(blocks), block.hash)
              && judge(block).valid && block.prevBlock != old(lastBlock).hash && block.hash !in old(blocks)
              && (old(lastBlock).height >= judge(block).peerLastBlock || tree.heightOf(block.hash) <= old(lastBlock).height + 1) ==>
                var store := Pruned(tree, old(blocks), block.hash);
                if tree.heightOf(block.hash) > lastCheckpoint then
                  && (block.hash in blocks || IsPrunable(tree, block.hash))
                  && (AnyForkStored(tree, store[block.hash := block.(height := tree.heightOf(block.hash))], block.hash, old(lastBlock).hash)
                      ==> lastBlock.height >= tree.heightOf(block.hash))
                else
                  && ok && blocks == store && block.hash !in blocks && orphans == old(orphans) && lastBlock == old(lastBlock)
                  && unchanged(wallet)
      decreases Above(tree, orphans, tree.heightOf(block.hash)), 1
    {
      hide PeerManager.Valid;
      hide PeerManager.IsReorganized;
      hide PeerManager.OnMainChain;
      hide ConnectedTo;
      hide AnyForkStored;
      hide ListChanged;
      hide StoredDownTo;
      hide Above;
      hide IsPrunable;
      hide HasTransition;
      hide Pruned;
      OpenTree();
      KnownHeight(block);
      if block.prevBlock in blocks {
        PrunesOnlyOld(tree, blocks, block.hash);
        NothingConnects(tree, Pruned(tree, blocks, block.hash)[block.hash := block.(height := tree.heightOf(block.hash))], orphans,
                        judge, block.hash);
      }
      var kept, height;
      kept, height, ok := PlaceBlock(block, judge(block), now);
      OpenTree();
      if ok && kept && height != TX_UNCONFIRMED && block.hash in orphans {
        NoMoreAbove(tree, old(orphans), orphans, block.hash);
        ok := Connect(block, judge, now);
        OpenTree();
      }
    }

    /** The orphan above a block is placed. */
    method Connect(block: Block, judge: Block -> Judgement, now: int) returns (ok: bool)
      requires Valid() && Genuine(tree, block) && block.hash in orphans
      modifies `blocks, `orphans, `lastBlock, wallet
      ensures Valid() && forall h :: h in old(blocks) && h !in blocks ==> IsPrunable(tree, h)
      ensures lastBlock.hash == old(lastBlock).hash || lastBlock.height > old(lastBlock).height
      ensures block.hash == old(lastBlock).hash && block.hash in old(blocks) ==>
                lastBlock.height >= ConnectedTo(tree, old(blocks), old(orphans), judge, block.hash)
      decreases Above(tree, orphans, tree.heightOf(block.hash)), 0
    {
      hide PeerManager.Valid;
      hide ConnectedTo;
      hide AnyForkStored;
      hide Above;
      hide IsPrunable;
      hide HasTransition;
      hide Pruned;
      OpenTree();
      ConnectedStep(tree, blocks, orphans, judge, block.hash);
      var next := TakeOrphan(block.hash);
      FewerAbove(tree, old(orphans), orphans, block, next);
      ok := RelayedBlock(next, judge, now);
      OpenTree();
    }

    // ---------- what happens to the wallet in between ----------

    /** A transaction that a peer has relayed; it is not confirmed before its block comes. */
    method RelayedTx(tx: Tx, isSigned: bool, now: int, moved: bool) returns (r: bool)
      requires Valid() && SpendsBelow(wallet.rank, tx) && tx.blockHeight == TX_UNCONFIRMED
      modifies wallet
      ensures Valid()
      ensures isSigned && tx.hash !in old(wallet.allTx) ==>
                && r == Touches(old(wallet.allTx), old(wallet.allAddrs), tx) && wallet.allTx == old(wallet.allTx)[tx.hash := tx]
                && forall x :: x in wallet.transactions <==> x in old(wallet.transactions) || (r && x == tx.hash)
      ensures !isSigned || tx.hash in old(wallet.allTx) ==>
                wallet.allTx == old(wallet.allTx) && wallet.transactions == old(wallet.transactions)
    {
      hide Ancestor;
      hide Wallet.Valid;
      hide Wallet.Balanced;
      hide Touches;
      ghost var was, list := wallet.allTx, wallet.transactions;
      ListIsKnown();
      r := wallet.RegisterTransaction(tx, isSigned, now, moved);
    }

    /** An unconfirmed transaction gets a time when enough peers relay it, and loses it when they do not. */
    method MarkTx(h: Hash, timestamp: u32, now: int)
      requires Valid()
      modifies wallet
      ensures Valid() && SameList(old(wallet.transactions), wallet.transactions)
      ensures forall x :: x in wallet.transactions ==>
                && x in old(wallet.allTx) && x in wallet.allTx
                && wallet.allTx[x] == if x == h && old(wallet.allTx)[x].blockHeight == TX_UNCONFIRMED
                                      then old(wallet.allTx)[x].(timestamp := timestamp) else old(wallet.allTx)[x]
      ensures wallet.blockHeight == Ledgers.MarkedHeight(old(wallet.allTx), old(wallet.blockHeight), h)
      ensures (forall lockTime: u32, sequence: u32 ::
                 Ledgers.IsHeightLocked(wallet.blockHeight, lockTime, sequence)
                 <==> Ledgers.IsHeightLocked(old(wallet.blockHeight), lockTime, sequence))
              <==> || h !in old(wallet.allTx) || old(wallet.allTx)[h].blockHeight != TX_UNCONFIRMED
                   || old(wallet.blockHeight) + 2 >= Ledgers.TX_MAX_LOCK_HEIGHT
    {
      hide Ancestor;
      hide Wallet.Valid;
      hide Wallet.Balanced;
      hide Ledgers.IsHeightLocked;
      ListIsKnown();
      Ledgers.MarkKeepsLocks(wallet.allTx, wallet.blockHeight, h);
      if h in wallet.allTx && wallet.allTx[h].blockHeight == TX_UNCONFIRMED {
        var hashes := wallet.UpdateTransactions([h], TX_UNCONFIRMED, timestamp, now);
      }
    }

    /** A transaction that no peer relays is removed, with those that depend on it. */
    method RemoveUnrelayed(h: Hash, now: int, ghost limit: nat) returns (ghost gone: set<Hash>)
      requires Valid() && forall x :: x in wallet.allTx ==> wallet.rank(x) <= limit
      modifies wallet
      ensures Valid() && wallet.allTx == old(wallet.allTx) && Known(wallet.allTx, wallet.rank)
      ensures IsLeft(wallet.allTx, wallet.rank, old(wallet.transactions), wallet.transactions, gone, h)
      ensures h in wallet.allTx ==> h in gone
    {
      hide Ancestor;
      hide Wallet.Valid;
      hide Wallet.Balanced;
      hide IsLeft;
      hide Known;
      gone := wallet.RemoveTransaction(h, now, limit);
      LeftFollows(tree, lastBlock.hash, wallet.allTx, wallet.rank, old(wallet.transactions), wallet.transactions, gone, h);
    }

    // ---------- locators ----------

    /** The block that is a number of steps below b on the branch of tip, as far as it is stored. */
    method StepBack(b: Block, step: nat, ghost tip: Hash) returns (c: Option<Block>)
      requires ValidBlocks() && Placed(tree, b)
      requires b.height <= tree.heightOf(tip) && Ancestor(tree, tip, b.height) == b.hash
      ensures c.Some? ==> Placed(tree, c.value) && c.value.height + step == b.height
      ensures c.Some? ==> Ancestor(tree, tip, c.value.height) == c.value.hash
      ensures c.Some? <==> step <= b.height && forall j: nat :: b.height - step <= j < b.height ==> Ancestor(tree, tip, j) in blocks
      ensures c.None? ==> step > b.height || !StoredDownTo(tree, blocks, tip, 0)
    {
      hide Ancestor;
      c := Some(b);
      var j := 0;
      while c.Some? && j < step
        invariant c.Some? ==> j <= step && Placed(tree, c.value) && c.value.height + j == b.height
        invariant c.Some? ==> Ancestor(tree, tip, c.value.height) == c.value.hash
        invariant c.Some? ==> forall k: nat :: b.height - j <= k < b.height ==> Ancestor(tree, tip, k) in blocks
        invariant c.None? ==> step > b.height || exists k: nat :: b.height - step <= k < b.height && Ancestor(tree, tip, k) !in blocks
        decreases if c.Some? then step - j + 1 else 0
      {
        if c.value.height > 0 {
          AncestorStep(tree, tip, c.value.hash);
        }
        c := Get(blocks, c.value.prevBlock);
        j := j + 1;
      }
    }

    /** After i locators the walk is at block, or has left the stored blocks, and will make steps of the given length. */
    ghost predicate IsLocating(block: Option<Block>, i: nat, step: nat)
      requires IsTree(tree)
      reads `blocks, `lastBlock
    {
      && step == (if i < 10 then 1 else Pow2(i - 9))
      && match block
         case Some(b) =>
           && Placed(tree, b) && b.height + LocatorDepth(i) == lastBlock.height <= tree.heightOf(lastBlock.hash)
           && Ancestor(tree, lastBlock.hash, b.height) == b.hash
         case None => LocatorDepth(i) > lastBlock.height || !StoredDownTo(tree, blocks, lastBlock.hash, 0)
    }

    /** The walk to the next locator; its length stays below 2^31. */
    method LocateNext(block: Block, i: nat, step: nat) returns (next: Option<Block>, step': nat)
      requires ValidBlocks() && IsLocating(Some(block), i, step) && block.height > 0
      ensures IsLocating(next, i + 1, step') && (next.Some? ==> next.value.height < block.height)
      ensures 0 < step' <= lastBlock.height < TX_UNCONFIRMED
    {
      hide Ancestor;
      hide StoredDownTo;
      hide LocatorDepth;
      LocatorDepthNext(i);
      step' := step;
      if i + 1 >= 10 {
        step' := step * 2;
        LocatorDepthIs(i);
      }
      next := StepBack(block, step', lastBlock.hash);
    }

    /**
     * _BRPeerManagerBlockLocators: the hashes of blocks of the main chain from its end downwards, in steps that grow, and
     * that of the first block at last, as far as the buffer goes; returns how many there are.
     */
    method BlockLocators(locators: array?<Hash>, genesis: Hash) returns (count: nat)
      requires ValidBlocks()
      modifies if locators == null then {} else {locators}
      ensures count > 0 && forall i :: 0 <= i < count - 1 ==> LocatorDepth(i) < lastBlock.height
      ensures StoredDownTo(tree, blocks, lastBlock.hash, 0) ==> LocatorDepth(count - 1) >= lastBlock.height
      ensures locators != null ==>
                && (forall i :: 0 <= i < locators.Length && i < count - 1 ==> IsLocator(i, locators[i]))
                && (count <= locators.Length ==> locators[count - 1] == genesis)
                && (forall i :: count <= i < locators.Length ==> locators[i] == old(locators[i]))
    {
      hide Ancestor;
      hide StoredDownTo;
      hide LocatorDepth;
      hide PeerManager.ValidBlocks;
      OpenBlocks();
      LocatorDepthNext(0);
      TopIsAncestor(tree, lastBlock.hash);
      var block, step := Some(lastBlock), 1;
      count := 0;
      while block.Some? && block.value.height > 0
        invariant IsLocating(block, count, step) && forall i :: 0 <= i < count ==> LocatorDepth(i) < lastBlock.height
        invariant locators != null ==>
                    && (forall i :: 0 <= i < locators.Length && i < count ==> IsLocator(i, locators[i]))
                    && (forall i :: count <= i < locators.Length ==> locators[i] == old(locators[i]))
        decreases if block.Some? then block.value.height + 1 else 0
      {
        if locators != null && count < locators.Length {
          locators[count] := block.value.hash;
        }
        block, step := LocateNext(block.value, count, step);
        count := count + 1;
      }
      if locators != null && count < locators.Length {
        locators[count] := genesis;
      }
      count := count + 1;
    }

    lemma OpenBlocks()
      requires ValidBlocks()
      ensures IsTree(tree) && Placed(tree, lastBlock) && AllPlaced(tree, blocks)
    {
    }

    ghost predicate IsLocator(i: nat, h: Hash)
      requires IsTree(tree) && Placed(tree, lastBlock)
      reads `lastBlock
    {
      LocatorDepth(i) < lastBlock.height && h == Ancestor(tree, lastBlock.hash, lastBlock.height - LocatorDepth(i))
    }
  }

  /** How far the i-th locator is below the end of the chain: ten in a row, then in steps that double. */
  function LocatorDepth(i: nat): nat {
    if i < 10 then i else LocatorDepth(i - 1) + Pow2(i - 9)
  }

  lemma LocatorDepthNext(i: nat)
    ensures LocatorDepth(0) == 0
    ensures LocatorDepth(i + 1) == LocatorDepth(i) + if i + 1 < 10 then 1 else Pow2(i - 8)
  {
  }

  /** The locators come to lie about as far below the end as the last step is long. */
  lemma {:induction false} LocatorDepthIs(i: nat)
    requires i >= 9
    ensures LocatorDepth(i) == Pow2(i - 8) + 7
  {
    if i > 9 {
      LocatorDepthIs(i - 1);
      assert Pow2(i - 8) == 2 * Pow2(i - 9);
    } else {
      assert Pow2(1) == 2;
    }
  }

  lemma LeftFollows(t: Tree, tip: Hash, all: map<Hash, Tx>, rank: Rank, was: seq<Hash>, now: seq<Hash>, gone: set<Hash>, h: Hash)
    requires IsTree(t) && Known(all, rank) && Follows(t, tip, all, was) && IsLeft(all, rank, was, now, gone, h)
    ensures Follows(t, tip, all, now)
  {
    hide Ancestor;
  }

  lemma StoredFurther(t: Tree, blocks: map<Hash, Block>, tip: Hash, h: Hash)
    requires IsTree(t) && 0 < t.heightOf(h) <= t.heightOf(tip) && Ancestor(t, tip, t.heightOf(h)) == h
    requires StoredDownTo(t, blocks, tip, t.heightOf(h)) && t.parent(h) in blocks
    ensures StoredDownTo(t, blocks, tip, t.heightOf(t.parent(h)))
  {
    hide Ancestor;
    AncestorStep(t, tip, h);
  }

  lemma NothingConnects(t: Tree, blocks: map<Hash, Block>, orphans: map<Hash, Block>, judge: Block -> Judgement, h: Hash)
    requires IsTree(t) && AllWaiting(t, orphans)
    ensures h !in orphans ==> ConnectedTo(t, blocks, orphans, judge, h) == t.heightOf(h)
  {
  }

  lemma ConnectedStep(t: Tree, blocks: map<Hash, Block>, orphans: map<Hash, Block>, judge: Block -> Judgement, h: Hash)
    requires IsTree(t) && AllWaiting(t, orphans)
    ensures h in orphans && Acceptable(judge(orphans[h])) && HasTransition(t, blocks, orphans[h].hash) ==>
              var next := orphans[h].(height := t.heightOf(orphans[h].hash));
              ConnectedTo(t, blocks, orphans, judge, h)
              == ConnectedTo(t, Pruned(t, blocks, next.hash)[next.hash := next], orphans - {h}, judge, next.hash)
    ensures (h in orphans && Acceptable(judge(orphans[h])) && HasTransition(t, blocks, orphans[h].hash))
            || ConnectedTo(t, blocks, orphans, judge, h) == t.heightOf(h)
  {
    hide HasTransition;
    hide Pruned;
  }

  lemma TopIsAncestor(t: Tree, h: Hash)
    requires IsTree(t)
    ensures Ancestor(t, h, t.heightOf(h)) == h
  {
  }

  lemma SameTop(t: Tree, h: Hash, a: Hash)
    requires IsTree(t) && t.heightOf(a) == t.heightOf(h) && Ancestor(t, h, t.heightOf(a)) == a
    ensures a == h
  {
  }

  /** A block whose parent is a block is one above it. */
  lemma HeightAboveParent(t: Tree, h: Hash)
    requires IsTree(t)
    ensures t.parent(h) != NO_BLOCK ==> t.heightOf(h) == t.heightOf(t.parent(h)) + 1
  {
  }

  /** A block leaves the orphans above it as they were, or takes some away. */
  lemma NoMoreAbove(t: Tree, was: map<Hash, Block>, now: map<Hash, Block>, h: Hash)
    requires forall p :: p in now ==> now[p].hash == h || (p in was && now[p] == was[p])
    ensures Above(t, now, t.heightOf(h)) < Above(t, was, t.heightOf(h)) || Above(t, now, t.heightOf(h)) == Above(t, was, t.heightOf(h))
  {
  }

  /** Placing an orphan leaves fewer orphans above it. */
  lemma FewerAbove(t: Tree, was: map<Hash, Block>, now: map<Hash, Block>, block: Block, next: Block)
    requires block.hash in was && was[block.hash] == next && block.hash !in now
    requires t.heightOf(next.hash) == t.heightOf(block.hash) + 1
    requires forall p :: p in now ==> now[p].hash == block.hash || (p in was && now[p] == was[p])
    ensures Above(t, now, t.heightOf(next.hash)) < Above(t, was, t.heightOf(block.hash))
  {
    assert block.hash in Above(t, was, t.heightOf(block.hash));
  }

  /** The walk has met by the time it gets to the first block. */
  lemma NotAtBottom(t: Tree, tip: Hash, tip2: Hash, b: Block, b2: Block)
    requires IsTree(t) && Walking(t, tip, tip2, b, b2) && b.hash != b2.hash
    ensures t.heightOf(b.hash) > 0
  {
    hide Ancestor;
    assert t.heightOf(b.hash) == 0 ==> t.heightOf(b2.hash) == 0;
  }
}

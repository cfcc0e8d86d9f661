/** How BRWallet.c orders its transactions, and which transactions are its own. */
module WalletOrder {
  import opened Blocks
  import opened WalletData
  import opened Words

  /** A number for every transaction, higher than those of the transactions it spends. */
  type Rank = Hash -> nat

  ghost predicate SpendsBelow(rank: Rank, tx: Tx) {
    forall i :: i in tx.inputs ==> rank(i.hash) < rank(tx.hash)
  }

  /** Transactions under their own hashes, none of them spending itself by any chain of inputs. */
  ghost predicate Known(all: map<Hash, Tx>, rank: Rank) {
    forall h :: h in all ==> all[h].hash == h && all[h].blockHeight <= TX_UNCONFIRMED && SpendsBelow(rank, all[h])
  }

  /** _BRWalletTxIsAscending: not an order, since it looks for an ancestor of tx1 only. */
  predicate IsAscending(all: map<Hash, Tx>, ghost rank: Rank, tx1: Tx, tx2: Tx)
    requires Known(all, rank) && SpendsBelow(rank, tx1)
    decreases rank(tx1.hash)
  {
    if tx1.blockHeight > tx2.blockHeight then true
    else if tx1.blockHeight < tx2.blockHeight then false
    else if exists i :: i in tx1.inputs && i.hash == tx2.hash then true
    else if exists i :: i in tx2.inputs && i.hash == tx1.hash then false
    else exists i :: i in tx1.inputs && i.hash in all && IsAscending(all, rank, all[i.hash], tx2)
  }

  const NOT_IN_CHAIN: int := -1

  /** _txChainIndex: the last address of the chain that tx pays to. */
  function TxChainIndex(tx: Tx, chain: seq<Address>): (i: int)
    ensures -1 <= i < |chain|
    ensures i >= 0 ==> exists o :: o in tx.outputs && o.address == chain[i]
    ensures forall k, o :: i < k < |chain| && o in tx.outputs ==> o.address != chain[k]
  {
    if chain == [] then NOT_IN_CHAIN
    else
      var n := |chain| - 1;
      if exists o :: o in tx.outputs && o.address == chain[n] then n else TxChainIndex(tx, chain[..n])
  }

  /** _BRWalletTxCompare */
  function Compare(all: map<Hash, Tx>, ghost rank: Rank, internalChain: seq<Address>, externalChain: seq<Address>, tx1: Tx, tx2: Tx): int
    requires Known(all, rank) && SpendsBelow(rank, tx1) && SpendsBelow(rank, tx2)
  {
    if IsAscending(all, rank, tx1, tx2) then 1
    else if IsAscending(all, rank, tx2, tx1) then -1
    else
      var i := TxChainIndex(tx1, internalChain);
      var j := TxChainIndex(tx2, if i == NOT_IN_CHAIN then externalChain else internalChain);
      var i' := if i == NOT_IN_CHAIN && j != NOT_IN_CHAIN then TxChainIndex(tx1, externalChain) else i;
      if i' != NOT_IN_CHAIN && j != NOT_IN_CHAIN && i' != j then (if i' > j then 1 else -1) else 0
  }

  /** Whatever else the comparison does, it goes by block height first. */
  lemma CompareByHeight(all: map<Hash, Tx>, rank: Rank, internalChain: seq<Address>, externalChain: seq<Address>, tx1: Tx, tx2: Tx)
    requires Known(all, rank) && SpendsBelow(rank, tx1) && SpendsBelow(rank, tx2)
    ensures tx1.blockHeight > tx2.blockHeight ==> Compare(all, rank, internalChain, externalChain, tx1, tx2) > 0
    ensures tx1.blockHeight < tx2.blockHeight ==> Compare(all, rank, internalChain, externalChain, tx1, tx2) < 0
  {
  }

  /** Of two transactions of one height, one that spends the other compares as higher. */
  lemma SpenderIsHigher(all: map<Hash, Tx>, rank: Rank, internalChain: seq<Address>, externalChain: seq<Address>, tx1: Tx, tx2: Tx)
    requires Known(all, rank) && SpendsBelow(rank, tx1) && SpendsBelow(rank, tx2) && tx1.blockHeight == tx2.blockHeight
    requires exists i :: i in tx1.inputs && i.hash == tx2.hash
    ensures Compare(all, rank, internalChain, externalChain, tx1, tx2) == 1
    ensures Compare(all, rank, internalChain, externalChain, tx2, tx1) == -1
  {
    assert !exists i :: i in tx2.inputs && i.hash == tx1.hash;
  }

  /** The transaction pays to the address at i, and to none behind it. */
  ghost predicate PaysLast(tx: Tx, chain: seq<Address>, i: nat) {
    && i < |chain| && (exists o :: o in tx.outputs && o.address == chain[i])
    && forall k, o :: i < k < |chain| && o in tx.outputs ==> o.address != chain[k]
  }

  /**
   * Of two transactions that are not ordered by their heights and inputs, the one that pays to a later address of a chain
   * compares as higher; the chain is the internal one if the first transaction pays to it, and the external one otherwise.
   */
  lemma CompareByChain(all: map<Hash, Tx>, rank: Rank, internalChain: seq<Address>, externalChain: seq<Address>, tx1: Tx, tx2: Tx, i: nat, j: nat)
    requires Known(all, rank) && SpendsBelow(rank, tx1) && SpendsBelow(rank, tx2)
    requires !IsAscending(all, rank, tx1, tx2) && !IsAscending(all, rank, tx2, tx1)
    ensures PaysLast(tx1, internalChain, i) && PaysLast(tx2, internalChain, j) ==>
              Compare(all, rank, internalChain, externalChain, tx1, tx2) == if i > j then 1 else if i < j then -1 else 0
    ensures (forall o :: o in tx1.outputs ==> o.address !in internalChain)
            && PaysLast(tx1, externalChain, i) && PaysLast(tx2, externalChain, j) ==>
              Compare(all, rank, internalChain, externalChain, tx1, tx2) == if i > j then 1 else if i < j then -1 else 0
  {
    hide IsAscending;
    hide TxChainIndex;
    OnlyLast(tx1, internalChain, i);
    OnlyLast(tx2, internalChain, j);
    OnlyLast(tx1, externalChain, i);
    OnlyLast(tx2, externalChain, j);
  }

  lemma OnlyLast(tx: Tx, chain: seq<Address>, i: nat)
    ensures PaysLast(tx, chain, i) ==> TxChainIndex(tx, chain) == i
  {
    hide TxChainIndex;
  }

  // ---------- the sorted list ----------

  function Height(all: map<Hash, Tx>, h: Hash): u32 {
    if h in all then all[h].blockHeight else 0
  }

  ghost predicate Sorted(all: map<Hash, Tx>, list: seq<Hash>) {
    forall i, j :: 0 <= i < j < |list| ==> Height(all, list[i]) <= Height(all, list[j])
  }

  ghost predicate Distinct(list: seq<Hash>) {
    forall i, j :: 0 <= i < j < |list| ==> list[i] != list[j]
  }

  /** Every transaction of the list is known, and listed once. */
  ghost predicate ListedOnce(all: map<Hash, Tx>, list: seq<Hash>) {
    (forall h :: h in list ==> h in all) && Distinct(list)
  }

  /** The transaction pays to one of the addresses, or spends an output that does. */
  predicate Touches(all: map<Hash, Tx>, addrs: set<Address>, tx: Tx) {
    || (exists o :: o in tx.outputs && o.address in addrs)
    || (exists i :: i in tx.inputs && i.hash in all && i.index < |all[i.hash].outputs| && all[i.hash].outputs[i.index].address in addrs)
  }

  ghost predicate AllTouch(all: map<Hash, Tx>, addrs: set<Address>, list: seq<Hash>) {
    forall h :: h in list && h in all ==> Touches(all, addrs, all[h])
  }

  lemma TouchesMore(all: map<Hash, Tx>, addrs: set<Address>, all': map<Hash, Tx>, addrs': set<Address>, tx: Tx)
    requires addrs <= addrs' && Touches(all, addrs, tx)
    requires forall h :: h in all && (exists o :: o in all[h].outputs && o.address in addrs) ==> h in all' && all'[h].outputs == all[h].outputs
    ensures Touches(all', addrs', tx)
  {
    if exists o :: o in tx.outputs && o.address in addrs {
    } else {
      var i :| i in tx.inputs && i.hash in all && i.index < |all[i.hash].outputs| && all[i.hash].outputs[i.index].address in addrs;
      assert all[i.hash].outputs[i.index] in all[i.hash].outputs;
      assert i.hash in all';
    }
  }

  function Inserted(list: seq<Hash>, at: nat, h: Hash): seq<Hash>
    requires at <= |list|
  {
    list[..at] + [h] + list[at..]
  }

  lemma InsertedSorted(all: map<Hash, Tx>, list: seq<Hash>, at: nat, h: Hash)
    requires at <= |list| && Sorted(all, list)
    requires forall k :: 0 <= k < at ==> Height(all, list[k]) <= Height(all, h)
    requires forall k :: at <= k < |list| ==> Height(all, h) <= Height(all, list[k])
    ensures Sorted(all, Inserted(list, at, h))
  {
    hide Height;
  }

  lemma InsertedListed(all: map<Hash, Tx>, list: seq<Hash>, at: nat, h: Hash)
    requires at <= |list| && ListedOnce(all, list) && h in all && h !in list
    ensures ListedOnce(all, Inserted(list, at, h))
    ensures forall x :: x in Inserted(list, at, h) <==> x in list || x == h
  {
  }

  function Removed(list: seq<Hash>, at: nat): seq<Hash>
    requires at < |list|
  {
    list[..at] + list[at + 1..]
  }

  lemma RemovedSorted(all: map<Hash, Tx>, list: seq<Hash>, at: nat)
    requires at < |list|
    ensures Sorted(all, list) ==> Sorted(all, Removed(list, at))
    ensures ListedOnce(all, list) ==> ListedOnce(all, Removed(list, at))
    ensures ListedOnce(all, list) ==> forall x :: x in Removed(list, at) <==> x in list && x != list[at]
  {
    hide Height;
    var r := Removed(list, at);
    assert forall k :: 0 <= k < |r| ==> r[k] == if k < at then list[k] else list[k + 1];
    if ListedOnce(all, list) {
      forall x | x in list && x != list[at]
        ensures x in r
      {
        var k :| 0 <= k < |list| && list[k] == x;
        assert r[if k < at then k else k - 1] == x;
      }
    }
  }

  /** Heights of transactions outside the list do not matter to its order. */
  lemma SortedElsewhere(all: map<Hash, Tx>, all': map<Hash, Tx>, list: seq<Hash>)
    requires Sorted(all, list) && forall h :: h in list ==> Height(all, h) == Height(all', h)
    ensures Sorted(all', list)
  {
    hide Height;
  }

  // ---------- insertion ----------

  /** While an insertion makes room: the list, with everything from i on one place further up. */
  ghost predicate Shifted(was: seq<Hash>, now: seq<Hash>, i: nat) {
    i <= |was| == |now| - 1 && now[..i] == was[..i] && now[i + 1..] == was[i..]
  }

  lemma ShiftStarts(was: seq<Hash>, h: Hash)
    ensures Shifted(was, was + [h], |was|)
  {
  }

  lemma ShiftOne(was: seq<Hash>, now: seq<Hash>, i: nat)
    requires 0 < i && Shifted(was, now, i)
    ensures now[i - 1] == was[i - 1] && Shifted(was, now[i := now[i - 1]], i - 1)
  {
    var next := now[i := now[i - 1]];
    assert now[i - 1] == now[..i][i - 1] == was[..i][i - 1];
    assert next[..i - 1] == now[..i][..i - 1] && was[..i][..i - 1] == was[..i - 1];
    assert next[i..] == [now[i - 1]] + now[i + 1..] && was[i - 1..] == [was[i - 1]] + was[i..];
  }

  lemma ShiftEnds(was: seq<Hash>, now: seq<Hash>, i: nat, h: Hash)
    requires Shifted(was, now, i)
    ensures now[i := h] == Inserted(was, i, h)
  {
    var next := now[i := h];
    assert next == next[..i] + [h] + next[i + 1..];
    assert next[..i] == now[..i] && next[i + 1..] == now[i + 1..];
  }

  datatype Chains = Chains(internal: seq<Address>, external: seq<Address>)

  /** Everything in the list from i on compares as higher than h. */
  ghost predicate AllAbove(all: map<Hash, Tx>, rank: Rank, chains: Chains, list: seq<Hash>, i: nat, h: Hash)
    requires Known(all, rank) && h in all && forall x :: x in list ==> x in all
  {
    forall k :: i <= k < |list| ==> Compare(all, rank, chains.internal, chains.external, all[list[k]], all[h]) > 0
  }

  /** The place where the insertion stops: behind the last transaction that does not compare as higher. */
  ghost predicate IsPlace(all: map<Hash, Tx>, rank: Rank, chains: Chains, list: seq<Hash>, at: nat, h: Hash)
    requires Known(all, rank) && h in all && forall x :: x in list ==> x in all
  {
    && at <= |list| && AllAbove(all, rank, chains, list, at, h)
    && (at > 0 ==> Compare(all, rank, chains.internal, chains.external, all[list[at - 1]], all[h]) <= 0)
  }

  /** Inserting there keeps the list sorted, although the comparison is no order. */
  lemma PlaceKeepsSorted(all: map<Hash, Tx>, rank: Rank, chains: Chains, list: seq<Hash>, at: nat, h: Hash)
    requires Known(all, rank) && h in all && ListedOnce(all, list) && h !in list && Sorted(all, list)
    requires IsPlace(all, rank, chains, list, at, h)
    ensures Sorted(all, Inserted(list, at, h)) && ListedOnce(all, Inserted(list, at, h))
    ensures forall x :: x in Inserted(list, at, h) <==> x in list || x == h
  {
    hide Compare;
    hide Height;
    forall k | at <= k < |list|
      ensures Height(all, h) <= Height(all, list[k])
    {
      HeightsCompared(all, rank, chains, list[k], h);
    }
    if at > 0 {
      HeightsCompared(all, rank, chains, list[at - 1], h);
    }
    InsertedSorted(all, list, at, h);
    InsertedListed(all, list, at, h);
  }

  lemma HeightsCompared(all: map<Hash, Tx>, rank: Rank, chains: Chains, a: Hash, h: Hash)
    requires Known(all, rank) && a in all && h in all
    ensures Compare(all, rank, chains.internal, chains.external, all[a], all[h]) > 0 ==> Height(all, h) <= Height(all, a)
    ensures Compare(all, rank, chains.internal, chains.external, all[a], all[h]) <= 0 ==> Height(all, a) <= Height(all, h)
  {
    CompareByHeight(all, rank, chains.internal, chains.external, all[a], all[h]);
  }

  /** An inserted transaction comes after everything of its height that it spends, wherever that stands in the list. */
  lemma PlaceAfterSpent(all: map<Hash, Tx>, rank: Rank, chains: Chains, list: seq<Hash>, at: nat, h: Hash)
    requires Known(all, rank) && h in all && ListedOnce(all, list) && IsPlace(all, rank, chains, list, at, h)
    ensures Inserted(list, at, h)[at] == h
    ensures forall k :: 0 <= k < |list| && all[list[k]].blockHeight == all[h].blockHeight && (exists i :: i in all[h].inputs && i.hash == list[k])
              ==> k < at && Inserted(list, at, h)[k] == list[k]
  {
    hide Compare;
    hide Inserted;
    InsertedAt(list, at, h);
    forall k | 0 <= k < |list| && all[list[k]].blockHeight == all[h].blockHeight && (exists i :: i in all[h].inputs && i.hash == list[k])
      ensures k < at
    {
      SpenderIsHigher(all, rank, chains.internal, chains.external, all[h], all[list[k]]);
    }
  }

  /** It comes before a tail of the list in which everything is of its height and spends it. */
  lemma PlaceBeforeSpenders(all: map<Hash, Tx>, rank: Rank, chains: Chains, list: seq<Hash>, at: nat, h: Hash, k: nat)
    requires Known(all, rank) && h in all && ListedOnce(all, list) && IsPlace(all, rank, chains, list, at, h) && k <= |list|
    requires forall j :: k <= j < |list| ==>
               all[list[j]].blockHeight == all[h].blockHeight && exists i :: i in all[list[j]].inputs && i.hash == h
    ensures at <= k
    ensures forall j :: k <= j < |list| ==> Inserted(list, at, h)[j + 1] == list[j]
  {
    hide Compare;
    hide Inserted;
    InsertedAt(list, at, h);
    if at > k {
      SpenderIsHigher(all, rank, chains.internal, chains.external, all[list[at - 1]], all[h]);
    }
  }

  lemma InsertedAt(list: seq<Hash>, at: nat, h: Hash)
    requires at <= |list|
    ensures var r := Inserted(list, at, h);
            && |r| == |list| + 1 && r[at] == h && (forall k :: 0 <= k < at ==> r[k] == list[k])
            && forall k :: at <= k < |list| ==> r[k + 1] == list[k]
  {
  }

  // ---------- transactions that depend on others ----------

  predicate SpendsTx(tx: Tx, h: Hash) {
    exists i :: i in tx.inputs && i.hash == h
  }

  /** t is h, or spends something that descends from h. */
  ghost predicate DescendsFrom(all: map<Hash, Tx>, rank: Rank, t: Hash, h: Hash)
    requires Known(all, rank)
    decreases rank(t)
  {
    t == h || (t in all && exists i :: i in all[t].inputs && DescendsFrom(all, rank, i.hash, h))
  }

  lemma {:induction false} DescendsTransitive(all: map<Hash, Tx>, rank: Rank, t: Hash, d: Hash, h: Hash)
    requires Known(all, rank) && DescendsFrom(all, rank, t, d) && DescendsFrom(all, rank, d, h)
    ensures DescendsFrom(all, rank, t, h)
    decreases rank(t)
  {
    if t != d {
      var i :| i in all[t].inputs && DescendsFrom(all, rank, i.hash, d);
      DescendsTransitive(all, rank, i.hash, d, h);
    }
  }

  lemma SpenderDescends(all: map<Hash, Tx>, rank: Rank, t: Hash, h: Hash)
    requires Known(all, rank) && t in all && SpendsTx(all[t], h)
    ensures DescendsFrom(all, rank, t, h) && rank(t) > rank(h)
  {
    var i :| i in all[t].inputs && i.hash == h;
    assert DescendsFrom(all, rank, i.hash, h);
  }

  /** The list without the hashes in gone, in the same order. */
  function Without(list: seq<Hash>, gone: set<Hash>): (r: seq<Hash>)
    ensures forall h :: h in r <==> h in list && h !in gone
    ensures |r| <= |list|
  {
    if list == [] then []
    else
      var rest := Without(list[1..], gone);
      if list[0] in gone then rest else [list[0]] + rest
  }

  lemma {:induction false} WithoutTwice(list: seq<Hash>, a: set<Hash>, b: set<Hash>)
    ensures Without(Without(list, a), b) == Without(list, a + b)
  {
    if list != [] {
      WithoutTwice(list[1..], a, b);
      var rest := Without(list[1..], a);
      assert ([list[0]] + rest)[1..] == rest;
    }
  }

  lemma {:induction false} WithoutShrinks(list: seq<Hash>, gone: set<Hash>, h: Hash)
    requires h in list && h in gone
    ensures |Without(list, gone)| < |list|
  {
    if list[0] !in gone {
      WithoutShrinks(list[1..], gone, h);
    }
  }

  lemma {:induction false} WithoutStrangers(list: seq<Hash>, gone: set<Hash>)
    requires forall h :: h in list ==> h !in gone
    ensures Without(list, gone) == list
  {
    if list != [] {
      WithoutStrangers(list[1..], gone);
    }
  }

  lemma WithoutFirst(x: Hash, s: seq<Hash>, gone: set<Hash>)
    ensures Without([x] + s, gone) == if x in gone then Without(s, gone) else [x] + Without(s, gone)
  {
    assert ([x] + s)[1..] == s;
  }

  lemma DistinctTail(x: Hash, t: seq<Hash>)
    requires Distinct([x] + t)
    ensures Distinct(t) && x !in t
  {
    var list := [x] + t;
    assert forall k :: 0 <= k < |t| ==> list[k + 1] == t[k];
    forall k | 0 <= k < |t|
      ensures t[k] != x
    {
      assert list[0] != list[k + 1];
    }
  }

  lemma RemovedFirst(x: Hash, t: seq<Hash>, at: nat)
    requires at <= |t|
    ensures Removed([x] + t, at) == if at == 0 then t else [x] + Removed(t, at - 1)
  {
    var list := [x] + t;
    if at > 0 {
      assert list[..at] == [x] + t[..at - 1] && list[at + 1..] == t[at..];
    }
  }

  lemma {:induction false} WithoutOne(list: seq<Hash>, at: nat)
    requires at < |list| && Distinct(list)
    ensures Without(list, {list[at]}) == Removed(list, at)
  {
    hide Without;
    hide Distinct;
    hide Removed;
    var x, t := list[0], list[1..];
    assert list == [x] + t;
    DistinctTail(x, t);
    WithoutFirst(x, t, {list[at]});
    RemovedFirst(x, t, at);
    if at == 0 {
      WithoutStrangers(t, {x});
    } else {
      assert list[at] == t[at - 1] && t[at - 1] in t;
      WithoutOne(t, at - 1);
    }
  }

  lemma {:induction false} WithoutSorted(all: map<Hash, Tx>, list: seq<Hash>, gone: set<Hash>)
    requires Sorted(all, list)
    ensures Sorted(all, Without(list, gone))
  {
    if list != [] {
      hide Height;
      hide Without;
      var x, t := list[0], list[1..];
      assert list == [x] + t && Sorted(all, t);
      WithoutFirst(x, t, gone);
      WithoutSorted(all, t, gone);
      forall h | h in t
        ensures Height(all, x) <= Height(all, h)
      {
        var k :| 0 <= k < |t| && t[k] == h;
        assert list[k + 1] == h;
      }
      SortedFirst(all, x, Without(t, gone));
    }
  }

  lemma ListedTail(all: map<Hash, Tx>, x: Hash, t: seq<Hash>)
    requires ListedOnce(all, [x] + t)
    ensures ListedOnce(all, t) && x in all && x !in t
  {
    var list := [x] + t;
    assert forall k :: 0 <= k < |t| ==> list[k + 1] == t[k];
    assert list[0] == x && x in list;
    forall h | h in t
      ensures h != x && h in all
    {
      var k :| 0 <= k < |t| && t[k] == h;
      assert list[0] != list[k + 1] && list[k + 1] in list;
    }
  }

  lemma {:induction false} WithoutListed(all: map<Hash, Tx>, list: seq<Hash>, gone: set<Hash>)
    requires ListedOnce(all, list)
    ensures ListedOnce(all, Without(list, gone))
  {
    if list != [] {
      hide Without;
      hide ListedOnce;
      var x, t := list[0], list[1..];
      assert list == [x] + t;
      WithoutFirst(x, t, gone);
      ListedTail(all, x, t);
      WithoutListed(all, t, gone);
      ListedFirst(all, x, Without(t, gone));
    }
  }

  lemma WithoutKeeps(all: map<Hash, Tx>, list: seq<Hash>, gone: set<Hash>)
    requires Sorted(all, list) && ListedOnce(all, list)
    ensures Sorted(all, Without(list, gone)) && ListedOnce(all, Without(list, gone))
  {
    hide Sorted;
    hide ListedOnce;
    WithoutSorted(all, list, gone);
    WithoutListed(all, list, gone);
  }

  lemma WithoutTouches(all: map<Hash, Tx>, addrs: set<Address>, list: seq<Hash>, gone: set<Hash>)
    ensures AllTouch(all, addrs, list) ==> AllTouch(all, addrs, Without(list, gone))
    ensures Clean(all, list, gone) ==> Clean(all, Without(list, gone), gone)
  {
    hide Touches;
    hide SpendsTx;
    hide Height;
  }

  lemma SortedFirst(all: map<Hash, Tx>, x: Hash, s: seq<Hash>)
    requires Sorted(all, s) && forall h :: h in s ==> Height(all, x) <= Height(all, h)
    ensures Sorted(all, [x] + s)
  {
    hide Height;
    var r := [x] + s;
    forall i, j | 0 <= i < j < |r|
      ensures Height(all, r[i]) <= Height(all, r[j])
    {
      assert r[j] == s[j - 1] && s[j - 1] in s;
      assert i > 0 ==> r[i] == s[i - 1];
    }
  }

  lemma ListedFirst(all: map<Hash, Tx>, x: Hash, s: seq<Hash>)
    requires ListedOnce(all, s) && x in all && x !in s
    ensures ListedOnce(all, [x] + s)
  {
    var r := [x] + s;
    forall i, j | 0 <= i < j < |r|
      ensures r[i] != r[j]
    {
      assert r[j] == s[j - 1] && s[j - 1] in s;
      assert i > 0 ==> r[i] == s[i - 1];
    }
  }

  /** No transaction that is left spends a removed one, except at a lower height. */
  ghost predicate Clean(all: map<Hash, Tx>, list: seq<Hash>, gone: set<Hash>) {
    forall g, t :: g in gone && t in list && t in all && SpendsTx(all[t], g) ==> Height(all, t) < Height(all, g)
  }

  /** Every removed transaction descends from h. */
  ghost predicate AllDescend(all: map<Hash, Tx>, rank: Rank, gone: set<Hash>, h: Hash)
    requires Known(all, rank)
  {
    forall g :: g in gone ==> g in all && DescendsFrom(all, rank, g, h)
  }

  lemma CleanMore(all: map<Hash, Tx>, list: seq<Hash>, gone: set<Hash>, list': seq<Hash>, gone': set<Hash>)
    requires Clean(all, list, gone) && Clean(all, list', gone') && forall t :: t in list' ==> t in list
    ensures Clean(all, list', gone + gone')
  {
  }

  lemma DescendMore(all: map<Hash, Tx>, rank: Rank, gone: set<Hash>, h: Hash, gone': set<Hash>, d: Hash)
    requires Known(all, rank) && AllDescend(all, rank, gone, h) && AllDescend(all, rank, gone', d) && DescendsFrom(all, rank, d, h)
    ensures AllDescend(all, rank, gone + gone', h)
  {
    forall g | g in gone'
      ensures DescendsFrom(all, rank, g, h)
    {
      DescendsTransitive(all, rank, g, d, h);
    }
  }

  /** What is left of was once gone has been removed, for the sake of h. */
  ghost predicate IsLeft(all: map<Hash, Tx>, rank: Rank, was: seq<Hash>, now: seq<Hash>, gone: set<Hash>, h: Hash)
    requires Known(all, rank)
  {
    now == Without(was, gone) && AllDescend(all, rank, gone, h) && Clean(all, now, gone)
  }

  lemma LeftMore(all: map<Hash, Tx>, rank: Rank, was: seq<Hash>, mid: seq<Hash>, now: seq<Hash>, gone: set<Hash>, h: Hash, more: set<Hash>, d: Hash)
    requires Known(all, rank) && IsLeft(all, rank, was, mid, gone, h) && IsLeft(all, rank, mid, now, more, d)
    requires DescendsFrom(all, rank, d, h)
    ensures IsLeft(all, rank, was, now, gone + more, h)
  {
    hide Clean;
    hide AllDescend;
    hide DescendsFrom;
    hide Known;
    WithoutTwice(was, gone, more);
    CleanMore(all, mid, gone, now, more);
    DescendMore(all, rank, gone, h, more, d);
  }

  lemma LeftWhole(all: map<Hash, Tx>, rank: Rank, list: seq<Hash>, h: Hash)
    requires Known(all, rank)
    ensures IsLeft(all, rank, list, list, {}, h)
  {
    hide Known;
    WithoutStrangers(list, {});
  }

  lemma LeftShorter(all: map<Hash, Tx>, rank: Rank, was: seq<Hash>, now: seq<Hash>, gone: set<Hash>, h: Hash, d: Hash)
    requires Known(all, rank) && IsLeft(all, rank, was, now, gone, h) && d in was && d in gone
    ensures |now| < |was|
  {
    WithoutShrinks(was, gone, d);
  }

  lemma LeftAlone(all: map<Hash, Tx>, rank: Rank, was: seq<Hash>, now: seq<Hash>, h: Hash)
    requires Known(all, rank) && h in all && now == Without(was, {h}) && Clean(all, now, {h})
    ensures IsLeft(all, rank, was, now, {h}, h)
  {
  }

  lemma DescendsSelf(all: map<Hash, Tx>, rank: Rank, h: Hash)
    requires Known(all, rank)
    ensures DescendsFrom(all, rank, h, h)
  {
  }
}

/** BRWallet.c: the wallet's transactions, addresses and balance. */
module Wallets {
  import opened Blocks
  import opened Ledgers
  import opened WalletData
  import opened WalletOrder
  import opened Words

  /** The transactions of a list of hashes. */
  function TxsOf(all: map<Hash, Tx>, list: seq<Hash>): (txs: seq<Tx>)
    requires forall h :: h in list ==> h in all
    ensures |txs| == |list| && forall i :: 0 <= i < |list| ==> txs[i] == all[list[i]]
  {
    seq(|list|, i requires 0 <= i < |list| => all[list[i]])
  }

  function AddressesOf(chain: seq<Address>): set<Address> {
    set a | a in chain
  }

  /** The addresses of a chain are derived one after the other, up to the first failure. */
  ghost predicate Derived(derive: (bool, nat) -> Address, internal: bool, chain: seq<Address>) {
    forall k :: 0 <= k < |chain| ==> chain[k] == derive(internal, k) != NO_ADDRESS
  }

  ghost predicate DerivesDistinct(derive: (bool, nat) -> Address) {
    forall internal, j, k :: derive(internal, j) == derive(internal, k) != NO_ADDRESS ==> j == k
  }

  const DEFAULT_FEE_PER_KB: u64 := (5000 * 1000 + 99) / 100

  class Wallet {
    var allTx: map<Hash, Tx>
    var transactions: seq<Hash>
    var blockHeight: u32
    var internalChain: seq<Address>
    var externalChain: seq<Address>
    var allAddrs: set<Address>
    var utxos: seq<Outpoint>
    var balance: u64
    var totalSent: u64
    var totalReceived: u64
    var balanceHist: seq<u64>
    var spentOutputs: set<Outpoint>
    var invalidTx: set<Hash>
    var pendingTx: set<Hash>
    var usedAddrs: set<Address>
    var feePerKb: u64
    const derive: (bool, nat) -> Address
    ghost const rank: Rank
    /** What the balance was last computed from. */
    ghost var lastContext: Context
    ghost var lastList: seq<Hash>

    /** BRWalletNew, up to the check that the first transaction is one of the wallet. */
    constructor (loaded: seq<Tx>, isSigned: Tx -> bool, derive: (bool, nat) -> Address, ghost rank: Rank, now: int, moved: bool)
      requires DerivesDistinct(derive)
      requires forall t :: t in loaded ==> SpendsBelow(rank, t) && t.blockHeight <= TX_UNCONFIRMED
      ensures this.derive == derive && this.rank == rank && ValidChains() && ValidList() && UpToDate(now) && Balanced()
      ensures forall h :: h in transactions <==> h in allTx
      ensures forall h :: h in allTx ==> allTx[h] in loaded && isSigned(allTx[h])
      ensures forall t :: t in loaded && isSigned(t) ==> t.hash in allTx
      ensures AllTouch(allTx, allAddrs, transactions) ==> Valid()
      ensures blockHeight == 0 && feePerKb == 50000 && (loaded == [] ==> OnlyGaps())
    {
      this.derive := derive;
      this.rank := rank;
      allTx, transactions, blockHeight, feePerKb := map[], [], 0, DEFAULT_FEE_PER_KB;
      internalChain, externalChain, allAddrs := [], [], {};
      utxos, balance, totalSent, totalReceived, balanceHist := [], 0, 0, 0, [];
      spentOutputs, invalidTx, pendingTx, usedAddrs := {}, {}, {}, {};
      lastContext, lastList := Context(map[], {}, 0, now), [];
      new;
      NoAddresses(derive);
      NothingListed(rank);
      Start(loaded, isSigned, now, moved);
    }

    /** The chains are as long as the gaps of unused addresses at their ends, unless no further addresses can be derived. */
    ghost predicate OnlyGaps()
      reads `internalChain, `externalChain
    {
      && (derive(false, |externalChain|) != NO_ADDRESS ==> |externalChain| == 10)
      && (derive(true, |internalChain|) != NO_ADDRESS ==> |internalChain| == 5)
    }

    /** The transactions, the first addresses and the balance of a new wallet. */
    method Start(loaded: seq<Tx>, isSigned: Tx -> bool, now: int, moved: bool)
      requires ValidChains() && ValidList() && allTx == map[] && transactions == []
      requires internalChain == [] == externalChain && usedAddrs == {}
      requires forall t :: t in loaded ==> SpendsBelow(rank, t) && t.blockHeight <= TX_UNCONFIRMED
      modifies this
      ensures ValidChains() && ValidList() && UpToDate(now) && Balanced()
      ensures blockHeight == old(blockHeight) && feePerKb == old(feePerKb) && (loaded == [] ==> OnlyGaps())
      ensures forall h :: h in transactions <==> h in allTx
      ensures forall h :: h in allTx ==> allTx[h] in loaded && isSigned(allTx[h])
      ensures forall t :: t in loaded && isSigned(t) ==> t.hash in allTx
    {
      hide Replay;
      hide SpendsBelow;
      hide Wallet.ValidChains;
      hide Wallet.ValidList;
      hide Wallet.OnlyGaps;
      hide StillHolds;
      LoadAll(loaded, isSigned);
      FirstGaps(loaded, moved);
      RankKnown();
      UpdateBalance(now);
      JustBalanced(now);
    }

    /** The first addresses of both chains. */
    method FirstGaps(ghost loaded: seq<Tx>, moved: bool)
      requires ValidChains() && internalChain == [] == externalChain && (loaded == [] ==> usedAddrs == {})
      modifies `internalChain, `externalChain, `allAddrs
      ensures ValidChains() && (loaded == [] ==> OnlyGaps())
    {
      hide Wallet.ValidChains;
      hide StillHolds;
      var added := UnusedAddrs(SEQUENCE_GAP_LIMIT_EXTERNAL, false, moved);
      added := UnusedAddrs(SEQUENCE_GAP_LIMIT_INTERNAL, true, moved);
    }

    lemma RankKnown()
      requires ValidList()
      ensures Known(allTx, rank)
    {
    }

    /** The loop over the transactions that the wallet starts with. */
    method LoadAll(loaded: seq<Tx>, isSigned: Tx -> bool)
      requires ValidList() && allTx == map[] && transactions == []
      requires forall t :: t in loaded ==> SpendsBelow(rank, t) && t.blockHeight <= TX_UNCONFIRMED
      modifies `allTx, `transactions, `usedAddrs
      ensures ValidList() && forall h :: h in transactions <==> h in allTx
      ensures forall h :: h in allTx ==> allTx[h] in loaded && isSigned(allTx[h])
      ensures forall t :: t in loaded && isSigned(t) ==> t.hash in allTx
      ensures loaded == [] ==> usedAddrs == old(usedAddrs)
    {
      hide Wallet.ValidList;
      hide SpendsBelow;
      var i := 0;
      while i < |loaded|
        invariant i <= |loaded| && ValidList() && forall h :: h in transactions <==> h in allTx
        invariant forall h :: h in allTx ==> allTx[h] in loaded && isSigned(allTx[h])
        invariant forall k :: 0 <= k < i && isSigned(loaded[k]) ==> loaded[k].hash in allTx
        invariant i == 0 ==> usedAddrs == old(usedAddrs)
      {
        if isSigned(loaded[i]) && loaded[i].hash !in allTx {
          Load(loaded[i]);
        }
        i := i + 1;
      }
    }

    /** One of the transactions that the wallet starts with. */
    method Load(tx: Tx)
      requires ValidList() && SpendsBelow(rank, tx) && tx.blockHeight <= TX_UNCONFIRMED && tx.hash !in allTx
      modifies `allTx, `transactions, `usedAddrs
      ensures ValidList() && allTx == old(allTx)[tx.hash := tx]
      ensures forall x :: x in transactions <==> x in old(transactions) || x == tx.hash
    {
      hide Height;
      ghost var was := allTx;
      allTx := allTx[tx.hash := tx];
      HeightsKept(was, allTx, transactions);
      SortedElsewhere(was, allTx, transactions);
      ghost var at := InsertTx(tx.hash);
      usedAddrs := usedAddrs + UsedBy(tx, |tx.outputs|);
    }

    // ---------- what every operation keeps ----------

    ghost predicate ValidChains()
      reads `internalChain, `externalChain, `allAddrs
    {
      && DerivesDistinct(derive)
      && Derived(derive, true, internalChain) && Derived(derive, false, externalChain)
      && allAddrs == AddressesOf(internalChain) + AddressesOf(externalChain)
    }

    /** The list holds known transactions, each of them once, in the order of their block heights. */
    ghost predicate ValidList()
      reads `allTx, `transactions
    {
      Known(allTx, rank) && ListedOnce(allTx, transactions) && Sorted(allTx, transactions)
    }

    ghost predicate Valid()
      reads `allTx, `transactions, `internalChain, `externalChain, `allAddrs
    {
      ValidChains() && ValidList() && AllTouch(allTx, allAddrs, transactions)
    }

    function TheLedger(): Ledger
      reads this
    {
      Ledger(utxos, balance, totalSent, totalReceived, balanceHist, spentOutputs, invalidTx, pendingTx, usedAddrs)
    }

    ghost function TheContext(now: int): Context
      reads this
    {
      Context(allTx, allAddrs, blockHeight, now)
    }

    /** The balance has just been computed from the list. */
    ghost predicate UpToDate(now: int)
      requires forall h :: h in transactions ==> h in allTx
      reads this
    {
      && TheLedger() == Replay(TheContext(now), TxsOf(allTx, transactions))
      && lastContext == TheContext(now) && lastList == transactions
    }

    /** The balance was computed from the transactions of the list, and only taken ones have been confirmed since. */
    ghost predicate Balanced()
      reads this
    {
      StillHolds(lastContext, lastList, TheLedger(), allTx, transactions, allAddrs)
    }

    // ---------- the recomputation of the balance ----------

    /** The ledger so far, with the local variable that holds the balance. */
    ghost predicate Tracks(l: Ledger, balance: u64)
      reads this
    {
      && utxos == l.utxos && balance == l.balance && totalSent == l.totalSent && totalReceived == l.totalReceived
      && balanceHist == l.balanceHist && spentOutputs == l.spentOutputs && invalidTx == l.invalidTx
      && pendingTx == l.pendingTx && usedAddrs == l.usedAddrs
    }

    method CheckInvalid(tx: Tx, ghost l: Ledger, ghost balance: u64) returns (isInvalid: bool)
      requires Tracks(l, balance)
      ensures isInvalid <==> IsInvalid(l, tx)
    {
      isInvalid := false;
      if tx.blockHeight == TX_UNCONFIRMED {
        var j := 0;
        while !isInvalid && j < |tx.inputs|
          invariant j <= |tx.inputs| && (isInvalid ==> IsInvalid(l, tx))
          invariant !isInvalid ==> forall k :: 0 <= k < j ==> Spends(tx.inputs[k]) !in spentOutputs && tx.inputs[k].hash !in invalidTx
        {
          if Spends(tx.inputs[j]) in spentOutputs || tx.inputs[j].hash in invalidTx {
            assert tx.inputs[j] in tx.inputs;
            isInvalid := true;
          }
          j := j + 1;
        }
      }
    }

    method AddSpentOutputs(tx: Tx)
      modifies `spentOutputs
      ensures spentOutputs == old(spentOutputs) + SpentBy(tx.inputs)
    {
      var j := 0;
      assert tx.inputs[..0] == [];
      while j < |tx.inputs|
        invariant j <= |tx.inputs| && spentOutputs == old(spentOutputs) + SpentBy(tx.inputs[..j])
      {
        spentOutputs := spentOutputs + {Spends(tx.inputs[j])};
        assert tx.inputs[..j + 1] == tx.inputs[..j] + [tx.inputs[j]];
        j := j + 1;
      }
      assert tx.inputs[..j] == tx.inputs;
    }

    method CheckPending(c: Context, tx: Tx, ghost l: Ledger) returns (isPending: bool)
      requires pendingTx == l.pendingTx
      ensures isPending <==> IsPending(c, l, tx)
      ensures isPending <==>
                && tx.blockHeight == 0x7fff_ffff
                && (|| tx.size > 100000
                    || (exists o :: o in tx.outputs && o.amount < 5460)
                    || (exists i :: i in tx.inputs &&
                          (|| i.sequence < 0xffff_fffe
                           || (i.sequence < 0xffff_ffff && tx.lockTime < 500000000 && tx.lockTime > (c.blockHeight + 1) % 0x1_0000_0000)
                           || (i.sequence < 0xffff_ffff && tx.lockTime > c.now)
                           || i.hash in pendingTx)))
    {
      PendingIs(c, l, tx);
      isPending := false;
      if tx.blockHeight == TX_UNCONFIRMED {
        isPending := tx.size > TX_MAX_SIZE;
        var j := 0;
        while !isPending && j < |tx.outputs|
          invariant j <= |tx.outputs| && (isPending ==> IsPending(c, l, tx))
          invariant !isPending ==> tx.size <= TX_MAX_SIZE && forall k :: 0 <= k < j ==> tx.outputs[k].amount >= TX_MIN_OUTPUT_AMOUNT
        {
          if tx.outputs[j].amount < TX_MIN_OUTPUT_AMOUNT {
            assert tx.outputs[j] in tx.outputs;
            isPending := true;
          }
          j := j + 1;
        }
        ghost var small := !isPending;
        j := 0;
        while !isPending && j < |tx.inputs|
          invariant j <= |tx.inputs| && (isPending ==> IsPending(c, l, tx))
          invariant !isPending ==> small && forall k :: 0 <= k < j ==> !InputPending(c, l, tx, tx.inputs[k])
        {
          var i := tx.inputs[j];
          assert i in tx.inputs;
          if i.sequence < UINT32_MAX - 1 {
            isPending := true;
          }
          if i.sequence < UINT32_MAX && tx.lockTime < TX_MAX_LOCK_HEIGHT && tx.lockTime > (c.blockHeight + 1) % W32 {
            isPending := true;
          }
          if i.sequence < UINT32_MAX && tx.lockTime > c.now {
            isPending := true;
          }
          if i.hash in pendingTx {
            isPending := true;
          }
          j := j + 1;
        }
      }
    }

    /** The outputs of tx: their addresses are used, and those of the wallet are new unspent outputs. */
    method AddOutputs(c: Context, tx: Tx, balance: u64) returns (balance': u64)
      requires c.allAddrs == allAddrs && tx.hash in c.allTx && c.allTx[tx.hash] == tx
      requires balance == Sum(c, utxos) % W64
      modifies `utxos, `usedAddrs
      ensures utxos == old(utxos) + Credits(c, tx, |tx.outputs|) && usedAddrs == old(usedAddrs) + UsedBy(tx, |tx.outputs|)
      ensures balance' == Sum(c, utxos) % W64
    {
      hide Sum;
      hide Amount;
      balance' := balance;
      var j := 0;
      assert tx.outputs[..0] == [];
      while j < |tx.outputs|
        invariant j <= |tx.outputs| && balance' == Sum(c, utxos) % W64
        invariant utxos == old(utxos) + Credits(c, tx, j) && usedAddrs == old(usedAddrs) + UsedBy(tx, j)
      {
        var o := tx.outputs[j];
        assert tx.outputs[..j + 1] == tx.outputs[..j] + [o];
        if o.address != NO_ADDRESS {
          usedAddrs := usedAddrs + {o.address};
          if o.address in allAddrs {
            ghost var was := utxos;
            var u := Outpoint(tx.hash, j);
            utxos := utxos + [u];
            SumOneMore(c, was, u);
            AmountIs(c, tx, j);
            balance' := (balance' + o.amount) % W64;
            AddWrapped(Sum(c, was), o.amount);
          }
        }
        j := j + 1;
      }
    }

    /** The list of unspent outputs while it is swept: unchanged below j, without the spent ones from there on. */
    ghost predicate Sweeping(c: Context, was: seq<Outpoint>, j: nat, balance: u64)
      reads `utxos, `spentOutputs
    {
      && j <= |was| && utxos == was[..j] + Unspent(was[j..], spentOutputs) && balance == Sum(c, utxos) % W64
    }

    method SweepOne(c: Context, ghost was: seq<Outpoint>, j: nat, balance: u64) returns (balance': u64)
      requires c.allTx == allTx && 0 < j && Sweeping(c, was, j, balance) && forall u :: u in was ==> Exists(c, u)
      modifies `utxos
      ensures Sweeping(c, was, j - 1, balance')
    {
      hide Sum;
      hide Amount;
      hide Unspent;
      balance' := balance;
      var u := utxos[j - 1];
      ghost var p, q := was[..j - 1], Unspent(was[j..], spentOutputs);
      assert u == was[j - 1] && u in was;
      assert was[..j] == p + [u] && was[j - 1..] == [u] + was[j..];
      UnspentOneMore(u, was[j..], spentOutputs);
      assert utxos == p + ([u] + q);
      if u in spentOutputs {
        var amount := allTx[u.hash].outputs[u.n].amount;
        SumWithout(c, p, u, q);
        AmountOf(c, u);
        RemoveWrapped(Sum(c, p + q), amount);
        balance' := (balance' + W64 - amount) % W64;
        utxos := utxos[..j - 1] + utxos[j..];
        assert utxos == p + q;
      }
    }

    /** The whole list of unspent outputs, checked against the spent ones from its end. */
    method Sweep(c: Context, balance: u64) returns (balance': u64)
      requires c.allTx == allTx && balance == Sum(c, utxos) % W64 && forall u :: u in utxos ==> Exists(c, u)
      modifies `utxos
      ensures utxos == Unspent(old(utxos), spentOutputs) && balance' == Sum(c, utxos) % W64
    {
      hide Sum;
      hide Unspent;
      hide Exists;
      balance' := balance;
      ghost var was := utxos;
      var j := |utxos|;
      assert was[..j] == was && was[j..] == [];
      NothingUnspent(spentOutputs);
      assert was + [] == was;
      while j > 0
        invariant 0 <= j && Sweeping(c, was, j, balance')
      {
        balance' := SweepOne(c, was, j, balance');
        j := j - 1;
      }
      assert was[..0] == [] && was[0..] == was && [] + Unspent(was, spentOutputs) == Unspent(was, spentOutputs);
    }

    /** One round of the recomputation. */
    method ApplyTx(c: Context, tx: Tx, balance: u64, prevBalance: u64, ghost l: Ledger) returns (balance': u64, prevBalance': u64)
      requires c.allAddrs == allAddrs && c.allTx == allTx && tx.hash in c.allTx && c.allTx[tx.hash] == tx
      requires Tracks(l, balance) && prevBalance == balance == Sum(c, utxos) % W64 && forall u :: u in utxos ==> Exists(c, u)
      modifies `utxos, `totalSent, `totalReceived, `balanceHist, `spentOutputs, `invalidTx, `pendingTx, `usedAddrs
      ensures Tracks(Apply(c, l, tx), balance') && prevBalance' == balance' == Sum(c, utxos) % W64
      ensures forall u :: u in utxos ==> Exists(c, u)
    {
      hide Sum;
      hide Unspent;
      hide Exists;
      hide IsInvalid;
      hide IsPending;
      balance', prevBalance' := balance, prevBalance;
      var isInvalid := CheckInvalid(tx, l, balance);
      if isInvalid {
        invalidTx := invalidTx + {tx.hash};
        balanceHist := balanceHist + [balance];
        return;
      }
      AddSpentOutputs(tx);
      var isPending := CheckPending(c, tx, l);
      if isPending {
        pendingTx := pendingTx + {tx.hash};
        balanceHist := balanceHist + [balance];
        return;
      }
      balance' := AddOutputs(c, tx, balance);
      CreditsExist(c, tx);
      balance' := Sweep(c, balance');
      if prevBalance < balance' {
        totalReceived := (totalReceived + (balance' - prevBalance)) % W64;
      }
      if balance' < prevBalance {
        totalSent := (totalSent + (prevBalance - balance')) % W64;
      }
      balanceHist := balanceHist + [balance'];
      prevBalance' := balance';
    }

    /** One round of the loop over the list of transactions. */
    method ApplyNext(c: Context, tx: Tx, balance: u64, prevBalance: u64, ghost txs: seq<Tx>, ghost i: nat)
      returns (balance': u64, prevBalance': u64)
      requires c.allAddrs == allAddrs && c.allTx == allTx && tx.hash in c.allTx && c.allTx[tx.hash] == tx
      requires i < |txs| && txs[i] == tx && Tracks(Replay(c, txs[..i]), balance)
      requires prevBalance == balance == Sum(c, utxos) % W64 && forall u :: u in utxos ==> Exists(c, u)
      modifies `utxos, `totalSent, `totalReceived, `balanceHist, `spentOutputs, `invalidTx, `pendingTx, `usedAddrs
      ensures Tracks(Replay(c, txs[..i + 1]), balance') && prevBalance' == balance' == Sum(c, utxos) % W64
      ensures forall u :: u in utxos ==> Exists(c, u)
    {
      hide Apply;
      hide Sum;
      hide Exists;
      hide Replay;
      balance', prevBalance' := ApplyTx(c, tx, balance, prevBalance, Replay(c, txs[..i]));
      ReplayMore(c, txs[..i], tx);
      assert txs[..i + 1] == txs[..i] + [tx];
    }

    /** The loop over the list of transactions. */
    method ApplyAll(c: Context, ghost txs: seq<Tx>) returns (current: u64)
      requires Known(allTx, rank) && (forall h :: h in transactions ==> h in allTx) && txs == TxsOf(allTx, transactions)
      requires c.allAddrs == allAddrs && c.allTx == allTx
      requires utxos == [] && Tracks(Replay(c, []), 0)
      modifies `utxos, `totalSent, `totalReceived, `balanceHist, `spentOutputs, `invalidTx, `pendingTx, `usedAddrs
      ensures Tracks(Replay(c, txs), current)
    {
      hide Apply;
      hide Sum;
      hide Exists;
      hide Replay;
      hide Known;
      hide TxsOf;
      var prevBalance: u64 := 0;
      current := 0;
      OwnHashes();
      EmptySum(c);
      assert txs[..0] == [];
      var i := 0;
      while i < |transactions|
        invariant i <= |transactions| && Tracks(Replay(c, txs[..i]), current)
        invariant prevBalance == current == Sum(c, utxos) % W64 && forall u :: u in utxos ==> Exists(c, u)
      {
        current, prevBalance := ApplyNext(c, allTx[transactions[i]], current, prevBalance, txs, i);
        i := i + 1;
      }
      assert txs[..i] == txs;
    }

    method StartOver(ghost c: Context)
      modifies `utxos, `totalSent, `totalReceived, `balanceHist, `spentOutputs, `invalidTx, `pendingTx, `usedAddrs
      ensures utxos == [] && Tracks(Replay(c, []), 0)
    {
      hide Replay;
      utxos, balanceHist, spentOutputs, invalidTx, pendingTx, usedAddrs := [], [], {}, {}, {}, {};
      totalSent, totalReceived := 0, 0;
      StartOfReplay(c);
    }

    /** _BRWalletUpdateBalance */
    method UpdateBalance(now: int)
      requires Known(allTx, rank) && forall h :: h in transactions ==> h in allTx
      modifies `utxos, `balance, `totalSent, `totalReceived, `balanceHist, `spentOutputs, `invalidTx, `pendingTx, `usedAddrs,
               `lastContext, `lastList
      ensures UpToDate(now)
    {
      hide Replay;
      hide Known;
      hide TxsOf;
      var c := Context(allTx, allAddrs, blockHeight, now);
      StartOver(c);
      var current := ApplyAll(c, TxsOf(allTx, transactions));
      balance := current;
      lastContext, lastList := c, transactions;
    }

    lemma OwnHashes()
      requires Known(allTx, rank)
      ensures forall h :: h in allTx ==> allTx[h].hash == h
    {
    }

    lemma JustBalanced(now: int)
      requires ValidList() && UpToDate(now)
      ensures Balanced()
    {
      hide Replay;
      HoldsAtFirst(TheContext(now), transactions, rank, allTx, allAddrs);
    }

    lemma NowBalanced(now: int)
      requires Valid() && (forall h :: h in transactions ==> h in allTx) && UpToDate(now)
      ensures Balanced()
    {
      hide Replay;
      hide StillHolds;
      JustBalanced(now);
    }

    /**
     * Whatever has happened to a wallet since its balance was computed: when everything is confirmed, it holds exactly the
     * outputs that it has not spent and that pay to an address it had then, and their sum; these are all of its outputs
     * exactly if none that is unspent pays to an address it has got since.
     */
    lemma ConfirmedBalance(now: int)
      requires Valid() && Balanced() && AllConfirmed(TxsOf(allTx, transactions))
      ensures var c, txs := TheContext(now), TxsOf(allTx, transactions);
              var before := c.(allAddrs := lastContext.allAddrs);
              && NoDuplicates(utxos) && (forall u :: u in utxos <==> OwnedBy(before, txs, u) && !SpentIn(txs, u))
              && balance == Sum(c, utxos) % W64 && Sum(c, utxos) <= TotalPaid(before, txs)
              && |balanceHist| == |transactions|
              && ((forall u :: u in utxos <==> OwnedBy(c, txs, u) && !SpentIn(txs, u)) <==> PaysOnlyTo(c, txs, lastContext.allAddrs))
    {
      hide Replay;
      hide Sum;
      hide OwnedBy;
      hide SpentIn;
      hide TotalPaid;
      hide NoneTurnedAway;
      hide PaysOnlyTo;
      hide Touches;
      var c, txs := TheContext(now), TxsOf(allTx, transactions);
      assert Ledgers.Listed(c, txs);
      var past := TxsOf(lastContext.allTx, lastList);
      SamePast(lastContext, lastList, TheLedger(), allTx, transactions, allAddrs);
      LeftSince(lastContext, past, c, txs);
      BalanceAddsUp(lastContext, past);
      LeftIsPaid(c.(allAddrs := lastContext.allAddrs), txs, utxos);
      SameAmounts(c, c.(allAddrs := lastContext.allAddrs), utxos);
      SameLength(transactions, lastList);
    }

    // ---------- the list of transactions ----------

    /** _BRWalletTxCompare for two transactions of the wallet */
    function CompareTx(a: Hash, b: Hash): int
      requires Known(allTx, rank) && a in allTx && b in allTx
      reads `allTx, `internalChain, `externalChain
    {
      Compare(allTx, rank, internalChain, externalChain, allTx[a], allTx[b])
    }

    /** _BRWalletInsertTx: insertion sort, by a comparison that is only known to respect block heights. */
    method InsertTx(h: Hash) returns (ghost at: nat)
      requires ValidList() && h in allTx && h !in transactions
      modifies `transactions
      ensures ValidList()
      ensures IsPlace(allTx, rank, Chains(internalChain, externalChain), old(transactions), at, h)
      ensures transactions == Inserted(old(transactions), at, h)
      ensures forall x :: x in transactions <==> x in old(transactions) || x == h
    {
      hide Compare;
      hide Known;
      hide Sorted;
      hide Shifted;
      hide Inserted;
      hide Distinct;
      ghost var was, chains := transactions, Chains(internalChain, externalChain);
      var i := |transactions|;
      transactions := transactions + [h];
      ShiftStarts(was, h);
      while i > 0 && CompareTx(transactions[i - 1], h) > 0
        invariant 0 <= i <= |was| == |transactions| - 1 && Shifted(was, transactions, i)
        invariant i > 0 ==> transactions[i - 1] == was[i - 1] && was[i - 1] in was
        invariant AllAbove(allTx, rank, chains, was, i, h)
      {
        ShiftOne(was, transactions, i);
        transactions := transactions[i := transactions[i - 1]];
        i := i - 1;
        if i > 0 {
          ShiftOne(was, transactions, i);
        }
      }
      ShiftEnds(was, transactions, i, h);
      transactions := transactions[i := h];
      at := i;
      PlaceKeepsSorted(allTx, rank, chains, was, at, h);
    }

    /** _BRWalletContainsTx */
    method ContainsTx(tx: Tx) returns (r: bool)
      ensures r <==> Touches(allTx, allAddrs, tx)
      ensures r <==>
                || (exists o :: o in tx.outputs && o.address in allAddrs)
                || (exists i :: i in tx.inputs && i.hash in allTx && i.index < |allTx[i.hash].outputs|
                      && allTx[i.hash].outputs[i.index].address in allAddrs)
    {
      r := false;
      var i := 0;
      while !r && i < |tx.outputs|
        invariant i <= |tx.outputs| && (r ==> exists o :: o in tx.outputs && o.address in allAddrs)
        invariant !r ==> forall k :: 0 <= k < i ==> tx.outputs[k].address !in allAddrs
      {
        if tx.outputs[i].address in allAddrs {
          assert tx.outputs[i] in tx.outputs;
          r := true;
        }
        i := i + 1;
      }
      i := 0;
      while !r && i < |tx.inputs|
        invariant i <= |tx.inputs| && (r ==> Touches(allTx, allAddrs, tx))
        invariant !r ==> forall k :: 0 <= k < |tx.outputs| ==> tx.outputs[k].address !in allAddrs
        invariant !r ==> forall k :: 0 <= k < i ==> !(tx.inputs[k].hash in allTx && tx.inputs[k].index < |allTx[tx.inputs[k].hash].outputs|
                                                     && allTx[tx.inputs[k].hash].outputs[tx.inputs[k].index].address in allAddrs)
      {
        var input := tx.inputs[i];
        assert input in tx.inputs;
        if input.hash in allTx {
          var t := allTx[input.hash];
          if input.index < |t.outputs| && t.outputs[input.index].address in allAddrs {
            r := true;
          }
        }
        i := i + 1;
      }
    }

    // ---------- addresses ----------

    /** The unused addresses at the end of a chain start at i. */
    ghost predicate IsGap(chain: seq<Address>, i: nat)
      reads `usedAddrs
    {
      i <= |chain| && (forall k :: i <= k < |chain| ==> chain[k] !in usedAddrs) && (i > 0 ==> chain[i - 1] in usedAddrs)
    }

    method TrailingUnused(chain: seq<Address>) returns (i: nat)
      ensures IsGap(chain, i)
    {
      i := |chain|;
      while i > 0 && chain[i - 1] !in usedAddrs
        invariant 0 <= i <= |chain| && forall k :: i <= k < |chain| ==> chain[k] !in usedAddrs
      {
        i := i - 1;
      }
    }

    /** The loop that derives new addresses until gapLimit unused ones end the chain, or the derivation fails. */
    method ExtendChain(chain: seq<Address>, start: nat, gapLimit: nat, internal: bool) returns (chain': seq<Address>, i: nat)
      requires DerivesDistinct(derive) && Derived(derive, internal, chain) && IsGap(chain, start)
      ensures Derived(derive, internal, chain') && chain <= chain' && IsGap(chain', i)
      ensures i + gapLimit <= |chain'| || derive(internal, |chain'|) == NO_ADDRESS
      ensures |chain'| <= |chain| || |chain'| <= i + gapLimit
    {
      chain', i := chain, start;
      while i + gapLimit > |chain'|
        invariant Derived(derive, internal, chain') && chain <= chain' && IsGap(chain', i)
        invariant |chain'| <= |chain| || |chain'| <= i + gapLimit
        decreases usedAddrs - AddressesOf(chain'), i + gapLimit - |chain'|
      {
        var count := |chain'|;
        var address := derive(internal, count);
        if address == NO_ADDRESS {
          break;
        }
        ghost var was := chain';
        NotInChain(derive, internal, was);
        chain' := chain' + [address];
        AddressesOfMore(was, address);
        count := count + 1;
        if address in usedAddrs {
          i := count;
        }
      }
    }

    /**
     * BRWalletUnusedAddrs: gapLimit addresses behind the last used one of the chain, unless the derivation fails; moved
     * tells whether growing the chain has moved it in memory.
     */
    method UnusedAddrs(gapLimit: nat, internal: bool, moved: bool) returns (addrs: seq<Address>)
      requires gapLimit > 0 && ValidChains()
      modifies `internalChain, `externalChain, `allAddrs
      ensures ValidChains() && old(allAddrs) <= allAddrs && (old(Balanced()) ==> Balanced())
      ensures old(internalChain) <= internalChain && old(externalChain) <= externalChain
      ensures if internal then externalChain == old(externalChain) else internalChain == old(internalChain)
      ensures forall k :: 0 <= k < |addrs| ==> addrs[k] in allAddrs && addrs[k] !in usedAddrs
      ensures var chain := if internal then internalChain else externalChain;
              && (|addrs| == gapLimit || (addrs == [] && derive(internal, |chain|) == NO_ADDRESS))
              && (exists i: nat :: IsGap(chain, i) && (addrs != [] ==> addrs <= chain[i..])
                              && (chain == old(if internal then internalChain else externalChain) || |chain| <= i + gapLimit))
      ensures HasGap(internal, if internal then internalChain else externalChain, gapLimit)
    {
      hide Derived;
      hide Wallet.IsGap;
      hide StillHolds;
      var chain := if internal then internalChain else externalChain;
      var i := TrailingUnused(chain);
      var addrChain;
      addrChain, i := ExtendChain(chain, i, gapLimit, internal);
      addrs := PickUnused(addrChain, i, gapLimit);
      GapIsLong(internal, addrChain, i, gapLimit);
      ghost var was := allAddrs;
      StoreChain(internal, addrChain, moved);
      MoreAddressesBalanced(was);
    }

    /** The first gapLimit unused addresses, or none if there are fewer. */
    method PickUnused(chain: seq<Address>, i: nat, gapLimit: nat) returns (addrs: seq<Address>)
      requires IsGap(chain, i) && gapLimit > 0
      ensures forall a :: a in addrs ==> a in chain && a !in usedAddrs
      ensures if i + gapLimit <= |chain| then |addrs| == gapLimit && addrs <= chain[i..] else addrs == []
    {
      addrs := [];
      if i + gapLimit <= |chain| {
        addrs := chain[i..i + gapLimit];
        assert addrs == chain[i..][..gapLimit];
      }
    }

    lemma GapIsLong(internal: bool, chain: seq<Address>, i: nat, gapLimit: nat)
      requires IsGap(chain, i) && (i + gapLimit <= |chain| || derive(internal, |chain|) == NO_ADDRESS)
      ensures i <= |chain| && HasGap(internal, chain, gapLimit)
    {
    }

    lemma MoreAddressesBalanced(addrs: set<Address>)
      requires addrs <= allAddrs
      ensures StillHolds(lastContext, lastList, TheLedger(), allTx, transactions, addrs) ==> Balanced()
    {
      if StillHolds(lastContext, lastList, TheLedger(), allTx, transactions, addrs) {
        HoldsStill(lastContext, lastList, TheLedger(), allTx, transactions, addrs, allTx, transactions, allAddrs);
      }
    }

    /** The chain ends with a number of unused addresses, unless no further ones can be derived. */
    ghost predicate HasGap(internal: bool, chain: seq<Address>, gapLimit: nat)
      reads `usedAddrs
    {
      || derive(internal, |chain|) == NO_ADDRESS
      || (|chain| >= gapLimit && forall k :: |chain| - gapLimit <= k < |chain| ==> chain[k] !in usedAddrs)
    }

    ghost predicate HasGaps()
      reads `internalChain, `externalChain, `usedAddrs
    {
      && HasGap(false, externalChain, SEQUENCE_GAP_LIMIT_EXTERNAL)
      && HasGap(true, internalChain, SEQUENCE_GAP_LIMIT_INTERNAL)
    }

    /** The lengthened chain, and its new addresses among all of the wallet's addresses. */
    method StoreChain(internal: bool, addrChain: seq<Address>, moved: bool)
      requires ValidChains() && Derived(derive, internal, addrChain)
      requires (if internal then internalChain else externalChain) <= addrChain
      modifies `internalChain, `externalChain, `allAddrs
      ensures ValidChains() && old(allAddrs) <= allAddrs
      ensures internalChain == (if internal then addrChain else old(internalChain))
      ensures externalChain == (if internal then old(externalChain) else addrChain)
      ensures forall a :: a in addrChain ==> a in allAddrs
    {
      var chain := if internal then internalChain else externalChain;
      AddressesOfRest(chain, addrChain);
      if internal {
        internalChain := addrChain;
      } else {
        externalChain := addrChain;
      }
      if moved {
        allAddrs := AddressesOf(internalChain) + AddressesOf(externalChain);
      } else {
        allAddrs := allAddrs + AddressesOf(addrChain[|chain|..]);
      }
    }

    // ---------- registering, confirming and removing transactions ----------

    /** BRWalletRegisterTransaction: a transaction of the wallet is listed; one that is not is only known while unconfirmed. */
    method RegisterTransaction(tx: Tx, isSigned: bool, now: int, moved: bool) returns (r: bool)
      requires Valid() && SpendsBelow(rank, tx) && tx.blockHeight <= TX_UNCONFIRMED
      modifies this
      ensures Valid()
      ensures !isSigned || tx.hash in old(allTx) ==>
                r == isSigned && allTx == old(allTx) && transactions == old(transactions) && TheLedger() == old(TheLedger())
      ensures isSigned && tx.hash !in old(allTx) ==> r == Touches(old(allTx), old(allAddrs), tx)
      ensures isSigned && tx.hash !in old(allTx) && r ==>
                && allTx == old(allTx)[tx.hash := tx] && (forall x :: x in transactions <==> x in old(transactions) || x == tx.hash)
                && TheLedger() == Replay(Context(allTx, old(allAddrs), blockHeight, now), TxsOf(allTx, transactions))
      ensures isSigned && tx.hash !in old(allTx) && !r ==>
                && allTx == (if tx.blockHeight == TX_UNCONFIRMED then old(allTx)[tx.hash := tx] else old(allTx))
                && transactions == old(transactions) && TheLedger() == old(TheLedger())
      ensures blockHeight == old(blockHeight) && old(allAddrs) <= allAddrs && (old(Balanced()) ==> Balanced())
      ensures isSigned && tx.hash !in old(allTx) && r ==> lastContext == Context(allTx, old(allAddrs), blockHeight, now) && lastList == transactions
      ensures isSigned && tx.hash !in old(allTx) && r ==> HasGaps()
    {
      hide Touches;
      hide Replay;
      hide Wallet.Balanced;
      hide Wallet.HasGaps;
      if !isSigned {
        return false;
      }
      r := true;
      if tx.hash in allTx {
        return;
      }
      var mine := ContainsTx(tx);
      if mine {
        AddOwn(tx, now, moved);
      } else {
        if tx.blockHeight == TX_UNCONFIRMED {
          AddKnown(tx);
        }
        r := false;
      }
    }

    /** A new transaction of the wallet, which may have used up addresses. */
    method AddOwn(tx: Tx, now: int, moved: bool)
      requires Valid() && SpendsBelow(rank, tx) && tx.blockHeight <= TX_UNCONFIRMED && tx.hash !in allTx
      requires Touches(allTx, allAddrs, tx)
      modifies this
      ensures Valid()
      ensures allTx == old(allTx)[tx.hash := tx] && (forall x :: x in transactions <==> x in old(transactions) || x == tx.hash)
      ensures TheLedger() == Replay(Context(allTx, old(allAddrs), blockHeight, now), TxsOf(allTx, transactions))
      ensures lastContext == Context(allTx, old(allAddrs), blockHeight, now) && lastList == transactions
      ensures blockHeight == old(blockHeight) && old(allAddrs) <= allAddrs && Balanced() && HasGaps()
    {
      hide Touches;
      hide Replay;
      hide Known;
      hide Sorted;
      hide Distinct;
      hide Inserted;
      hide IsPlace;
      hide Wallet.ValidChains;
      hide Wallet.Balanced;
      hide Wallet.HasGaps;
      hide SpendsBelow;
      hide StillHolds;
      hide TxsOf;
      AddKnown(tx);
      ghost var at := InsertTx(tx.hash);
      UpdateBalance(now);
      JustBalanced(now);
      MoreAddresses(moved);
    }

    /** The gaps at the ends of both chains, filled up again. */
    method MoreAddresses(moved: bool)
      requires Valid()
      modifies `internalChain, `externalChain, `allAddrs
      ensures Valid() && old(allAddrs) <= allAddrs && (old(Balanced()) ==> Balanced()) && HasGaps()
    {
      hide Wallet.Balanced;
      hide Touches;
      hide Known;
      hide Sorted;
      ghost var addrs := allAddrs;
      var added := UnusedAddrs(SEQUENCE_GAP_LIMIT_EXTERNAL, false, moved);
      added := UnusedAddrs(SEQUENCE_GAP_LIMIT_INTERNAL, true, moved);
      AllTouchMore(allTx, addrs, allTx, allAddrs, transactions);
    }

    /** BRSetAdd(wallet->allTx, tx), for a transaction that is new */
    method AddKnown(tx: Tx)
      requires Valid() && SpendsBelow(rank, tx) && tx.blockHeight <= TX_UNCONFIRMED && tx.hash !in allTx
      modifies `allTx
      ensures Valid() && allTx == old(allTx)[tx.hash := tx] && (old(Balanced()) ==> Balanced())
      ensures Touches(old(allTx), allAddrs, tx) ==> Touches(allTx, allAddrs, tx)
    {
      hide Touches;
      hide Height;
      ghost var was := allTx;
      allTx := allTx[tx.hash := tx];
      HeightsKept(was, allTx, transactions);
      SortedElsewhere(was, allTx, transactions);
      AllTouchMore(was, allAddrs, allTx, allAddrs, transactions);
      if Touches(was, allAddrs, tx) {
        TouchesMore(was, allAddrs, allTx, allAddrs, tx);
      }
      KnownBalanced(was);
    }

    lemma KnownBalanced(was: map<Hash, Tx>)
      requires forall h :: h in was ==> h in allTx && allTx[h] == was[h]
      ensures StillHolds(lastContext, lastList, TheLedger(), was, transactions, allAddrs) ==> Balanced()
    {
      if StillHolds(lastContext, lastList, TheLedger(), was, transactions, allAddrs) {
        HoldsStill(lastContext, lastList, TheLedger(), was, transactions, allAddrs, allTx, transactions, allAddrs);
      }
    }

    /** Takes h out of the list, if it is there, and puts it back where its height belongs. */
    method Reinsert(h: Hash, ghost was: map<Hash, Tx>)
      requires Known(allTx, rank) && ListedOnce(allTx, transactions) && h in allTx
      requires Sorted(was, transactions) && forall x :: x in transactions && x != h ==> Height(allTx, x) == Height(was, x)
      modifies `transactions
      ensures ValidList() && forall x :: x in transactions <==> x in old(transactions)
    {
      hide Known;
      hide Height;
      hide Inserted;
      hide IsPlace;
      ghost var list := transactions;
      var k := |transactions|;
      while k > 0 && transactions[k - 1] != h
        invariant 0 <= k <= |list| && transactions == list && forall x :: k <= x < |list| ==> list[x] != h
      {
        k := k - 1;
      }
      if k > 0 {
        RemovedSorted(was, list, k - 1);
        RemovedSorted(allTx, list, k - 1);
        transactions := transactions[..k - 1] + transactions[k..];
        assert transactions == Removed(list, k - 1);
        SortedElsewhere(was, allTx, transactions);
        ghost var at := InsertTx(h);
      } else {
        SortedElsewhere(was, allTx, transactions);
      }
    }

    lemma ListIsKnown()
      requires Valid()
      ensures Known(allTx, rank) && forall h :: h in transactions ==> h in allTx
    {
    }

    /** What BRWalletUpdateTransactions does to one transaction that it finds with another height or time. */
    method UpdateOne(h: Hash, height: u32, timestamp: u32) returns (mine: bool)
      requires Valid() && h in allTx && height <= TX_UNCONFIRMED
      modifies `allTx, `transactions
      ensures Valid() && forall x :: x in transactions <==> x in old(transactions)
      ensures h in transactions ==> mine
      ensures allTx == if mine || height == TX_UNCONFIRMED then old(allTx)[h := Timed(old(allTx)[h], height, timestamp)]
                       else old(allTx) - {h}
    {
      hide Touches;
      hide Height;
      ghost var was := allTx;
      var tx := Timed(allTx[h], height, timestamp);
      TimedKnown(was, rank, h, height, timestamp);
      allTx := allTx[h := tx];
      TimedTouch(was, allAddrs, h, tx, transactions);
      mine := ContainsTx(tx);
      HeightsElsewhere(was, h, tx);
      if mine {
        Reinsert(h, was);
      } else {
        SortedElsewhere(was, allTx, transactions);
        if height != TX_UNCONFIRMED {
          Forget(h);
          assert allTx == was - {h};
        }
      }
    }

    /** BRSetRemove(wallet->allTx, tx), for a transaction that does not touch the wallet */
    method Forget(h: Hash)
      requires Valid() && h in allTx && !Touches(allTx, allAddrs, allTx[h])
      modifies `allTx
      ensures Valid() && allTx == old(allTx) - {h}
    {
      hide Height;
      ghost var was := allTx;
      assert h !in transactions;
      allTx := allTx - {h};
      HeightsKept(was, allTx, transactions);
      SortedElsewhere(was, allTx, transactions);
      AllTouchMore(was, allAddrs, allTx, allAddrs, transactions);
    }

    /** One round of the loop over the hashes. */
    method UpdateHash(h: Hash, height: u32, timestamp: u32, ghost was: map<Hash, Tx>, ghost done: seq<Hash>) returns (updated: bool)
      requires Valid() && height <= TX_UNCONFIRMED && TimesChanged(was, allTx, done, height, timestamp)
      modifies `allTx, `transactions
      ensures Valid() && forall x :: x in transactions <==> x in old(transactions)
      ensures TimesChanged(was, allTx, done + [h], height, timestamp)
      ensures h in transactions && h in old(allTx) && old(allTx)[h] != Timed(old(allTx)[h], height, timestamp) ==> updated
    {
      hide Wallet.Valid;
      hide TimesChanged;
      updated := false;
      ghost var all := allTx;
      if h in allTx && (allTx[h].blockHeight != height || allTx[h].timestamp != timestamp) {
        updated := UpdateOne(h, height, timestamp);
      }
      TimesChangedMore(was, all, allTx, done, h, height, timestamp);
    }

    /** BRWalletUpdateTransactions: returns the hashes that are reported as updated. */
    method UpdateTransactions(txHashes: seq<Hash>, height: u32, timestamp: u32, now: int) returns (hashes: seq<Hash>)
      requires Valid() && height <= TX_UNCONFIRMED
      modifies this
      ensures Valid() && forall x :: x in transactions <==> x in old(transactions)
      ensures blockHeight == if height > old(blockHeight) then height else old(blockHeight)
      ensures TimesChanged(old(allTx), allTx, txHashes, height, timestamp)
      ensures forall x :: x in transactions ==>
                && x in allTx && x in old(allTx)
                && allTx[x] == if x in txHashes then old(allTx)[x].(blockHeight := height, timestamp := timestamp) else old(allTx)[x]
      ensures UpToDate(now) || TheLedger() == old(TheLedger())
      ensures old(Balanced()) ==> Balanced()
      ensures forall x :: x in hashes ==> x in txHashes
      ensures AllReported(old(allTx), transactions, txHashes, hashes, height, timestamp)
      ensures (exists x :: x in hashes && (x in old(pendingTx) || x in old(invalidTx))) ==> UpToDate(now)
      ensures internalChain == old(internalChain) && externalChain == old(externalChain) && allAddrs == old(allAddrs)
    {
      hide Replay;
      hide Wallet.Valid;
      hide TimesChanged;
      if height > blockHeight {
        blockHeight := height;
      }
      var needsUpdate;
      hashes, needsUpdate := UpdateEach(txHashes, height, timestamp);
      ListIsKnown();
      TimesOfList(old(allTx), allTx, txHashes, height, timestamp, transactions);
      if needsUpdate {
        UpdateBalance(now);
        NowBalanced(now);
      } else {
        TimesBalanced(old(allTx), old(transactions), txHashes, hashes, height, timestamp);
      }
    }

    /** The balance still holds while no transaction that was turned away has changed. */
    lemma TimesBalanced(was: map<Hash, Tx>, list: seq<Hash>, txHashes: seq<Hash>, hashes: seq<Hash>, height: u32, timestamp: u32)
      requires (forall x :: x in transactions <==> x in list) && AllReported(was, transactions, txHashes, hashes, height, timestamp)
      requires forall x :: x in transactions ==> x in allTx && x in was && allTx[x] == TimedIf(was, x, txHashes, height, timestamp)
      requires !exists x :: x in hashes && (x in pendingTx || x in invalidTx)
      ensures StillHolds(lastContext, lastList, TheLedger(), was, list, allAddrs) ==> Balanced()
    {
      if StillHolds(lastContext, lastList, TheLedger(), was, list, allAddrs) {
        HoldsStill(lastContext, lastList, TheLedger(), was, list, allAddrs, allTx, transactions, allAddrs);
      }
    }

    /** The loop over the hashes. */
    method UpdateEach(txHashes: seq<Hash>, height: u32, timestamp: u32) returns (hashes: seq<Hash>, needsUpdate: bool)
      requires Valid() && height <= TX_UNCONFIRMED
      modifies `allTx, `transactions
      ensures Valid() && forall x :: x in transactions <==> x in old(transactions)
      ensures TimesChanged(old(allTx), allTx, txHashes, height, timestamp)
      ensures forall x :: x in hashes ==> x in txHashes
      ensures AllReported(old(allTx), transactions, txHashes, hashes, height, timestamp)
      ensures needsUpdate <==> exists x :: x in hashes && (x in pendingTx || x in invalidTx)
    {
      hide Wallet.Valid;
      hide TimesChanged;
      hashes, needsUpdate := [], false;
      var i := 0;
      TimesUnchanged(allTx, height, timestamp);
      assert txHashes[..0] == [];
      while i < |txHashes|
        invariant i <= |txHashes| && Valid() && forall x :: x in transactions <==> x in old(transactions)
        invariant TimesChanged(old(allTx), allTx, txHashes[..i], height, timestamp)
        invariant forall x :: x in hashes ==> x in txHashes[..i]
        invariant AllReported(old(allTx), transactions, txHashes[..i], hashes, height, timestamp)
        invariant needsUpdate <==> exists x :: x in hashes && (x in pendingTx || x in invalidTx)
      {
        var h := txHashes[i];
        ListIsKnown();
        NotYetChanged(old(allTx), allTx, txHashes[..i], h, height, timestamp);
        var updated := UpdateHash(h, height, timestamp, old(allTx), txHashes[..i]);
        assert txHashes[..i + 1] == txHashes[..i] + [h];
        if updated {
          ghost var was := hashes;
          hashes := hashes + [h];
          if h in pendingTx || h in invalidTx {
            assert h in hashes;
            needsUpdate := true;
          }
          assert forall x :: x in hashes <==> x in was || x == h;
        }
        i := i + 1;
      }
      assert txHashes[..i] == txHashes;
    }

    /** BRWalletSetTxUnconfirmedAfter: returns the hashes that are reported as updated. */
    method SetTxUnconfirmedAfter(height: u32, now: int) returns (hashes: seq<Hash>)
      requires Valid()
      modifies this
      ensures Valid() && transactions == old(transactions) && blockHeight == height
      ensures UnconfirmedAfter(old(allTx), allTx, transactions, height)
      ensures forall h :: h in hashes <==> h in transactions && h in old(allTx) && old(allTx)[h].blockHeight > height
      ensures if hashes == [] then TheLedger() == old(TheLedger()) else UpToDate(now)
      ensures old(Balanced()) ==> Balanced()
      ensures internalChain == old(internalChain) && externalChain == old(externalChain) && allAddrs == old(allAddrs)
    {
      hide Replay;
      hide Wallet.Valid;
      hide UnconfirmedAfter;
      hide Reset;
      hide Known;
      hide ListedOnce;
      hide Sorted;
      hide AllTouch;
      hide Wallet.ValidChains;
      hide StillHolds;
      blockHeight := height;
      ghost var was := allTx;
      OpenValid();
      var i := FindAbove(height);
      hashes := transactions[i..];
      Unconfirm(hashes);
      UnconfirmedValid(was, i, height);
      ListIsKnown();
      if |hashes| > 0 {
        UpdateBalance(now);
        NowBalanced(now);
      } else {
        UnconfirmedBalanced(was, height);
      }
    }

    lemma UnconfirmedBalanced(was: map<Hash, Tx>, height: u32)
      requires UnconfirmedAfter(was, allTx, transactions, height)
      ensures StillHolds(lastContext, lastList, TheLedger(), was, transactions, allAddrs) ==> Balanced()
    {
      if StillHolds(lastContext, lastList, TheLedger(), was, transactions, allAddrs) {
        HoldsStill(lastContext, lastList, TheLedger(), was, transactions, allAddrs, allTx, transactions, allAddrs);
      }
    }

    lemma OpenValid()
      requires Valid()
      ensures ValidChains() && Known(allTx, rank) && ListedOnce(allTx, transactions) && Sorted(allTx, transactions)
      ensures AllTouch(allTx, allAddrs, transactions)
    {
    }

    /** Where the tail of transactions above a height starts. */
    method FindAbove(height: u32) returns (i: nat)
      requires Valid()
      ensures i <= |transactions| && forall h :: h in transactions ==> h in allTx
      ensures forall h :: h in transactions[i..] <==> h in transactions && h in allTx && allTx[h].blockHeight > height
    {
      hide Touches;
      i := |transactions|;
      while i > 0 && allTx[transactions[i - 1]].blockHeight > height
        invariant 0 <= i <= |transactions|
        invariant forall k :: i <= k < |transactions| ==> allTx[transactions[k]].blockHeight > height
      {
        i := i - 1;
      }
      TailIsAbove(allTx, transactions, i, height);
    }

    /** Resetting the heights of the tail keeps the wallet valid. */
    lemma UnconfirmedValid(was: map<Hash, Tx>, i: nat, height: u32)
      requires ValidChains() && Known(was, rank) && ListedOnce(was, transactions) && Sorted(was, transactions)
      requires AllTouch(was, allAddrs, transactions) && i <= |transactions| && Reset(was, allTx, transactions[i..])
      requires forall h :: h in transactions[i..] <==> h in transactions && h in was && was[h].blockHeight > height
      ensures Valid() && UnconfirmedAfter(was, allTx, transactions, height)
    {
      hide Touches;
      hide Height;
      UnconfirmedKnown(was, allTx, rank, transactions[i..]);
      UnconfirmedSorted(was, allTx, transactions, i, height);
      AllTouchMore(was, allAddrs, allTx, allAddrs, transactions);
    }

    /** The loop that resets the heights. */
    method Unconfirm(hashes: seq<Hash>)
      requires forall h :: h in hashes ==> h in allTx
      modifies `allTx
      ensures Reset(old(allTx), allTx, hashes)
    {
      var j := 0;
      while j < |hashes|
        invariant j <= |hashes| && Reset(old(allTx), allTx, hashes[..j])
      {
        var h := hashes[j];
        assert hashes[..j + 1] == hashes[..j] + [h];
        allTx := allTx[h := allTx[h].(blockHeight := TX_UNCONFIRMED)];
        j := j + 1;
      }
      assert hashes[..j] == hashes;
    }

    /** The transactions of the list that spend h, from the end of the list down to lower heights. */
    method FindDependents(h: Hash) returns (hashes: seq<Hash>)
      requires Valid() && h in allTx
      ensures forall t :: t in hashes ==> t in transactions && t in allTx && SpendsTx(allTx[t], h)
      ensures hashes == [] ==> Clean(allTx, transactions, {h})
    {
      hide Touches;
      hide Height;
      hide SpendsTx;
      hashes := [];
      var i := |transactions|;
      while i > 0
        invariant 0 <= i <= |transactions|
        invariant forall t :: t in hashes ==> t in transactions && t in allTx && SpendsTx(allTx[t], h)
        invariant hashes == [] ==> forall k :: i <= k < |transactions| ==> !SpendsTx(allTx[transactions[k]], h)
      {
        var t := transactions[i - 1];
        if allTx[t].blockHeight < allTx[h].blockHeight {
          LowerFromHere(allTx, transactions, i, h);
          break;
        }
        NoSelfSpend(allTx, rank, h);
        if t != h && SpendsTx(allTx[t], h) {
          hashes := hashes + [t];
        }
        i := i - 1;
      }
      if hashes == [] {
        NothingDepends(allTx, transactions, i, h);
      }
    }

    /**
     * BRWalletRemoveTransaction: removes h from the list, with everything that was found to depend on it; it stays known.
     * limit is any bound on the ranks of the known transactions.
     */
    method RemoveTransaction(h: Hash, now: int, ghost limit: nat) returns (ghost gone: set<Hash>)
      requires Valid() && forall x :: x in allTx ==> rank(x) <= limit
      modifies `transactions, `utxos, `balance, `totalSent, `totalReceived, `balanceHist, `spentOutputs, `invalidTx, `pendingTx, `usedAddrs,
               `lastContext, `lastList
      ensures Valid() && Known(allTx, rank) && IsLeft(allTx, rank, old(transactions), transactions, gone, h)
      ensures h in allTx ==> h in gone && UpToDate(now)
      ensures old(Balanced()) || h in allTx ==> Balanced()
      ensures h !in allTx ==> gone == {} && TheLedger() == old(TheLedger())
      decreases if h in allTx then limit - rank(h) else 0, |transactions|, 2
    {
      hide Replay;
      hide Wallet.ValidChains;
      hide ListedOnce;
      hide Sorted;
      hide AllTouch;
      hide IsLeft;
      hide Known;
      hide StillHolds;
      if h !in allTx {
        gone := {};
        LeftWhole(allTx, rank, transactions, h);
        return;
      }
      var hashes := FindDependents(h);
      if |hashes| > 0 {
        gone := RemoveWithDependents(h, hashes, now, limit);
      } else {
        gone := {h};
        RemoveAlone(h, now);
      }
      JustBalanced(now);
    }

    /** A transaction that others spend: they go first. */
    method RemoveWithDependents(h: Hash, hashes: seq<Hash>, now: int, ghost limit: nat) returns (ghost gone: set<Hash>)
      requires Valid() && h in allTx && forall x :: x in allTx ==> rank(x) <= limit
      requires hashes != [] && forall t :: t in hashes ==> t in transactions && t in allTx && SpendsTx(allTx[t], h)
      modifies `transactions, `utxos, `balance, `totalSent, `totalReceived, `balanceHist, `spentOutputs, `invalidTx, `pendingTx, `usedAddrs,
               `lastContext, `lastList
      ensures Valid() && Known(allTx, rank) && IsLeft(allTx, rank, old(transactions), transactions, gone, h) && h in gone && UpToDate(now)
      decreases limit - rank(h), |transactions|, 1
    {
      hide Replay;
      hide Wallet.ValidChains;
      hide ListedOnce;
      hide Sorted;
      hide AllTouch;
      hide IsLeft;
      hide Known;
      hide SpendsTx;
      ListIsKnown();
      gone := RemoveEach(h, hashes, now, limit);
      ghost var mid, more := transactions, {};
      LeftShorter(allTx, rank, old(transactions), mid, gone, h, hashes[0]);
      more := RemoveTransaction(h, now, limit);
      DescendsSelf(allTx, rank, h);
      LeftMore(allTx, rank, old(transactions), mid, transactions, gone, h, more, h);
      gone := gone + more;
    }

    /** A transaction that nothing in the list spends. */
    method RemoveAlone(h: Hash, now: int)
      requires Valid() && h in allTx && Clean(allTx, transactions, {h})
      modifies `transactions, `utxos, `balance, `totalSent, `totalReceived, `balanceHist, `spentOutputs, `invalidTx, `pendingTx, `usedAddrs,
               `lastContext, `lastList
      ensures Valid() && Known(allTx, rank) && IsLeft(allTx, rank, old(transactions), transactions, {h}, h) && UpToDate(now)
    {
      hide Replay;
      hide Wallet.ValidChains;
      hide ListedOnce;
      hide Sorted;
      hide AllTouch;
      hide IsLeft;
      hide Known;
      hide SpendsTx;
      hide Clean;
      RemoveFromList(h);
      ListIsKnown();
      UpdateBalance(now);
      LeftAlone(allTx, rank, old(transactions), transactions, h);
    }

    /** The removal of the dependent transactions, the first in the list first. */
    method RemoveEach(h: Hash, hashes: seq<Hash>, now: int, ghost limit: nat) returns (ghost gone: set<Hash>)
      requires Valid() && h in allTx && forall x :: x in allTx ==> rank(x) <= limit
      requires forall t :: t in hashes ==> t in transactions && t in allTx && SpendsTx(allTx[t], h)
      modifies `transactions, `utxos, `balance, `totalSent, `totalReceived, `balanceHist, `spentOutputs, `invalidTx, `pendingTx, `usedAddrs,
               `lastContext, `lastList
      ensures Valid() && Known(allTx, rank) && IsLeft(allTx, rank, old(transactions), transactions, gone, h)
      ensures forall t :: t in hashes ==> t in gone
      decreases limit - rank(h), |transactions|, 0
    {
      hide Replay;
      hide Wallet.Valid;
      hide IsLeft;
      hide Known;
      hide DescendsFrom;
      hide SpendsTx;
      ListIsKnown();
      gone := {};
      LeftWhole(allTx, rank, transactions, h);
      var i := |hashes|;
      while i > 0
        invariant 0 <= i <= |hashes| && Valid() && Known(allTx, rank) && IsLeft(allTx, rank, old(transactions), transactions, gone, h)
        invariant forall k :: i <= k < |hashes| ==> hashes[k] in gone
      {
        SpenderDescends(allTx, rank, hashes[i - 1], h);
        ghost var mid, more := transactions, {};
        more := RemoveTransaction(hashes[i - 1], now, limit);
        LeftMore(allTx, rank, old(transactions), mid, transactions, gone, h, more, hashes[i - 1]);
        gone := gone + more;
        i := i - 1;
      }
    }

    /** array_rm of the one entry that is h, if there is one */
    method RemoveFromList(h: Hash)
      requires Valid() && h in allTx && Clean(allTx, transactions, {h})
      modifies `transactions
      ensures Valid() && transactions == Without(old(transactions), {h}) && Clean(allTx, transactions, {h})
    {
      hide Known;
      hide Sorted;
      hide AllTouch;
      hide Clean;
      ghost var was := transactions;
      WithoutKeeps(allTx, was, {h});
      WithoutTouches(allTx, allAddrs, was, {h});
      var i := |transactions|;
      while i > 0
        invariant 0 <= i <= |was| && transactions == was && forall k :: i <= k < |was| ==> was[k] != h
      {
        if transactions[i - 1] == h {
          WithoutOne(was, i - 1);
          transactions := transactions[..i - 1] + transactions[i..];
          return;
        }
        i := i - 1;
      }
      WithoutStrangers(was, {h});
    }
  }

  lemma LowerFromHere(all: map<Hash, Tx>, list: seq<Hash>, i: nat, h: Hash)
    requires ListedOnce(all, list) && Sorted(all, list) && h in all && 0 < i <= |list|
    requires all[list[i - 1]].blockHeight < all[h].blockHeight
    ensures forall k :: 0 <= k < i ==> Height(all, list[k]) < Height(all, h)
  {
    forall k | 0 <= k < i
      ensures Height(all, list[k]) < Height(all, h)
    {
      assert k < i - 1 ==> Height(all, list[k]) <= Height(all, list[i - 1]);
    }
  }

  lemma NoSelfSpend(all: map<Hash, Tx>, rank: Rank, h: Hash)
    requires Known(all, rank) && h in all
    ensures !SpendsTx(all[h], h)
  {
  }

  lemma NothingDepends(all: map<Hash, Tx>, list: seq<Hash>, i: nat, h: Hash)
    requires i <= |list| && ListedOnce(all, list) && forall k :: 0 <= k < i ==> Height(all, list[k]) < Height(all, h)
    requires forall k :: i <= k < |list| ==> !SpendsTx(all[list[k]], h)
    ensures Clean(all, list, {h})
  {
    hide Height;
    hide SpendsTx;
    forall t | t in list && SpendsTx(all[t], h)
      ensures Height(all, t) < Height(all, h)
    {
      var k :| 0 <= k < |list| && list[k] == t;
    }
  }

  /** The transactions among hashes are unconfirmed, the others as they were. */
  ghost predicate Reset(was: map<Hash, Tx>, now: map<Hash, Tx>, hashes: seq<Hash>) {
    && (forall h :: h in now <==> h in was)
    && (forall h :: h in was ==> now[h] == if h in hashes then was[h].(blockHeight := TX_UNCONFIRMED) else was[h])
  }

  /** The listed transactions above a height are unconfirmed; the others are exactly as they were. */
  ghost predicate UnconfirmedAfter(was: map<Hash, Tx>, now: map<Hash, Tx>, list: seq<Hash>, height: u32) {
    && (forall h :: h in now <==> h in was)
    && (forall h :: h in was ==>
          now[h] == if h in list && was[h].blockHeight > height then was[h].(blockHeight := TX_UNCONFIRMED) else was[h])
  }

  /** In a sorted list, the longest tail above a height holds everything above it. */
  lemma TailIsAbove(all: map<Hash, Tx>, list: seq<Hash>, i: nat, height: u32)
    requires i <= |list| && ListedOnce(all, list) && Sorted(all, list)
    requires forall k :: i <= k < |list| ==> all[list[k]].blockHeight > height
    requires i > 0 ==> all[list[i - 1]].blockHeight <= height
    ensures forall h :: h in list[i..] <==> h in list && all[h].blockHeight > height
  {
    forall k | 0 <= k < i
      ensures all[list[k]].blockHeight <= height
    {
      assert k < i - 1 ==> Height(all, list[k]) <= Height(all, list[i - 1]);
      assert list[k] in list && list[i - 1] in list;
    }
    forall h | h in list && all[h].blockHeight > height
      ensures h in list[i..]
    {
      var k :| 0 <= k < |list| && list[k] == h;
      assert list[i..][k - i] == h;
    }
  }

  lemma UnconfirmedKnown(was: map<Hash, Tx>, now: map<Hash, Tx>, rank: Rank, hashes: seq<Hash>)
    requires Known(was, rank) && Reset(was, now, hashes)
    ensures Known(now, rank)
  {
  }

  lemma UnconfirmedSorted(was: map<Hash, Tx>, now: map<Hash, Tx>, list: seq<Hash>, i: nat, height: u32)
    requires i <= |list| && ListedOnce(was, list) && Sorted(was, list) && Reset(was, now, list[i..])
    requires forall h :: h in list ==> was[h].blockHeight <= TX_UNCONFIRMED
    ensures Sorted(now, list)
  {
    forall j, k | 0 <= j < k < |list|
      ensures Height(now, list[j]) <= Height(now, list[k])
    {
      ResetAt(was, now, list, i, j);
      ResetAt(was, now, list, i, k);
    }
  }

  lemma ResetAt(was: map<Hash, Tx>, now: map<Hash, Tx>, list: seq<Hash>, i: nat, k: nat)
    requires i <= |list| && k < |list| && ListedOnce(was, list) && Reset(was, now, list[i..])
    ensures Height(now, list[k]) == if k >= i then TX_UNCONFIRMED else Height(was, list[k])
  {
    if k >= i {
      assert list[i..][k - i] == list[k];
    } else {
      assert forall x :: 0 <= x < |list| - i ==> list[i..][x] == list[i + x] != list[k];
    }
  }

  /** The height and time of h, if it is among those that change. */
  function TimedIf(all: map<Hash, Tx>, h: Hash, hashes: seq<Hash>, height: u32, timestamp: u32): Tx
    requires h in all
  {
    if h in hashes then Timed(all[h], height, timestamp) else all[h]
  }

  /** The transactions among hashes have a new height and time, or are no longer known; nothing else has changed. */
  ghost predicate TimesChanged(was: map<Hash, Tx>, now: map<Hash, Tx>, hashes: seq<Hash>, height: u32, timestamp: u32) {
    && (forall h :: h in now ==> h in was && now[h] == TimedIf(was, h, hashes, height, timestamp))
    && (forall h :: h in was && h !in now ==> h in hashes && height != TX_UNCONFIRMED)
  }

  /** Every listed transaction that has got another height or time is reported. */
  ghost predicate AllReported(was: map<Hash, Tx>, list: seq<Hash>, txHashes: seq<Hash>, hashes: seq<Hash>, height: u32, timestamp: u32) {
    forall x :: x in txHashes && x in list && x in was && was[x] != Timed(was[x], height, timestamp) ==> x in hashes
  }

  lemma NotYetChanged(was: map<Hash, Tx>, now: map<Hash, Tx>, done: seq<Hash>, h: Hash, height: u32, timestamp: u32)
    requires TimesChanged(was, now, done, height, timestamp)
    ensures h in now && h !in done ==> h in was && now[h] == was[h]
  {
  }

  lemma TimesUnchanged(all: map<Hash, Tx>, height: u32, timestamp: u32)
    ensures TimesChanged(all, all, [], height, timestamp)
  {
  }

  lemma TimesChangedMore(was: map<Hash, Tx>, mid: map<Hash, Tx>, now: map<Hash, Tx>, hashes: seq<Hash>, h: Hash, height: u32, timestamp: u32)
    requires TimesChanged(was, mid, hashes, height, timestamp)
    requires || (now == mid && (h in mid ==> mid[h] == Timed(mid[h], height, timestamp)))
             || (h in mid && now == mid[h := Timed(mid[h], height, timestamp)])
             || (h in mid && height != TX_UNCONFIRMED && now == mid - {h})
    ensures TimesChanged(was, now, hashes + [h], height, timestamp)
  {
  }

  lemma TimesOfList(was: map<Hash, Tx>, now: map<Hash, Tx>, hashes: seq<Hash>, height: u32, timestamp: u32, list: seq<Hash>)
    requires TimesChanged(was, now, hashes, height, timestamp) && forall x :: x in list ==> x in now
    ensures forall x :: x in list ==> x in was && now[x] == TimedIf(was, x, hashes, height, timestamp)
  {
  }

  lemma TimedKnown(all: map<Hash, Tx>, rank: Rank, h: Hash, height: u32, timestamp: u32)
    requires Known(all, rank) && h in all && height <= TX_UNCONFIRMED
    ensures Known(all[h := Timed(all[h], height, timestamp)], rank)
  {
  }

  lemma TimedTouch(all: map<Hash, Tx>, addrs: set<Address>, h: Hash, tx: Tx, list: seq<Hash>)
    requires h in all && tx.inputs == all[h].inputs && tx.outputs == all[h].outputs
    requires AllTouch(all, addrs, list) && forall x :: x in list ==> x in all
    ensures AllTouch(all[h := tx], addrs, list)
  {
    hide Touches;
    AllTouchMore(all, addrs, all[h := tx], addrs, list);
  }

  lemma HeightsElsewhere(all: map<Hash, Tx>, h: Hash, tx: Tx)
    ensures forall x :: x != h ==> Height(all[h := tx], x) == Height(all, x)
  {
  }

  // ---------- what holds of a balance until it is computed again ----------

  /**
   * The ledger l was computed from the list last; the list now holds the same transactions, those that were turned away
   * unconfirmed.
   */
  ghost predicate StillHolds(c: Context, last: seq<Hash>, l: Ledger, all: map<Hash, Tx>, list: seq<Hash>, addrs: set<Address>) {
    && ListedOnce(c.allTx, last) && (forall h :: h in last ==> c.allTx[h].hash == h) && l == Replay(c, TxsOf(c.allTx, last))
    && c.allAddrs <= addrs && (forall h :: h in list <==> h in last)
    && forall h :: h in last ==>
         h in all && SameTransfer(c.allTx[h], all[h]) && (h in l.invalidTx || h in l.pendingTx ==> all[h].blockHeight == TX_UNCONFIRMED)
  }

  lemma HoldsAtFirst(c: Context, list: seq<Hash>, rank: Rank, all: map<Hash, Tx>, addrs: set<Address>)
    requires Known(all, rank) && ListedOnce(all, list) && c.allTx == all && c.allAddrs == addrs
    ensures StillHolds(c, list, Replay(c, TxsOf(all, list)), all, list, addrs)
  {
    hide Replay;
    hide HasUnconfirmed;
    var txs := TxsOf(all, list);
    TurnedAwayAreUnconfirmed(c, txs);
    forall h | h in list && HasUnconfirmed(txs, h)
      ensures all[h].blockHeight == TX_UNCONFIRMED
    {
      OneOfList(all, list, rank, h);
    }
  }

  lemma OneOfList(all: map<Hash, Tx>, list: seq<Hash>, rank: Rank, h: Hash)
    requires Known(all, rank) && ListedOnce(all, list) && HasUnconfirmed(TxsOf(all, list), h)
    ensures h in list && all[h].blockHeight == TX_UNCONFIRMED
  {
    var txs := TxsOf(all, list);
    var i :| 0 <= i < |txs| && txs[i].hash == h && txs[i].blockHeight == TX_UNCONFIRMED;
    assert all[list[i]].hash == list[i];
  }

  /** Nothing but heights, times, order, and the addresses and other known transactions have changed. */
  lemma HoldsStill(c: Context, last: seq<Hash>, l: Ledger, all: map<Hash, Tx>, list: seq<Hash>, addrs: set<Address>,
      all': map<Hash, Tx>, list': seq<Hash>, addrs': set<Address>)
    requires StillHolds(c, last, l, all, list, addrs) && addrs <= addrs' && forall h :: h in list' <==> h in list
    requires forall h :: h in list && h in all ==>
               h in all' && SameTransfer(all[h], all'[h])
               && ((h in l.invalidTx || h in l.pendingTx) && all[h].blockHeight == TX_UNCONFIRMED ==> all'[h].blockHeight == TX_UNCONFIRMED)
    ensures StillHolds(c, last, l, all', list', addrs')
  {
    hide Replay;
    hide ListedOnce;
  }

  /** With everything confirmed, none of the transactions that the ledger was computed from was turned away. */
  lemma SamePast(c: Context, last: seq<Hash>, l: Ledger, all: map<Hash, Tx>, list: seq<Hash>, addrs: set<Address>)
    requires StillHolds(c, last, l, all, list, addrs) && (forall h :: h in list ==> h in all) && AllConfirmed(TxsOf(all, list))
    ensures var past := TxsOf(c.allTx, last);
            && Ledgers.Listed(c, past) && NoneTurnedAway(c, past) && AllIn(past, TxsOf(all, list)) && AllIn(TxsOf(all, list), past)
  {
    hide Replay;
    var past, txs := TxsOf(c.allTx, last), TxsOf(all, list);
    forall i | 0 <= i < |past|
      ensures past[i].hash !in l.invalidTx && past[i].hash !in l.pendingTx
      ensures HasTransfer(past[i], txs)
    {
      assert last[i] in last && last[i] in list;
      var j :| 0 <= j < |list| && list[j] == last[i];
      assert txs[j] == all[last[i]];
    }
    forall j | 0 <= j < |txs|
      ensures HasTransfer(txs[j], past)
    {
      assert list[j] in list && list[j] in last;
      var i :| 0 <= i < |last| && last[i] == list[j];
      assert past[i] == c.allTx[list[j]];
    }
  }

  function HashesOf(list: seq<Hash>): set<Hash> {
    set x | x in list
  }

  lemma {:induction false} DistinctSize(s: seq<Hash>)
    requires Distinct(s)
    ensures |HashesOf(s)| == |s|
  {
    if s == [] {
      assert HashesOf(s) == {};
    } else {
      var t, y := s[..|s| - 1], s[|s| - 1];
      DistinctSize(t);
      assert s == t + [y];
      assert y !in HashesOf(t) && HashesOf(s) == HashesOf(t) + {y};
    }
  }

  lemma SameLength(s: seq<Hash>, t: seq<Hash>)
    requires Distinct(s) && Distinct(t) && forall x :: x in s <==> x in t
    ensures |s| == |t|
  {
    DistinctSize(s);
    DistinctSize(t);
    assert HashesOf(s) == HashesOf(t);
  }

  const SEQUENCE_GAP_LIMIT_EXTERNAL: nat := 10
  const SEQUENCE_GAP_LIMIT_INTERNAL: nat := 5

  /** A transaction with another height and time. */
  function Timed(tx: Tx, height: u32, timestamp: u32): Tx {
    tx.(blockHeight := height, timestamp := timestamp)
  }

  lemma HeightsKept(all: map<Hash, Tx>, all': map<Hash, Tx>, list: seq<Hash>)
    requires forall h :: h in list ==> h in all && h in all' && all[h].blockHeight == all'[h].blockHeight
    ensures forall h :: h in list ==> Height(all, h) == Height(all', h)
  {
  }

  lemma AllTouchMore(all: map<Hash, Tx>, addrs: set<Address>, all': map<Hash, Tx>, addrs': set<Address>, list: seq<Hash>)
    requires addrs <= addrs' && AllTouch(all, addrs, list) && forall h :: h in list ==> h in all
    requires forall h :: h in all && (exists o :: o in all[h].outputs && o.address in addrs) ==> h in all' && all'[h].outputs == all[h].outputs
    requires forall h :: h in list && h in all' ==> all'[h].outputs == all[h].outputs && all'[h].inputs == all[h].inputs
    ensures AllTouch(all', addrs', list)
  {
    hide Touches;
    forall h | h in list && h in all'
      ensures Touches(all', addrs', all'[h])
    {
      TouchesMore(all, addrs, all', addrs', all[h]);
      SameTouch(all', addrs', all[h], all'[h]);
    }
  }

  /** Touching the wallet is a matter of inputs and outputs, not of height and time. */
  lemma SameTouch(all: map<Hash, Tx>, addrs: set<Address>, tx: Tx, tx': Tx)
    requires tx.inputs == tx'.inputs && tx.outputs == tx'.outputs
    ensures Touches(all, addrs, tx) <==> Touches(all, addrs, tx')
  {
  }

  lemma StartOfReplay(c: Context)
    ensures Replay(c, []) == NOTHING && Sum(c, []) == 0
  {
  }

  lemma SumOneMore(c: Context, s: seq<Outpoint>, u: Outpoint)
    ensures Sum(c, s + [u]) == Sum(c, s) + Amount(c, u)
  {
    hide Amount;
    SumAppend(c, s, [u]);
    assert [u][1..] == [];
  }

  lemma SumWithout(c: Context, p: seq<Outpoint>, u: Outpoint, q: seq<Outpoint>)
    ensures Sum(c, p + ([u] + q)) == Sum(c, p + q) + Amount(c, u)
  {
    SumAppend(c, p, [u] + q);
    SumAppend(c, p, q);
    SumFirst(c, u, q);
  }

  lemma AmountIs(c: Context, tx: Tx, j: nat)
    requires tx.hash in c.allTx && c.allTx[tx.hash] == tx && j < |tx.outputs|
    ensures Amount(c, Outpoint(tx.hash, j)) == tx.outputs[j].amount
  {
  }

  lemma AmountOf(c: Context, u: Outpoint)
    requires Exists(c, u)
    ensures Amount(c, u) == c.allTx[u.hash].outputs[u.n].amount
  {
  }

  lemma AddWrapped(sum: nat, amount: nat)
    ensures (sum % W64 + amount) % W64 == (sum + amount) % W64
  {
  }

  lemma RemoveWrapped(sum: nat, amount: u64)
    ensures ((sum + amount) % W64 + W64 - amount) % W64 == sum % W64
  {
  }

  lemma UnspentOneMore(u: Outpoint, s: seq<Outpoint>, spent: set<Outpoint>)
    ensures Unspent([u] + s, spent) == if u in spent then Unspent(s, spent) else [u] + Unspent(s, spent)
  {
    assert ([u] + s)[1..] == s;
  }

  lemma NothingUnspent(spent: set<Outpoint>)
    ensures Unspent([], spent) == []
  {
  }

  lemma CreditsExist(c: Context, tx: Tx)
    requires tx.hash in c.allTx && c.allTx[tx.hash] == tx
    ensures forall u :: u in Credits(c, tx, |tx.outputs|) ==> Exists(c, u)
  {
    CreditsAre(c, tx, |tx.outputs|);
  }

  lemma NotInChain(derive: (bool, nat) -> Address, internal: bool, chain: seq<Address>)
    requires DerivesDistinct(derive) && Derived(derive, internal, chain) && derive(internal, |chain|) != NO_ADDRESS
    ensures derive(internal, |chain|) !in AddressesOf(chain)
  {
    forall k | 0 <= k < |chain|
      ensures chain[k] != derive(internal, |chain|)
    {
      assert chain[k] == derive(internal, k);
    }
  }

  lemma AddressesOfMore(chain: seq<Address>, a: Address)
    ensures AddressesOf(chain + [a]) == AddressesOf(chain) + {a}
  {
  }

  lemma AddressesOfRest(chain: seq<Address>, chain': seq<Address>)
    requires chain <= chain'
    ensures AddressesOf(chain') == AddressesOf(chain) + AddressesOf(chain'[|chain|..])
  {
    assert chain' == chain + chain'[|chain|..];
  }

  lemma NothingListed(rank: Rank)
    ensures Known(map[], rank) && ListedOnce(map[], []) && Sorted(map[], [])
  {
  }

  lemma NoAddresses(derive: (bool, nat) -> Address)
    ensures Derived(derive, true, []) && Derived(derive, false, [])
  {
  }

  /** BRWalletNew: no wallet at all when the first transaction that was loaded is not one of its own. */
  method NewWallet(loaded: seq<Tx>, isSigned: Tx -> bool, derive: (bool, nat) -> Address, ghost rank: Rank, now: int, moved: bool)
    returns (w: Wallet?)
    requires DerivesDistinct(derive)
    requires forall t :: t in loaded ==> SpendsBelow(rank, t) && t.blockHeight <= TX_UNCONFIRMED
    ensures w != null ==> fresh(w) && w.ValidChains() && w.ValidList() && w.UpToDate(now)
    ensures w != null ==> forall t :: t in loaded && isSigned(t) ==> t.hash in w.transactions
    ensures w != null && AllTouch(w.allTx, w.allAddrs, w.transactions) ==> w.Valid()
    ensures w != null && loaded != [] ==> Touches(w.allTx, w.allAddrs, loaded[0])
  {
    hide Replay;
    hide Derived;
    var wallet := new Wallet(loaded, isSigned, derive, rank, now, moved);
    if |loaded| > 0 {
      var mine := wallet.ContainsTx(loaded[0]);
      if !mine {
        return null;
      }
    }
    return wallet;
  }

  /** Addresses of the one chain are even numbers, those of the other odd ones. */
  function EvenAndOdd(internal: bool, k: nat): Address {
    2 * k + if internal then 1 else 2
  }

  const FIRST_ADDRESS: Address := EvenAndOdd(false, 0)
  const NEXT_ADDRESS: Address := EvenAndOdd(false, SEQUENCE_GAP_LIMIT_EXTERNAL)
  const PAYMENT: Tx := Tx(1, [], [Output(FIRST_ADDRESS, 100000, 25), Output(NEXT_ADDRESS, 100000, 25)], 0, 100, 1, 0)
  const MISSED: Outpoint := Outpoint(1, 1)

  lemma FirstAddresses(w: Wallet)
    requires w.ValidChains() && w.OnlyGaps() && w.derive == EvenAndOdd
    ensures FIRST_ADDRESS in w.allAddrs && NEXT_ADDRESS !in w.allAddrs
  {
    assert w.externalChain[0] == FIRST_ADDRESS;
  }

  /** A long enough gap behind the first address takes in the next one. */
  lemma NextAddress(w: Wallet)
    requires w.ValidChains() && w.HasGaps() && w.derive == EvenAndOdd && FIRST_ADDRESS in w.usedAddrs
    ensures NEXT_ADDRESS in w.allAddrs
  {
    assert |w.externalChain| >= SEQUENCE_GAP_LIMIT_EXTERNAL && w.externalChain[0] == FIRST_ADDRESS;
    assert w.externalChain[SEQUENCE_GAP_LIMIT_EXTERNAL] == NEXT_ADDRESS;
  }

  /** What the payment leaves, when the next address is not one of the wallet's yet. */
  lemma PaymentLeaves(c: Context)
    requires NEXT_ADDRESS !in c.allAddrs
    ensures MISSED !in Replay(c, [PAYMENT]).utxos && FIRST_ADDRESS in Replay(c, [PAYMENT]).usedAddrs
  {
    OnlyOne(c, PAYMENT);
    CreditsAre(c, PAYMENT, 2);
    assert PAYMENT.outputs[..2][0].address == FIRST_ADDRESS;
  }

  /**
   * A wallet that registers a confirmed payment to its first address and to the one just beyond its known addresses: that
   * address becomes one of its own, but the output is not among the unspent ones.
   */
  method MissedPayment() returns (w: Wallet)
    ensures fresh(w) && w.Valid() && w.Balanced() && w.transactions == [PAYMENT.hash] && w.allTx == map[PAYMENT.hash := PAYMENT]
    ensures OwnedBy(w.TheContext(0), [PAYMENT], MISSED) && !SpentIn([PAYMENT], MISSED) && MISSED !in w.utxos
  {
    hide StillHolds;
    hide Replay;
    hide Derived;
    hide Sorted;
    hide Known;
    w := new Wallet([], _ => true, EvenAndOdd, _ => 0, 0, false);
    assert w.allTx == map[];
    assert w.transactions == [] by {
      DistinctSize(w.transactions);
      assert HashesOf(w.transactions) == {};
    }
    FirstAddresses(w);
    ghost var c := Context(map[PAYMENT.hash := PAYMENT], w.allAddrs, w.blockHeight, 0);
    assert PAYMENT.outputs[0] in PAYMENT.outputs;
    var r := w.RegisterTransaction(PAYMENT, true, 0, false);
    assert w.transactions == [PAYMENT.hash] by {
      OnlyElement(w.transactions, PAYMENT.hash);
    }
    assert TxsOf(w.allTx, w.transactions) == [PAYMENT];
    PaymentLeaves(c);
    NextAddress(w);
    assert IsOwned(w.TheContext(0), PAYMENT.outputs[1]);
  }

  lemma OnlyElement(list: seq<Hash>, h: Hash)
    requires Distinct(list) && forall x :: x in list <==> x == h
    ensures list == [h]
  {
    DistinctSize(list);
    assert HashesOf(list) == {h};
    assert list[0] in list;
  }
}

/** Transactions as the wallet of BRWallet.c sees them. */
module WalletData {
  import opened Blocks
  import opened Words

  /** An address; the empty string is zero. */
  type Address = nat

  const NO_ADDRESS: Address := 0
  const TX_UNCONFIRMED: u32 := 0x7fff_ffff

  datatype Outpoint = Outpoint(hash: Hash, n: u32)

  datatype Input = Input(hash: Hash, index: u32, sequence: u32)

  datatype Output = Output(address: Address, amount: u64, scriptLen: u64)

  type Outputs = s: seq<Output> | |s| < W32

  /** A transaction with its signed size in bytes. */
  datatype Tx = Tx(hash: Hash, inputs: seq<Input>, outputs: Outputs, lockTime: u32, size: nat, blockHeight: u32, timestamp: u32)

  function Spends(i: Input): Outpoint {
    Outpoint(i.hash, i.index)
  }
}

/** What _BRWalletUpdateBalance computes from the list of transactions. */
module Ledgers {
  import opened Blocks
  import opened WalletData
  import opened Words

  const TX_MAX_SIZE: nat := 100000
  const TX_MIN_OUTPUT_AMOUNT: nat := 10000 * 3 * (34 + 148) / 1000
  const TX_MAX_LOCK_HEIGHT: nat := 500000000
  const UINT32_MAX: u32 := 0xffff_ffff

  /** What the recomputation looks at and does not change; now is the time of day. */
  datatype Context = Context(allTx: map<Hash, Tx>, allAddrs: set<Address>, blockHeight: u32, now: int)

  datatype Ledger = Ledger(
    utxos: seq<Outpoint>, balance: u64, totalSent: u64, totalReceived: u64, balanceHist: seq<u64>,
    spentOutputs: set<Outpoint>, invalidTx: set<Hash>, pendingTx: set<Hash>, usedAddrs: set<Address>)

  const NOTHING: Ledger := Ledger([], 0, 0, 0, [], {}, {}, {}, {})

  // ---------- one transaction ----------

  function SpentBy(inputs: seq<Input>): set<Outpoint> {
    set i | i in inputs :: Spends(i)
  }

  /** An unconfirmed transaction that spends a spent output, or an output of an invalid transaction. */
  predicate IsInvalid(l: Ledger, tx: Tx) {
    tx.blockHeight == TX_UNCONFIRMED && exists i :: i in tx.inputs && (Spends(i) in l.spentOutputs || i.hash in l.invalidTx)
  }

  /** The test whether a lock height is still to come, at the height of the wallet. */
  predicate IsHeightLocked(blockHeight: u32, lockTime: u32, sequence: u32) {
    sequence < UINT32_MAX && lockTime < TX_MAX_LOCK_HEIGHT && lockTime > (blockHeight + 1) % W32
  }

  predicate InputPending(c: Context, l: Ledger, tx: Tx, i: Input) {
    || i.sequence < UINT32_MAX - 1
    || IsHeightLocked(c.blockHeight, tx.lockTime, i.sequence)
    || (i.sequence < UINT32_MAX && tx.lockTime > c.now)
    || i.hash in l.pendingTx
  }

  /** An unconfirmed transaction that is too big, makes dust, can be replaced, is locked or spends a pending one. */
  predicate IsPending(c: Context, l: Ledger, tx: Tx) {
    && tx.blockHeight == TX_UNCONFIRMED
    && (|| tx.size > TX_MAX_SIZE
        || (exists o :: o in tx.outputs && o.amount < TX_MIN_OUTPUT_AMOUNT)
        || (exists i :: i in tx.inputs && InputPending(c, l, tx, i)))
  }

  predicate IsOwned(c: Context, o: Output) {
    o.address != NO_ADDRESS && o.address in c.allAddrs
  }

  /** The outputs of tx, among its first n, that pay to the wallet. */
  function Credits(c: Context, tx: Tx, n: nat): seq<Outpoint>
    requires n <= |tx.outputs|
  {
    if n == 0 then []
    else Credits(c, tx, n - 1) + (if IsOwned(c, tx.outputs[n - 1]) then [Outpoint(tx.hash, n - 1)] else [])
  }

  function UsedBy(tx: Tx, n: nat): set<Address>
    requires n <= |tx.outputs|
  {
    set o | o in tx.outputs[..n] && o.address != NO_ADDRESS :: o.address
  }

  function Unspent(utxos: seq<Outpoint>, spent: set<Outpoint>): (r: seq<Outpoint>)
    ensures forall u :: u in r <==> u in utxos && u !in spent
  {
    if utxos == [] then []
    else
      var rest := Unspent(utxos[1..], spent);
      if utxos[0] in spent then rest else [utxos[0]] + rest
  }

  predicate Exists(c: Context, u: Outpoint) {
    u.hash in c.allTx && u.n < |c.allTx[u.hash].outputs|
  }

  function Amount(c: Context, u: Outpoint): u64 {
    if Exists(c, u) then c.allTx[u.hash].outputs[u.n].amount else 0
  }

  function Sum(c: Context, utxos: seq<Outpoint>): nat {
    if utxos == [] then 0 else Amount(c, utxos[0]) + Sum(c, utxos[1..])
  }

  function Accept(c: Context, l: Ledger, tx: Tx): Ledger {
    var spent := l.spentOutputs + SpentBy(tx.inputs);
    var utxos := Unspent(l.utxos + Credits(c, tx, |tx.outputs|), spent);
    var balance := Sum(c, utxos) % W64;
    l.(utxos := utxos,
       balance := balance,
       totalReceived := if l.balance < balance then (l.totalReceived + (balance - l.balance)) % W64 else l.totalReceived,
       totalSent := if balance < l.balance then (l.totalSent + (l.balance - balance)) % W64 else l.totalSent,
       balanceHist := l.balanceHist + [balance],
       spentOutputs := spent,
       usedAddrs := l.usedAddrs + UsedBy(tx, |tx.outputs|))
  }

  /** The ledger after one more transaction. */
  function Apply(c: Context, l: Ledger, tx: Tx): Ledger {
    if IsInvalid(l, tx) then l.(invalidTx := l.invalidTx + {tx.hash}, balanceHist := l.balanceHist + [l.balance])
    else if IsPending(c, l, tx) then
      l.(pendingTx := l.pendingTx + {tx.hash}, balanceHist := l.balanceHist + [l.balance],
         spentOutputs := l.spentOutputs + SpentBy(tx.inputs))
    else Accept(c, l, tx)
  }

  function Replay(c: Context, txs: seq<Tx>): Ledger {
    if txs == [] then NOTHING else Apply(c, Replay(c, txs[..|txs| - 1]), txs[|txs| - 1])
  }

  lemma ReplayMore(c: Context, txs: seq<Tx>, tx: Tx)
    ensures Replay(c, txs + [tx]) == Apply(c, Replay(c, txs), tx)
  {
    hide Apply;
    assert (txs + [tx])[..|txs|] == txs;
  }

  // ---------- every history ----------

  lemma {:induction false} SumAppend(c: Context, a: seq<Outpoint>, b: seq<Outpoint>)
    ensures Sum(c, a + b) == Sum(c, a) + Sum(c, b)
  {
    if a == [] {
      assert a + b == b;
    } else {
      SumAppend(c, a[1..], b);
      assert (a + b)[1..] == a[1..] + b;
    }
  }

  lemma AccountStep(received: nat, sent: nat, was: nat, now: nat)
    requires received < W64 && sent < W64 && was < W64 && now < W64
    requires (received + W64 - sent) % W64 == was
    ensures was < now ==> ((received + (now - was)) % W64 + W64 - sent) % W64 == now
    ensures now < was ==> (received + W64 - (sent + (was - now)) % W64) % W64 == now
  {
  }

  /** What Apply keeps of the accounts. */
  ghost predicate AddsUp(c: Context, l: Ledger) {
    l.balance == Sum(c, l.utxos) % W64 && (l.totalReceived + W64 - l.totalSent) % W64 == l.balance
  }

  lemma AddsUpMore(c: Context, l: Ledger, tx: Tx)
    requires AddsUp(c, l)
    ensures var m := Apply(c, l, tx);
            AddsUp(c, m) && m.balanceHist == l.balanceHist + [m.balance]
  {
    hide Unspent;
    hide Sum;
    hide IsInvalid;
    hide IsPending;
    var m := Apply(c, l, tx);
    AccountStep(l.totalReceived, l.totalSent, l.balance, m.balance);
  }

  /**
   * In every history the balance is the sum of the unspent outputs and the difference of what was received and sent,
   * in 64 bits, and every transaction has its entry in the history of the balance.
   */
  lemma {:induction false} BalanceAddsUp(c: Context, txs: seq<Tx>)
    ensures var l := Replay(c, txs);
            && l.balance == Sum(c, l.utxos) % W64
            && (l.totalReceived + W64 - l.totalSent) % W64 == l.balance
            && |l.balanceHist| == |txs|
            && (txs != [] ==> l.balanceHist[|txs| - 1] == l.balance)
  {
    hide Apply;
    hide Sum;
    if txs == [] {
      EmptySum(c);
    } else {
      var n := |txs| - 1;
      BalanceAddsUp(c, txs[..n]);
      AddsUpMore(c, Replay(c, txs[..n]), txs[n]);
    }
  }

  lemma EmptySum(c: Context)
    ensures Sum(c, []) == 0
  {
  }

  /** The history of a longer list starts with the history of the shorter one. */
  lemma {:induction false} HistoryOfPrefix(c: Context, txs: seq<Tx>, n: nat)
    requires n <= |txs|
    ensures |Replay(c, txs[..n]).balanceHist| == n && Replay(c, txs[..n]).balanceHist <= Replay(c, txs).balanceHist
    decreases |txs|
  {
    hide Accept;
    BalanceAddsUp(c, txs[..n]);
    if n == |txs| {
      assert txs[..n] == txs;
    } else {
      var m := |txs| - 1;
      HistoryOfPrefix(c, txs[..m], n);
      assert txs[..m][..n] == txs[..n];
      HistoryGrows(c, Replay(c, txs[..m]), txs[m]);
    }
  }

  lemma HistoryGrows(c: Context, l: Ledger, tx: Tx)
    ensures l.balanceHist <= Apply(c, l, tx).balanceHist
  {
    hide Unspent;
    hide Sum;
  }

  // ---------- which outputs are left ----------

  /** The list holds every transaction once, as the wallet knows it. */
  ghost predicate Listed(c: Context, txs: seq<Tx>) {
    && (forall i :: 0 <= i < |txs| ==> txs[i].hash in c.allTx && c.allTx[txs[i].hash] == txs[i])
    && (forall i, j :: 0 <= i < j < |txs| ==> txs[i].hash != txs[j].hash)
  }

  /** u is an output of one of txs that pays to the wallet. */
  ghost predicate OwnedBy(c: Context, txs: seq<Tx>, u: Outpoint) {
    exists i :: 0 <= i < |txs| && u.hash == txs[i].hash && u.n < |txs[i].outputs| && IsOwned(c, txs[i].outputs[u.n])
  }

  ghost predicate SpentIn(txs: seq<Tx>, u: Outpoint) {
    exists i :: 0 <= i < |txs| && u in SpentBy(txs[i].inputs)
  }

  ghost predicate NoDuplicates(s: seq<Outpoint>) {
    forall i, j :: 0 <= i < j < |s| ==> s[i] != s[j]
  }

  /** The transactions that are neither invalid nor pending when their turn comes. */
  function Accepted(c: Context, txs: seq<Tx>): seq<Tx> {
    if txs == [] then []
    else
      var n := |txs| - 1;
      var l := Replay(c, txs[..n]);
      Accepted(c, txs[..n]) + (if IsInvalid(l, txs[n]) || IsPending(c, l, txs[n]) then [] else [txs[n]])
  }

  lemma {:induction false} CreditsAre(c: Context, tx: Tx, n: nat)
    requires n <= |tx.outputs|
    ensures forall u :: u in Credits(c, tx, n) <==> u.hash == tx.hash && u.n < n && IsOwned(c, tx.outputs[u.n])
    ensures NoDuplicates(Credits(c, tx, n))
  {
    hide IsOwned;
    if n > 0 {
      CreditsAre(c, tx, n - 1);
      var s := Credits(c, tx, n - 1);
      NoDuplicatesMore(s, Outpoint(tx.hash, n - 1));
    }
  }

  lemma NoDuplicatesMore(s: seq<Outpoint>, u: Outpoint)
    ensures NoDuplicates(s) && u !in s ==> NoDuplicates(s + [u])
  {
  }

  lemma NoDuplicatesJoined(a: seq<Outpoint>, b: seq<Outpoint>)
    requires NoDuplicates(a) && NoDuplicates(b) && forall u :: u in a ==> u !in b
    ensures NoDuplicates(a + b)
  {
    forall i, j | 0 <= i < j < |a + b|
      ensures (a + b)[i] != (a + b)[j]
    {
      assert i < |a| <= j ==> a[i] in a && b[j - |a|] in b;
    }
  }

  lemma {:induction false} UnspentNoDuplicates(utxos: seq<Outpoint>, spent: set<Outpoint>)
    requires NoDuplicates(utxos)
    ensures NoDuplicates(Unspent(utxos, spent))
  {
    if utxos != [] {
      var t := utxos[1..];
      assert NoDuplicates(t);
      UnspentNoDuplicates(t, spent);
      assert utxos[0] !in t;
      NoDuplicatesJoined([utxos[0]], Unspent(t, spent));
    }
  }

  lemma OwnedByMore(c: Context, txs: seq<Tx>, tx: Tx, u: Outpoint)
    ensures OwnedBy(c, txs + [tx], u) <==>
            OwnedBy(c, txs, u) || (u.hash == tx.hash && u.n < |tx.outputs| && IsOwned(c, tx.outputs[u.n]))
  {
    hide IsOwned;
    var s := txs + [tx];
    if OwnedBy(c, txs, u) {
      var i :| 0 <= i < |txs| && u.hash == txs[i].hash && u.n < |txs[i].outputs| && IsOwned(c, txs[i].outputs[u.n]);
      assert s[i] == txs[i];
    }
    if u.hash == tx.hash && u.n < |tx.outputs| && IsOwned(c, tx.outputs[u.n]) {
      assert s[|txs|] == tx;
    }
  }

  lemma SpentInMore(txs: seq<Tx>, tx: Tx, u: Outpoint)
    ensures SpentIn(txs + [tx], u) <==> SpentIn(txs, u) || u in SpentBy(tx.inputs)
  {
    var s := txs + [tx];
    if SpentIn(txs, u) {
      var i :| 0 <= i < |txs| && u in SpentBy(txs[i].inputs);
      assert s[i] == txs[i];
    }
    if u in SpentBy(tx.inputs) {
      assert s[|txs|] == tx;
    }
  }

  /** What the unspent outputs are after any history, given the transactions accepted in it. */
  ghost predicate Settled(c: Context, accepted: seq<Tx>, l: Ledger) {
    && NoDuplicates(l.utxos)
    && (forall u :: u in l.utxos ==> OwnedBy(c, accepted, u))
    && (forall u :: OwnedBy(c, accepted, u) && u !in l.spentOutputs ==> u in l.utxos)
  }

  lemma SettledAccept(c: Context, accepted: seq<Tx>, l: Ledger, tx: Tx)
    requires Settled(c, accepted, l)
    requires forall u :: OwnedBy(c, accepted, u) ==> u.hash != tx.hash
    ensures Settled(c, accepted + [tx], Accept(c, l, tx))
    ensures forall u :: u in Accept(c, l, tx).utxos ==> u !in Accept(c, l, tx).spentOutputs
  {
    hide OwnedBy;
    hide IsOwned;
    hide Sum;
    hide SpentBy;
    hide UsedBy;
    var credits := Credits(c, tx, |tx.outputs|);
    CreditsAre(c, tx, |tx.outputs|);
    NoDuplicatesJoined(l.utxos, credits);
    UnspentNoDuplicates(l.utxos + credits, l.spentOutputs + SpentBy(tx.inputs));
    forall u
      ensures OwnedBy(c, accepted + [tx], u) <==> OwnedBy(c, accepted, u) || u in credits
    {
      OwnedByMore(c, accepted, tx, u);
    }
  }

  /**
   * After any history, the unspent outputs are outputs of accepted transactions that pay to the wallet, each of them
   * once, and all of those that no transaction spends; none of them is spent when the last transaction was accepted.
   */
  lemma {:induction false} HistorySettles(c: Context, txs: seq<Tx>)
    requires Listed(c, txs)
    ensures Settled(c, Accepted(c, txs), Replay(c, txs))
    ensures forall u :: OwnedBy(c, Accepted(c, txs), u) ==> exists i :: 0 <= i < |txs| && txs[i].hash == u.hash
    ensures txs != [] && (var l := Replay(c, txs[..|txs| - 1]); !IsInvalid(l, txs[|txs| - 1]) && !IsPending(c, l, txs[|txs| - 1])) ==>
              forall u :: u in Replay(c, txs).utxos ==> u !in Replay(c, txs).spentOutputs
  {
    hide IsInvalid;
    hide IsPending;
    hide OwnedBy;
    hide Accept;
    hide Settled;
    if txs == [] {
      NothingSettled(c);
    } else {
      var n := |txs| - 1;
      var t, l := txs[..n], Replay(c, txs[..n]);
      HistorySettles(c, t);
      forall u | OwnedBy(c, Accepted(c, t), u)
        ensures u.hash != txs[n].hash
      {
        var i :| 0 <= i < |t| && t[i].hash == u.hash;
        assert txs[i] == t[i];
      }
      if !IsInvalid(l, txs[n]) && !IsPending(c, l, txs[n]) {
        SettledAccept(c, Accepted(c, t), l, txs[n]);
        forall u | OwnedBy(c, Accepted(c, txs), u)
          ensures exists i :: 0 <= i < |txs| && txs[i].hash == u.hash
        {
          OwnedByMore(c, Accepted(c, t), txs[n], u);
          FoundEarlier(txs, n, u.hash);
        }
      } else {
        SettledSkip(c, Accepted(c, t), l, txs[n]);
        assert Accepted(c, txs) == Accepted(c, t);
        forall u | OwnedBy(c, Accepted(c, txs), u)
          ensures exists i :: 0 <= i < |txs| && txs[i].hash == u.hash
        {
          FoundEarlier(txs, n, u.hash);
        }
      }
    }
  }

  /** Whether every unspent output is in fact not spent. */
  ghost predicate Disjoint(l: Ledger) {
    forall u :: u in l.utxos ==> u !in l.spentOutputs
  }

  /**
   * A pending transaction marks what it spends without sweeping it out of the unspent outputs. That is the only way for a
   * spent output to stay among them: it happens exactly when the transaction is pending and spends one of them.
   */
  lemma StaysDisjoint(c: Context, l: Ledger, tx: Tx)
    requires Disjoint(l)
    ensures Disjoint(Apply(c, l, tx)) <==>
            IsInvalid(l, tx) || !IsPending(c, l, tx) || forall i :: i in tx.inputs ==> Spends(i) !in l.utxos
    ensures !IsInvalid(l, tx) && !IsPending(c, l, tx) ==> Disjoint(Apply(c, l, tx))
  {
    hide IsInvalid;
    hide IsPending;
    if !IsInvalid(l, tx) && IsPending(c, l, tx) {
      forall i | i in tx.inputs
        ensures Spends(i) in SpentBy(tx.inputs)
      {
      }
    }
  }

  /** So a history that ends with a pending transaction can leave a spent output among the unspent ones. */
  lemma PendingLeavesSpent() returns (c: Context, txs: seq<Tx>)
    ensures Listed(c, txs) && !Disjoint(Replay(c, txs))
  {
    var paid := Tx(1, [], [Output(1, TX_MIN_OUTPUT_AMOUNT, 25)], 0, 100, 1, 0);
    var spends := Tx(2, [Input(1, 0, 0)], [], 0, 100, TX_UNCONFIRMED, 0);
    c, txs := Context(map[1 := paid, 2 := spends], {1}, 1, 0), [paid, spends];
    var l := Replay(c, [paid]);
    FirstPayment(c, paid);
    hide Replay;
    hide Credits;
    ReplayMore(c, [paid], spends);
    assert [paid] + [spends] == txs;
    assert Spends(spends.inputs[0]) == Outpoint(1, 0) && InputPending(c, l, spends, spends.inputs[0]);
    StaysDisjoint(c, l, spends);
  }

  lemma FirstPayment(c: Context, tx: Tx)
    requires tx.inputs == [] && tx.blockHeight != TX_UNCONFIRMED && |tx.outputs| == 1 && IsOwned(c, tx.outputs[0])
    ensures var l := Replay(c, [tx]);
            Outpoint(tx.hash, 0) in l.utxos && l.spentOutputs == {} && l.invalidTx == {}
  {
    hide IsOwned;
    assert [] + [tx] == [tx];
    ReplayMore(c, [], tx);
    CreditsAre(c, tx, 1);
  }

  // ---------- lock heights ----------

  /** The height of the wallet after an unconfirmed transaction has been marked as seen or unseen. */
  function MarkedHeight(all: map<Hash, Tx>, blockHeight: u32, h: Hash): u32 {
    if h in all && all[h].blockHeight == TX_UNCONFIRMED > blockHeight then TX_UNCONFIRMED else blockHeight
  }

  /**
   * Marking a transaction leaves the test for lock heights as it was exactly if the transaction is unknown or confirmed, or
   * the wallet already is so high that no lock height is to come; otherwise no lock height is to come afterwards.
   */
  lemma MarkKeepsLocks(all: map<Hash, Tx>, blockHeight: u32, h: Hash)
    ensures (forall lockTime: u32, sequence: u32 ::
               IsHeightLocked(MarkedHeight(all, blockHeight, h), lockTime, sequence) <==> IsHeightLocked(blockHeight, lockTime, sequence))
            <==> h !in all || all[h].blockHeight != TX_UNCONFIRMED || blockHeight + 2 >= TX_MAX_LOCK_HEIGHT
    ensures MarkedHeight(all, blockHeight, h) != blockHeight ==>
              forall lockTime: u32, sequence: u32 :: !IsHeightLocked(MarkedHeight(all, blockHeight, h), lockTime, sequence)
  {
    var highest: u32 := TX_MAX_LOCK_HEIGHT - 1;
    if blockHeight + 2 < TX_MAX_LOCK_HEIGHT {
      assert IsHeightLocked(blockHeight, highest, 0);
    }
  }

  /** A transaction with a lock height to come is pending; once it has been marked as seen it is accepted. */
  lemma MarkUnlocks() returns (c: Context, tx: Tx)
    ensures c.allTx == map[tx.hash := tx] && tx.blockHeight == TX_UNCONFIRMED && tx.lockTime > c.blockHeight + 1
    ensures tx.hash in Replay(c, [tx]).pendingTx && Accepted(c, [tx]) == []
    ensures Accepted(c.(blockHeight := MarkedHeight(c.allTx, c.blockHeight, tx.hash)), [tx]) == [tx]
  {
    tx := Tx(1, [Input(2, 0, UINT32_MAX - 1)], [], 200, 100, TX_UNCONFIRMED, 0);
    c := Context(map[1 := tx], {}, 100, 1500000000);
    OnlyOne(c, tx);
    assert InputPending(c, NOTHING, tx, tx.inputs[0]);
    OnlyOne(c.(blockHeight := TX_UNCONFIRMED), tx);
  }

  lemma OnlyOne(c: Context, tx: Tx)
    ensures Replay(c, [tx]) == Apply(c, NOTHING, tx)
    ensures Accepted(c, [tx]) == if IsInvalid(NOTHING, tx) || IsPending(c, NOTHING, tx) then [] else [tx]
  {
    hide IsInvalid;
    hide IsPending;
    hide Apply;
    assert [tx][..0] == [];
  }

  // ---------- one more transaction, on the fields themselves ----------

  /** Unconfirmed, and spending an output that is spent or one of an invalid transaction. */
  lemma InvalidIs(l: Ledger, tx: Tx)
    ensures IsInvalid(l, tx) <==>
              && tx.blockHeight == 0x7fff_ffff
              && exists i :: i in tx.inputs && (Outpoint(i.hash, i.index) in l.spentOutputs || i.hash in l.invalidTx)
  {
    if IsInvalid(l, tx) {
      var i :| i in tx.inputs && (Spends(i) in l.spentOutputs || i.hash in l.invalidTx);
      assert Outpoint(i.hash, i.index) == Spends(i);
    } else if tx.blockHeight == 0x7fff_ffff {
      forall i | i in tx.inputs
        ensures Outpoint(i.hash, i.index) !in l.spentOutputs && i.hash !in l.invalidTx
      {
        assert Outpoint(i.hash, i.index) == Spends(i);
      }
    }
  }

  lemma InputPendingIs(c: Context, l: Ledger, tx: Tx, i: Input)
    ensures InputPending(c, l, tx, i) <==>
              || i.sequence < 0xffff_fffe
              || (i.sequence < 0xffff_ffff && tx.lockTime < 500000000 && tx.lockTime > (c.blockHeight + 1) % 0x1_0000_0000)
              || (i.sequence < 0xffff_ffff && tx.lockTime > c.now)
              || i.hash in l.pendingTx
  {
  }

  /** Too big, making dust, replaceable, with a lock height or a lock time to come, or spending a pending transaction. */
  lemma PendingIs(c: Context, l: Ledger, tx: Tx)
    ensures IsPending(c, l, tx) <==>
              && tx.blockHeight == 0x7fff_ffff
              && (|| tx.size > 100000
                  || (exists o :: o in tx.outputs && o.amount < 5460)
                  || (exists i :: i in tx.inputs &&
                        (|| i.sequence < 0xffff_fffe
                         || (i.sequence < 0xffff_ffff && tx.lockTime < 500000000 && tx.lockTime > (c.blockHeight + 1) % 0x1_0000_0000)
                         || (i.sequence < 0xffff_ffff && tx.lockTime > c.now)
                         || i.hash in l.pendingTx)))
  {
    hide InputPending;
    forall i | i in tx.inputs {
      InputPendingIs(c, l, tx, i);
    }
    assert TX_MIN_OUTPUT_AMOUNT == 5460;
  }

  lemma SpentByIs(tx: Tx)
    ensures SpentBy(tx.inputs) == set i | i in tx.inputs :: Outpoint(i.hash, i.index)
  {
  }

  /** Which outputs are unspent once a transaction has been accepted. */
  lemma AcceptIs(c: Context, l: Ledger, tx: Tx)
    ensures var m := Accept(c, l, tx);
            && m.spentOutputs == l.spentOutputs + (set i | i in tx.inputs :: Outpoint(i.hash, i.index))
            && m.usedAddrs == l.usedAddrs + (set o | o in tx.outputs && o.address != 0 :: o.address)
            && m.invalidTx == l.invalidTx && m.pendingTx == l.pendingTx && m.balanceHist == l.balanceHist + [m.balance]
            && forall u :: u in m.utxos <==>
                 && u !in m.spentOutputs
                 && (|| u in l.utxos
                     || (&& u.hash == tx.hash && u.n < |tx.outputs|
                         && tx.outputs[u.n].address != 0 && tx.outputs[u.n].address in c.allAddrs))
  {
    hide Credits;
    hide Sum;
    CreditsAre(c, tx, |tx.outputs|);
    assert tx.outputs[..|tx.outputs|] == tx.outputs;
  }

  lemma AccountsOf(c: Context, l: Ledger, tx: Tx)
    ensures var m := Accept(c, l, tx);
            && (m.balance > l.balance ==>
                  m.totalReceived == (l.totalReceived + m.balance - l.balance) % 0x1_0000_0000_0000_0000 && m.totalSent == l.totalSent)
            && (m.balance < l.balance ==>
                  m.totalSent == (l.totalSent + l.balance - m.balance) % 0x1_0000_0000_0000_0000 && m.totalReceived == l.totalReceived)
            && (m.balance == l.balance ==> m.totalSent == l.totalSent && m.totalReceived == l.totalReceived)
  {
    hide Unspent;
    hide Sum;
  }

  /** What one more transaction does at the end of any history, by its own fields and what came before it. */
  lemma TurnExactly(c: Context, txs: seq<Tx>, tx: Tx)
    ensures var l, m := Replay(c, txs), Replay(c, txs + [tx]);
            var invalid :=
              && tx.blockHeight == 0x7fff_ffff
              && exists i :: i in tx.inputs && (Outpoint(i.hash, i.index) in l.spentOutputs || i.hash in l.invalidTx);
            var pending :=
              && tx.blockHeight == 0x7fff_ffff
              && (|| tx.size > 100000
                  || (exists o :: o in tx.outputs && o.amount < 5460)
                  || (exists i :: i in tx.inputs &&
                        (|| i.sequence < 0xffff_fffe
                         || (i.sequence < 0xffff_ffff && tx.lockTime < 500000000 && tx.lockTime > (c.blockHeight + 1) % 0x1_0000_0000)
                         || (i.sequence < 0xffff_ffff && tx.lockTime > c.now)
                         || i.hash in l.pendingTx)));
            if invalid then
              m == l.(invalidTx := l.invalidTx + {tx.hash}, balanceHist := l.balanceHist + [l.balance])
            else
              && m.spentOutputs == l.spentOutputs + (set i | i in tx.inputs :: Outpoint(i.hash, i.index))
              && if pending then
                   m == l.(pendingTx := l.pendingTx + {tx.hash}, balanceHist := l.balanceHist + [l.balance], spentOutputs := m.spentOutputs)
                 else
                   && m.usedAddrs == l.usedAddrs + (set o | o in tx.outputs && o.address != 0 :: o.address)
                   && m.invalidTx == l.invalidTx && m.pendingTx == l.pendingTx && m.balanceHist == l.balanceHist + [m.balance]
                   && (m.balance >= l.balance ==> m.totalSent == l.totalSent)
                   && (m.balance <= l.balance ==> m.totalReceived == l.totalReceived)
                   && forall u :: u in m.utxos <==>
                        && u !in m.spentOutputs
                        && (|| u in l.utxos
                            || (&& u.hash == tx.hash && u.n < |tx.outputs|
                                && tx.outputs[u.n].address != 0 && tx.outputs[u.n].address in c.allAddrs))
  {
    hide IsInvalid;
    hide IsPending;
    hide Accept;
    hide SpentBy;
    hide Replay;
    var l := Replay(c, txs);
    ReplayMore(c, txs, tx);
    InvalidIs(l, tx);
    PendingIs(c, l, tx);
    SpentByIs(tx);
    AcceptIs(c, l, tx);
    AccountsOf(c, l, tx);
  }

  /**
   * An unconfirmed transaction that is not invalid adds nothing to the unspent outputs, and leaves the balance, exactly if it
   * is too big, makes dust, can be replaced, has a lock height or a lock time to come, or spends a pending transaction.
   * Otherwise all its outputs to the wallet that are not spent become unspent outputs.
   */
  lemma PendingExactly(c: Context, txs: seq<Tx>, tx: Tx)
    requires Listed(c, txs + [tx]) && tx.blockHeight == 0x7fff_ffff
    requires var l := Replay(c, txs);
             forall i :: i in tx.inputs ==> Outpoint(i.hash, i.index) !in l.spentOutputs && i.hash !in l.invalidTx
    ensures var l, m := Replay(c, txs), Replay(c, txs + [tx]);
            if || tx.size > 100000
               || (exists o :: o in tx.outputs && o.amount < 5460)
               || (exists i :: i in tx.inputs &&
                     (|| i.sequence < 0xffff_fffe
                      || (i.sequence < 0xffff_ffff && tx.lockTime < 500000000 && tx.lockTime > (c.blockHeight + 1) % 0x1_0000_0000)
                      || (i.sequence < 0xffff_ffff && tx.lockTime > c.now)
                      || i.hash in l.pendingTx))
            then
              && tx.hash in m.pendingTx && m.utxos == l.utxos && m.balance == l.balance
              && forall u :: u in m.utxos ==> u.hash != tx.hash
            else
              && tx.hash !in m.pendingTx
              && forall k: nat :: k < |tx.outputs| ==>
                   (Outpoint(tx.hash, k) in m.utxos <==>
                      && tx.outputs[k].address != 0 && tx.outputs[k].address in c.allAddrs
                      && Outpoint(tx.hash, k) !in m.spentOutputs)
  {
    hide Replay;
    hide Accepted;
    hide OwnedBy;
    var n := |txs|;
    assert (txs + [tx])[n] == tx;
    forall i | 0 <= i < n
      ensures txs[i].hash in c.allTx && c.allTx[txs[i].hash] == txs[i] && txs[i].hash != tx.hash
    {
      assert (txs + [tx])[i] == txs[i];
    }
    forall i, j | 0 <= i < j < n
      ensures txs[i].hash != txs[j].hash
    {
      assert (txs + [tx])[i] == txs[i] && (txs + [tx])[j] == txs[j];
    }
    HistorySettles(c, txs);
    PendingListed(c, txs);
    TurnExactly(c, txs, tx);
  }

  /** Only listed transactions are pending. */
  lemma {:induction false} PendingListed(c: Context, txs: seq<Tx>)
    ensures forall h :: h in Replay(c, txs).pendingTx ==> exists i :: 0 <= i < |txs| && txs[i].hash == h
  {
    hide IsInvalid;
    hide IsPending;
    if txs != [] {
      var n := |txs| - 1;
      PendingListed(c, txs[..n]);
      assert Replay(c, txs).pendingTx <= Replay(c, txs[..n]).pendingTx + {txs[n].hash};
      forall h | h in Replay(c, txs).pendingTx
        ensures exists i :: 0 <= i < |txs| && txs[i].hash == h
      {
        FoundEarlier(txs, n, h);
      }
    }
  }

  /** The sum of outputs, one output at a time. */
  lemma SumIs(c: Context, utxos: seq<Outpoint>, u: Outpoint)
    requires u.hash in c.allTx && u.n < |c.allTx[u.hash].outputs|
    ensures Sum(c, []) == 0 && Sum(c, utxos + [u]) == Sum(c, utxos) + c.allTx[u.hash].outputs[u.n].amount
  {
    SumAppend(c, utxos, [u]);
  }

  // ---------- double spends ----------

  ghost predicate InvalidAt(c: Context, txs: seq<Tx>, i: nat)
    requires i < |txs|
  {
    IsInvalid(Replay(c, txs[..i]), txs[i])
  }

  /** u is spent by one of the first n transactions, other than the invalid ones. */
  ghost predicate ValidlySpent(c: Context, txs: seq<Tx>, n: nat, u: Outpoint)
    requires n <= |txs|
  {
    exists i :: 0 <= i < n && !InvalidAt(c, txs, i) && u in SpentBy(txs[i].inputs)
  }

  ghost predicate InvalidBefore(c: Context, txs: seq<Tx>, n: nat, h: Hash)
    requires n <= |txs|
  {
    exists i :: 0 <= i < n && InvalidAt(c, txs, i) && txs[i].hash == h
  }

  /** The spent outputs and the invalid transactions after the first n transactions. */
  lemma {:induction false} SpentAndInvalid(c: Context, txs: seq<Tx>, n: nat)
    requires n <= |txs|
    ensures forall u :: u in Replay(c, txs[..n]).spentOutputs <==> ValidlySpent(c, txs, n, u)
    ensures forall h :: h in Replay(c, txs[..n]).invalidTx <==> InvalidBefore(c, txs, n, h)
  {
    hide Replay;
    hide InvalidAt;
    hide SpentBy;
    hide ValidlySpent;
    hide InvalidBefore;
    if n > 0 {
      SpentAndInvalid(c, txs, n - 1);
      SpentStep(c, txs, n - 1);
      forall u
        ensures ValidlySpent(c, txs, n, u) <==> ValidlySpent(c, txs, n - 1, u) || (!InvalidAt(c, txs, n - 1) && u in SpentBy(txs[n - 1].inputs))
      {
        ValidlySpentMore(c, txs, n - 1, u);
      }
      forall h
        ensures InvalidBefore(c, txs, n, h) <==> InvalidBefore(c, txs, n - 1, h) || (InvalidAt(c, txs, n - 1) && txs[n - 1].hash == h)
      {
        InvalidBeforeMore(c, txs, n - 1, h);
      }
    } else {
      NothingBefore(c, txs);
    }
  }

  lemma NothingBefore(c: Context, txs: seq<Tx>)
    ensures Replay(c, txs[..0]) == NOTHING
    ensures (forall u :: !ValidlySpent(c, txs, 0, u)) && forall h :: !InvalidBefore(c, txs, 0, h)
  {
  }

  lemma SpentStep(c: Context, txs: seq<Tx>, n: nat)
    requires n < |txs|
    ensures var l, l' := Replay(c, txs[..n]), Replay(c, txs[..n + 1]);
            if InvalidAt(c, txs, n) then l'.spentOutputs == l.spentOutputs && l'.invalidTx == l.invalidTx + {txs[n].hash}
            else l'.spentOutputs == l.spentOutputs + SpentBy(txs[n].inputs) && l'.invalidTx == l.invalidTx
  {
    hide IsInvalid;
    hide IsPending;
    hide SpentBy;
    hide Replay;
    assert txs[..n + 1] == txs[..n] + [txs[n]];
    ReplayMore(c, txs[..n], txs[n]);
  }

  lemma ValidlySpentMore(c: Context, txs: seq<Tx>, n: nat, u: Outpoint)
    requires n < |txs|
    ensures ValidlySpent(c, txs, n + 1, u) <==> ValidlySpent(c, txs, n, u) || (!InvalidAt(c, txs, n) && u in SpentBy(txs[n].inputs))
  {
    hide InvalidAt;
    hide SpentBy;
  }

  lemma InvalidBeforeMore(c: Context, txs: seq<Tx>, n: nat, h: Hash)
    requires n < |txs|
    ensures InvalidBefore(c, txs, n + 1, h) <==> InvalidBefore(c, txs, n, h) || (InvalidAt(c, txs, n) && txs[n].hash == h)
  {
    hide InvalidAt;
  }

  /**
   * A transaction is invalid exactly if it is unconfirmed and either spends what an earlier transaction that is not
   * invalid spends, or spends an output of an earlier invalid one. So of unconfirmed double spends the first one stands.
   */
  lemma InvalidExactly(c: Context, txs: seq<Tx>, n: nat)
    requires n < |txs|
    ensures InvalidAt(c, txs, n) <==>
            && txs[n].blockHeight == TX_UNCONFIRMED
            && exists i :: i in txs[n].inputs && (ValidlySpent(c, txs, n, Spends(i)) || InvalidBefore(c, txs, n, i.hash))
  {
    hide ValidlySpent;
    hide InvalidBefore;
    hide Replay;
    SpentAndInvalid(c, txs, n);
  }

  lemma NothingSettled(c: Context)
    ensures Settled(c, [], NOTHING) && forall u :: !OwnedBy(c, [], u)
  {
  }

  lemma FoundEarlier(txs: seq<Tx>, n: nat, h: Hash)
    requires n < |txs| && ((exists i :: 0 <= i < n && txs[..n][i].hash == h) || txs[n].hash == h)
    ensures exists i :: 0 <= i < |txs| && txs[i].hash == h
  {
    if txs[n].hash != h {
      var i :| 0 <= i < n && txs[..n][i].hash == h;
      assert txs[i].hash == h;
    }
  }

  lemma SettledSkip(c: Context, accepted: seq<Tx>, l: Ledger, tx: Tx)
    requires Settled(c, accepted, l) && (IsInvalid(l, tx) || IsPending(c, l, tx))
    ensures Settled(c, accepted, Apply(c, l, tx))
  {
    hide OwnedBy;
    hide IsInvalid;
    hide IsPending;
    hide SpentBy;
    hide Accept;
  }

  // ---------- when every transaction is confirmed ----------

  ghost predicate AllConfirmed(txs: seq<Tx>) {
    forall i :: 0 <= i < |txs| ==> txs[i].blockHeight != TX_UNCONFIRMED
  }

  lemma AcceptedMore(c: Context, txs: seq<Tx>, tx: Tx)
    ensures var l := Replay(c, txs);
            Accepted(c, txs + [tx]) == Accepted(c, txs) + (if IsInvalid(l, tx) || IsPending(c, l, tx) then [] else [tx])
  {
    hide IsInvalid;
    hide IsPending;
    hide Replay;
    assert (txs + [tx])[..|txs|] == txs;
  }

  /** None of the transactions has ended up as invalid or pending. */
  ghost predicate NoneTurnedAway(c: Context, txs: seq<Tx>) {
    var l := Replay(c, txs);
    forall i :: 0 <= i < |txs| ==> txs[i].hash !in l.invalidTx && txs[i].hash !in l.pendingTx
  }

  lemma TakenBefore(c: Context, txs: seq<Tx>, tx: Tx)
    requires NoneTurnedAway(c, txs + [tx])
    ensures NoneTurnedAway(c, txs) && !IsInvalid(Replay(c, txs), tx) && !IsPending(c, Replay(c, txs), tx)
  {
    hide IsInvalid;
    hide IsPending;
    hide Replay;
    var all := txs + [tx];
    ReplayMore(c, txs, tx);
    assert all[|txs|] == tx;
    assert forall i :: 0 <= i < |txs| ==> all[i] == txs[i];
  }

  lemma {:induction false} TakenAreAccepted(c: Context, txs: seq<Tx>)
    requires NoneTurnedAway(c, txs)
    ensures Accepted(c, txs) == txs
    ensures forall u :: u in Replay(c, txs).spentOutputs <==> SpentIn(txs, u)
  {
    if txs == [] {
      NothingSpent();
    } else {
      hide Apply;
      hide IsInvalid;
      hide IsPending;
      hide SpentIn;
      hide Accepted;
      hide Replay;
      hide NoneTurnedAway;
      var t, tx := txs[..|txs| - 1], txs[|txs| - 1];
      assert txs == t + [tx];
      TakenBefore(c, t, tx);
      TakenAreAccepted(c, t);
      TakenStep(c, t, tx, Replay(c, t));
      AcceptedMore(c, t, tx);
      ReplayMore(c, t, tx);
    }
  }

  /** Confirmed transactions are never turned away. */
  lemma {:induction false} ConfirmedAreTaken(c: Context, txs: seq<Tx>)
    requires AllConfirmed(txs)
    ensures Replay(c, txs).invalidTx == {} == Replay(c, txs).pendingTx && NoneTurnedAway(c, txs)
  {
    if txs != [] {
      hide Accept;
      ConfirmedAreTaken(c, txs[..|txs| - 1]);
      TurnsNoneAway(c, Replay(c, txs[..|txs| - 1]), txs[|txs| - 1]);
    }
  }

  lemma TurnsNoneAway(c: Context, l: Ledger, tx: Tx)
    ensures Accept(c, l, tx).invalidTx == l.invalidTx && Accept(c, l, tx).pendingTx == l.pendingTx
  {
  }

  lemma NothingSpent()
    ensures forall u :: !SpentIn([], u)
  {
  }

  lemma TakenStep(c: Context, txs: seq<Tx>, tx: Tx, l: Ledger)
    requires !IsInvalid(l, tx) && !IsPending(c, l, tx)
    requires forall u :: u in l.spentOutputs <==> SpentIn(txs, u)
    ensures forall u :: u in Apply(c, l, tx).spentOutputs <==> SpentIn(txs + [tx], u)
  {
    hide IsInvalid;
    hide IsPending;
    hide SpentIn;
    hide SpentBy;
    hide Unspent;
    hide UsedBy;
    hide Sum;
    forall u
      ensures SpentIn(txs + [tx], u) <==> SpentIn(txs, u) || u in SpentBy(tx.inputs)
    {
      SpentInMore(txs, tx, u);
    }
  }

  /** With no transaction turned away, what is left is exactly what pays to the wallet and is not spent. */
  lemma TakenUtxos(c: Context, txs: seq<Tx>)
    requires Listed(c, txs) && NoneTurnedAway(c, txs)
    ensures var l := Replay(c, txs);
            && NoDuplicates(l.utxos) && (forall u :: u in l.utxos <==> OwnedBy(c, txs, u) && !SpentIn(txs, u))
            && l.balance == Sum(c, l.utxos) % W64
  {
    hide OwnedBy;
    hide SpentIn;
    hide IsInvalid;
    hide IsPending;
    hide Accepted;
    hide Sum;
    hide NoneTurnedAway;
    BalanceAddsUp(c, txs);
    HistorySettles(c, txs);
    TakenAreAccepted(c, txs);
    if txs != [] {
      var t, tx := txs[..|txs| - 1], txs[|txs| - 1];
      assert txs == t + [tx];
      TakenBefore(c, t, tx);
    } else {
      assert Replay(c, txs).utxos == [];
    }
  }

  /** With every transaction confirmed, what is left is exactly what pays to the wallet and is not spent. */
  lemma ConfirmedUtxos(c: Context, txs: seq<Tx>)
    requires Listed(c, txs) && AllConfirmed(txs)
    ensures var l := Replay(c, txs);
            && NoDuplicates(l.utxos) && (forall u :: u in l.utxos <==> OwnedBy(c, txs, u) && !SpentIn(txs, u))
            && l.balance == Sum(c, l.utxos) % W64
  {
    hide OwnedBy;
    hide SpentIn;
    hide Sum;
    hide NoneTurnedAway;
    hide Replay;
    ConfirmedAreTaken(c, txs);
    TakenUtxos(c, txs);
  }

  // ---------- what is left when heights have changed since ----------

  /** Two transactions that differ in height and time at most. */
  predicate SameTransfer(t: Tx, t': Tx) {
    t.hash == t'.hash && t.inputs == t'.inputs && t.outputs == t'.outputs
  }

  ghost predicate HasTransfer(t: Tx, txs: seq<Tx>) {
    exists j :: 0 <= j < |txs| && SameTransfer(t, txs[j])
  }

  /** Every transaction of the one list is in the other, perhaps at another place and with another height and time. */
  ghost predicate AllIn(txs: seq<Tx>, txs': seq<Tx>) {
    forall i :: 0 <= i < |txs| ==> HasTransfer(txs[i], txs')
  }

  lemma OwnedIn(c: Context, c': Context, txs: seq<Tx>, txs': seq<Tx>, u: Outpoint)
    requires AllIn(txs, txs') && c.allAddrs == c'.allAddrs
    ensures OwnedBy(c, txs, u) ==> OwnedBy(c', txs', u)
    ensures SpentIn(txs, u) ==> SpentIn(txs', u)
  {
    if OwnedBy(c, txs, u) {
      var i :| 0 <= i < |txs| && u.hash == txs[i].hash && u.n < |txs[i].outputs| && IsOwned(c, txs[i].outputs[u.n]);
      var j :| 0 <= j < |txs'| && SameTransfer(txs[i], txs'[j]);
      assert IsOwned(c', txs'[j].outputs[u.n]);
    }
    if SpentIn(txs, u) {
      var i :| 0 <= i < |txs| && u in SpentBy(txs[i].inputs);
      var j :| 0 <= j < |txs'| && SameTransfer(txs[i], txs'[j]);
      assert u in SpentBy(txs'[j].inputs);
    }
  }

  lemma {:induction false} SameAmounts(c: Context, c': Context, s: seq<Outpoint>)
    requires forall u :: u in s ==> Amount(c, u) == Amount(c', u)
    ensures Sum(c, s) == Sum(c', s)
  {
    if s != [] {
      SameAmounts(c, c', s[1..]);
    }
  }

  lemma AmountIn(c: Context, c': Context, txs: seq<Tx>, txs': seq<Tx>, u: Outpoint)
    requires Listed(c, txs) && Listed(c', txs') && AllIn(txs, txs') && OwnedBy(c, txs, u)
    ensures Amount(c, u) == Amount(c', u)
  {
    hide IsOwned;
    var i :| 0 <= i < |txs| && u.hash == txs[i].hash && u.n < |txs[i].outputs| && IsOwned(c, txs[i].outputs[u.n]);
    var j :| 0 <= j < |txs'| && SameTransfer(txs[i], txs'[j]);
    assert c.allTx[u.hash] == txs[i] && c'.allTx[u.hash] == txs'[j];
  }

  /** No unspent output of the list pays to an address of the wallet other than the given ones. */
  ghost predicate PaysOnlyTo(c: Context, txs: seq<Tx>, addrs: set<Address>) {
    forall u :: OwnedBy(c, txs, u) && !SpentIn(txs, u) ==> OwnedBy(c.(allAddrs := addrs), txs, u)
  }

  /**
   * What was left of past transactions, none of them turned away, is what is left of the same transactions now, as far as
   * the addresses of that time go; it is all that is left now exactly if no unspent output pays to an address added since.
   */
  lemma LeftSince(past: Context, pastTxs: seq<Tx>, c: Context, txs: seq<Tx>)
    requires Listed(past, pastTxs) && Listed(c, txs) && AllIn(pastTxs, txs) && AllIn(txs, pastTxs)
    requires NoneTurnedAway(past, pastTxs) && past.allAddrs <= c.allAddrs
    ensures var l, before := Replay(past, pastTxs), c.(allAddrs := past.allAddrs);
            && NoDuplicates(l.utxos) && (forall u :: u in l.utxos <==> OwnedBy(before, txs, u) && !SpentIn(txs, u))
            && l.balance == Sum(c, l.utxos) % W64
            && ((forall u :: u in l.utxos <==> OwnedBy(c, txs, u) && !SpentIn(txs, u)) <==> PaysOnlyTo(c, txs, past.allAddrs))
  {
    hide OwnedBy;
    hide SpentIn;
    hide Replay;
    hide Sum;
    hide Amount;
    hide NoneTurnedAway;
    hide AllIn;
    hide Listed;
    var l, before := Replay(past, pastTxs), c.(allAddrs := past.allAddrs);
    TakenUtxos(past, pastTxs);
    forall u
      ensures OwnedBy(past, pastTxs, u) <==> OwnedBy(before, txs, u)
      ensures SpentIn(pastTxs, u) <==> SpentIn(txs, u)
      ensures OwnedBy(before, txs, u) ==> OwnedBy(c, txs, u)
    {
      OwnedIn(past, before, pastTxs, txs, u);
      OwnedIn(before, past, txs, pastTxs, u);
      OwnedByMoreAddresses(before, c, txs, u);
    }
    forall u | u in l.utxos
      ensures Amount(past, u) == Amount(c, u)
    {
      AmountIn(past, c, pastTxs, txs, u);
    }
    SameAmounts(past, c, l.utxos);
  }

  lemma OwnedByMoreAddresses(c: Context, c': Context, txs: seq<Tx>, u: Outpoint)
    requires c.allAddrs <= c'.allAddrs
    ensures OwnedBy(c, txs, u) ==> OwnedBy(c', txs, u)
  {
  }

  ghost predicate HasUnconfirmed(txs: seq<Tx>, h: Hash) {
    exists i :: 0 <= i < |txs| && txs[i].hash == h && txs[i].blockHeight == TX_UNCONFIRMED
  }

  lemma HasUnconfirmedMore(txs: seq<Tx>, tx: Tx, h: Hash)
    ensures HasUnconfirmed(txs, h) || (tx.hash == h && tx.blockHeight == TX_UNCONFIRMED) ==> HasUnconfirmed(txs + [tx], h)
  {
    var all := txs + [tx];
    assert all[|txs|] == tx && forall i :: 0 <= i < |txs| ==> all[i] == txs[i];
  }

  /** Only unconfirmed transactions are turned away. */
  lemma {:induction false} TurnedAwayAreUnconfirmed(c: Context, txs: seq<Tx>)
    ensures forall h :: h in Replay(c, txs).invalidTx || h in Replay(c, txs).pendingTx ==> HasUnconfirmed(txs, h)
  {
    if txs != [] {
      hide Accept;
      hide HasUnconfirmed;
      var t, tx := txs[..|txs| - 1], txs[|txs| - 1];
      assert txs == t + [tx];
      TurnedAwayAreUnconfirmed(c, t);
      TurnsNoneAway(c, Replay(c, t), tx);
      forall h | h in Replay(c, txs).invalidTx || h in Replay(c, txs).pendingTx
        ensures HasUnconfirmed(txs, h)
      {
        HasUnconfirmedMore(t, tx, h);
      }
    }
  }

  lemma SumFirst(c: Context, x: Outpoint, s: seq<Outpoint>)
    ensures Sum(c, [x] + s) == Amount(c, x) + Sum(c, s)
  {
    hide Amount;
    assert ([x] + s)[1..] == s;
  }

  /** A list, cut at one of its elements. */
  lemma CutAt(b: seq<Outpoint>, x: Outpoint) returns (p: seq<Outpoint>, q: seq<Outpoint>)
    requires x in b
    ensures b == p + ([x] + q)
  {
    var k :| 0 <= k < |b| && b[k] == x;
    p, q := b[..k], b[k + 1..];
  }

  lemma WithoutCut(x: Outpoint, a: seq<Outpoint>, p: seq<Outpoint>, q: seq<Outpoint>)
    requires multiset([x] + a) == multiset(p + ([x] + q))
    ensures multiset(a) == multiset(p + q)
  {
    assert multiset([x] + a) - multiset{x} == multiset(a);
    assert multiset(p + ([x] + q)) - multiset{x} == multiset(p + q);
  }

  lemma {:induction false} SumOfSame(c: Context, a: seq<Outpoint>, b: seq<Outpoint>)
    requires multiset(a) == multiset(b)
    ensures Sum(c, a) == Sum(c, b)
    decreases |a|
  {
    hide Amount;
    hide Sum;
    if a == [] {
      assert |b| == |multiset(b)| == 0;
    } else {
      var x, t := a[0], a[1..];
      assert a == [x] + t;
      assert x in multiset(b);
      var p, q := CutAt(b, x);
      WithoutCut(x, t, p, q);
      SumOfSame(c, t, p + q);
      SumAppend(c, p, q);
      SumAppend(c, p, [x] + q);
      SumFirst(c, x, t);
      SumFirst(c, x, q);
    }
  }

  lemma {:induction false} CountOnce(s: seq<Outpoint>, u: Outpoint)
    requires NoDuplicates(s)
    ensures multiset(s)[u] == if u in s then 1 else 0
  {
    if s != [] {
      assert NoDuplicates(s[1..]) && s[0] !in s[1..];
      CountOnce(s[1..], u);
      assert s == [s[0]] + s[1..];
    }
  }

  lemma SameOnce(a: seq<Outpoint>, b: seq<Outpoint>)
    requires NoDuplicates(a) && NoDuplicates(b) && forall u :: u in a <==> u in b
    ensures multiset(a) == multiset(b)
  {
    forall u
      ensures multiset(a)[u] == multiset(b)[u]
    {
      CountOnce(a, u);
      CountOnce(b, u);
    }
  }

  /** The order of confirmed transactions does not matter: every order leaves the same outputs and the same balance. */
  lemma OrderDoesNotMatter(c: Context, txs: seq<Tx>, txs': seq<Tx>)
    requires Listed(c, txs) && AllConfirmed(txs) && multiset(txs) == multiset(txs')
    ensures multiset(Replay(c, txs).utxos) == multiset(Replay(c, txs').utxos)
    ensures Replay(c, txs).balance == Replay(c, txs').balance
  {
    hide Replay;
    hide Sum;
    hide IsOwned;
    hide SpentBy;
    Reordered(c, txs, txs');
    ConfirmedUtxos(c, txs);
    ConfirmedUtxos(c, txs');
    forall u
      ensures OwnedBy(c, txs, u) <==> OwnedBy(c, txs', u)
      ensures SpentIn(txs, u) <==> SpentIn(txs', u)
    {
      SameOwned(c, txs, txs', u);
      SameOwned(c, txs', txs, u);
    }
    SameOnce(Replay(c, txs).utxos, Replay(c, txs').utxos);
    SumOfSame(c, Replay(c, txs).utxos, Replay(c, txs').utxos);
  }

  lemma SameOwned(c: Context, txs: seq<Tx>, txs': seq<Tx>, u: Outpoint)
    requires multiset(txs) == multiset(txs')
    ensures OwnedBy(c, txs, u) ==> OwnedBy(c, txs', u)
    ensures SpentIn(txs, u) ==> SpentIn(txs', u)
  {
    if OwnedBy(c, txs, u) {
      var i :| 0 <= i < |txs| && u.hash == txs[i].hash && u.n < |txs[i].outputs| && IsOwned(c, txs[i].outputs[u.n]);
      var j := FindSame(txs, txs', i);
      assert txs'[j] == txs[i];
    }
    if SpentIn(txs, u) {
      var i :| 0 <= i < |txs| && u in SpentBy(txs[i].inputs);
      var j := FindSame(txs, txs', i);
      assert txs'[j] == txs[i];
    }
  }

  lemma FindSame(txs: seq<Tx>, txs': seq<Tx>, i: nat) returns (j: nat)
    requires i < |txs| && multiset(txs) == multiset(txs')
    ensures j < |txs'| && txs'[j] == txs[i]
  {
    assert txs[i] in multiset(txs');
    j :| 0 <= j < |txs'| && txs'[j] == txs[i];
  }

  lemma Reordered(c: Context, txs: seq<Tx>, txs': seq<Tx>)
    requires Listed(c, txs) && AllConfirmed(txs) && multiset(txs) == multiset(txs')
    ensures Listed(c, txs') && AllConfirmed(txs')
  {
    forall i | 0 <= i < |txs'|
      ensures txs'[i].hash in c.allTx && c.allTx[txs'[i].hash] == txs'[i] && txs'[i].blockHeight != TX_UNCONFIRMED
    {
      var j := FindSame(txs', txs, i);
      assert txs[j] == txs'[i];
    }
    forall i, j | 0 <= i < j < |txs'|
      ensures txs'[i].hash != txs'[j].hash
    {
      TxOnce(txs, txs'[i]);
      if txs'[i].hash == txs'[j].hash {
        assert txs'[i] == txs'[j];
        TxTwice(txs', i, j);
        assert false;
      }
    }
  }

  lemma {:induction false} TxOnce(s: seq<Tx>, t: Tx)
    requires forall i, j :: 0 <= i < j < |s| ==> s[i].hash != s[j].hash
    ensures multiset(s)[t] <= 1
  {
    if s != [] {
      TxOnce(s[1..], t);
      assert s == [s[0]] + s[1..];
      assert s[0] !in s[1..];
      assert s[0] !in multiset(s[1..]);
    }
  }

  lemma TxTwice(s: seq<Tx>, i: nat, j: nat)
    requires i < j < |s| && s[i] == s[j]
    ensures multiset(s)[s[i]] >= 2
  {
    assert s == s[..j] + s[j..];
    assert s[i] in s[..j] && s[j] in s[j..];
    assert s[i] in multiset(s[..j]) && s[j] in multiset(s[j..]);
  }

  // ---------- when nothing wraps around ----------

  /** Everything that was ever paid to the wallet. */
  function TotalPaid(c: Context, txs: seq<Tx>): nat {
    if txs == [] then 0
    else TotalPaid(c, txs[..|txs| - 1]) + Sum(c, Credits(c, txs[|txs| - 1], |txs[|txs| - 1].outputs|))
  }

  lemma {:induction false} UnspentSum(c: Context, utxos: seq<Outpoint>, spent: set<Outpoint>)
    ensures Sum(c, Unspent(utxos, spent)) <= Sum(c, utxos)
  {
    if utxos != [] {
      UnspentSum(c, utxos[1..], spent);
      var rest := Unspent(utxos[1..], spent);
      assert ([utxos[0]] + rest)[1..] == rest;
    }
  }

  lemma AppliedSum(c: Context, l: Ledger, tx: Tx)
    ensures Sum(c, Apply(c, l, tx).utxos) <= Sum(c, l.utxos) + Sum(c, Credits(c, tx, |tx.outputs|))
  {
    hide Sum;
    hide Unspent;
    hide IsInvalid;
    hide IsPending;
    hide Credits;
    var credits := Credits(c, tx, |tx.outputs|);
    SumAppend(c, l.utxos, credits);
    UnspentSum(c, l.utxos + credits, l.spentOutputs + SpentBy(tx.inputs));
  }

  /** As long as all payments together fit into 64 bits, the balance never wraps around. */
  lemma {:induction false} BalanceIsExact(c: Context, txs: seq<Tx>)
    ensures Sum(c, Replay(c, txs).utxos) <= TotalPaid(c, txs)
    ensures TotalPaid(c, txs) < W64 ==> Replay(c, txs).balance == Sum(c, Replay(c, txs).utxos)
  {
    hide Apply;
    hide Sum;
    hide Credits;
    BalanceAddsUp(c, txs);
    if txs == [] {
      EmptySum(c);
    } else {
      var n := |txs| - 1;
      BalanceIsExact(c, txs[..n]);
      AppliedSum(c, Replay(c, txs[..n]), txs[n]);
    }
  }

  /** What is left of confirmed transactions is worth no more than all that was paid to the wallet. */
  lemma LeftIsPaid(c: Context, txs: seq<Tx>, utxos: seq<Outpoint>)
    requires Listed(c, txs) && AllConfirmed(txs)
    requires NoDuplicates(utxos) && forall u :: u in utxos <==> OwnedBy(c, txs, u) && !SpentIn(txs, u)
    ensures Sum(c, utxos) <= TotalPaid(c, txs)
  {
    hide Replay;
    hide Sum;
    hide OwnedBy;
    hide SpentIn;
    ConfirmedUtxos(c, txs);
    SameOnce(utxos, Replay(c, txs).utxos);
    SumOfSame(c, utxos, Replay(c, txs).utxos);
    BalanceIsExact(c, txs);
  }
}

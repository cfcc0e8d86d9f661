/** How BRWallet.c builds transactions from its unspent outputs, and how much it can send. */
module CoinSelection {
  import opened Blocks
  import opened Ledgers
  import opened Script
  import opened WalletData
  import opened Wallets
  import opened Words

  const TX_FEE_PER_KB: nat := 10000
  const TX_OUTPUT_SIZE: nat := 34
  const TX_INPUT_SIZE: nat := 148
  const MIN_FEE_PER_KB: nat := (TX_FEE_PER_KB * 1000 + 190) / 191

  // ---------- fees and sizes ----------

  /** _txFee, in 64 bits */
  function TxFee(feePerKb: u64, size: nat): u64 {
    var standardFee := size * TX_FEE_PER_KB % W64 / 1000;
    var fee := ((size * feePerKb % W64 / 1000 + 99) / 100) * 100 % W64;
    if fee > standardFee then fee else standardFee
  }

  /** The fee without the limits of 64 bits. */
  function ExactFee(feePerKb: nat, size: nat): nat {
    var standardFee := size * TX_FEE_PER_KB / 1000;
    var fee := ((size * feePerKb / 1000 + 99) / 100) * 100;
    if fee > standardFee then fee else standardFee
  }

  /** Sizes below two megabytes and fee rates below 2^32 a kilobyte do not get near 64 bits. */
  const SMALL_SIZE: nat := 0x20_0000

  lemma ProductBelow(size: nat, rate: nat, slack: nat)
    requires rate + slack == W32 - 1 && size < SMALL_SIZE
    ensures size * rate < SMALL_SIZE * W32
  {
    assert size * (rate + slack) == size * rate + size * slack;
  }

  lemma FeeIsExact(feePerKb: u64, size: nat)
    requires feePerKb < W32 && size < SMALL_SIZE
    ensures TxFee(feePerKb, size) == ExactFee(feePerKb, size) < 0x40_0000_0000_0000
    ensures size > 0 ==> TxFee(feePerKb, size) > 0
  {
    var rate: nat, n: nat := feePerKb, size;
    ProductBelow(n, rate, W32 - 1 - rate);
    var product: nat := n * rate;
    FeeBelow(product, n);
  }

  /** The fee is ten a byte, or what the fee rate asks for rounded up to a multiple of 100, whichever is more. */
  lemma FeeIs(feePerKb: u64, size: nat)
    requires feePerKb < W32 && size < SMALL_SIZE
    ensures var fee, asked := TxFee(feePerKb, size), size * feePerKb / 1000;
            && fee >= 10 * size && fee >= asked
            && (fee == 10 * size || (fee % 100 == 0 && fee < asked + 100))
  {
    hide TxFee;
    hide ExactFee;
    FeeIsExact(feePerKb, size);
    ExactFeeIs(feePerKb, size);
  }

  lemma ExactFeeIs(feePerKb: nat, size: nat)
    ensures var fee, asked := ExactFee(feePerKb, size), size * feePerKb / 1000;
            && fee >= 10 * size && fee >= asked
            && (fee == 10 * size || (fee % 100 == 0 && fee < asked + 100))
  {
    var asked := size * feePerKb / 1000;
    RoundedUp(asked);
    Standard(size);
  }

  lemma Standard(size: nat)
    ensures size * TX_FEE_PER_KB / 1000 == 10 * size
  {
  }

  lemma RoundedUp(x: nat)
    ensures var y := (x + 99) / 100 * 100; x <= y < x + 100 && y % 100 == 0
  {
  }

  lemma FeeBelow(product: nat, size: nat)
    requires product < SMALL_SIZE * W32 && size < SMALL_SIZE
    ensures product % W64 == product && ((product / 1000 + 99) / 100) * 100 < 0x40_0000_0000_0000
    ensures size * TX_FEE_PER_KB % W64 / 1000 == size * 10
  {
  }

  lemma FeeMonotone(feePerKb: nat, s: nat, t: nat)
    requires s <= t
    ensures ExactFee(feePerKb, s) <= ExactFee(feePerKb, t)
  {
    MoreIsMore(s, t - s, feePerKb);
    RoundingMonotone(s * feePerKb, t * feePerKb);
  }

  lemma MoreIsMore(s: nat, d: nat, rate: nat)
    ensures s * rate <= (s + d) * rate
  {
  }

  lemma RoundingMonotone(x: nat, y: nat)
    requires x <= y
    ensures ((x / 1000 + 99) / 100) * 100 <= ((y / 1000 + 99) / 100) * 100
  {
  }

  function OutputSize(o: Output): nat {
    8 + VarIntLength(o.scriptLen) + o.scriptLen
  }

  function OutputsSize(s: seq<Output>): nat {
    if s == [] then 0 else OutputsSize(s[..|s| - 1]) + OutputSize(s[|s| - 1])
  }

  /** BRTransactionSize of a transaction with n inputs still to be signed. */
  function UnsignedSize(n: u64, outputs: Outputs): nat {
    8 + VarIntLength(n) + VarIntLength(|outputs|) + TX_INPUT_SIZE * n + OutputsSize(outputs)
  }

  /** The sizes for fewer than 253 inputs and outputs. */
  lemma SizesAre(n: u64, outputs: Outputs, o: Output)
    requires n < 253 && |outputs| < 253 && o.scriptLen < 253
    ensures UnsignedSize(n, outputs) == 10 + 148 * n + OutputsSize(outputs)
    ensures MaxSize(n) == 10 + 148 * n + 68
    ensures OutputsSize([]) == 0 && OutputsSize(outputs + [o]) == OutputsSize(outputs) + 9 + o.scriptLen
  {
    assert (outputs + [o])[..|outputs|] == outputs;
  }

  function Total(outputs: seq<Output>): nat {
    if outputs == [] then 0 else Total(outputs[..|outputs| - 1]) + outputs[|outputs| - 1].amount
  }

  // ---------- the inputs ----------

  /** Where the amounts of the unspent outputs are looked up. */
  function Lookup(all: map<Hash, Tx>): Context {
    Context(all, {}, 0, 0)
  }

  /** The unspent outputs whose transactions are known; the others are skipped. */
  function Existing(all: map<Hash, Tx>, utxos: seq<Outpoint>): (r: seq<Outpoint>)
    ensures |r| <= |utxos| && forall u :: u in r ==> u in utxos && Exists(Lookup(all), u)
  {
    if utxos == [] then []
    else
      var u := utxos[|utxos| - 1];
      var rest := Existing(all, utxos[..|utxos| - 1]);
      if Exists(Lookup(all), u) then rest + [u] else rest
  }

  function Worth(all: map<Hash, Tx>, utxos: seq<Outpoint>): nat {
    Sum(Lookup(all), utxos)
  }

  lemma ExistingMore(all: map<Hash, Tx>, utxos: seq<Outpoint>, i: nat)
    requires i < |utxos|
    ensures Existing(all, utxos[..i + 1]) == Existing(all, utxos[..i]) + (if Exists(Lookup(all), utxos[i]) then [utxos[i]] else [])
    ensures Worth(all, Existing(all, utxos[..i + 1])) == Worth(all, Existing(all, utxos[..i])) + Amount(Lookup(all), utxos[i])
  {
    hide Sum;
    assert utxos[..i + 1][..i] == utxos[..i];
    if Exists(Lookup(all), utxos[i]) {
      SumOneMore(Lookup(all), Existing(all, utxos[..i]), utxos[i]);
    }
  }

  lemma {:induction false} ExistingGrows(all: map<Hash, Tx>, utxos: seq<Outpoint>, i: nat)
    requires i <= |utxos|
    ensures |Existing(all, utxos[..i])| <= |Existing(all, utxos)|
    ensures Worth(all, Existing(all, utxos[..i])) <= Worth(all, Existing(all, utxos))
    decreases |utxos| - i
  {
    hide Existing;
    hide Worth;
    if i == |utxos| {
      assert utxos[..i] == utxos;
    } else {
      ExistingMore(all, utxos, i);
      ExistingGrows(all, utxos, i + 1);
    }
  }

  /** The size with one more output for the change, in 64 bits. */
  function SizeWithChange(n: u64, outputs: Outputs): u64 {
    (UnsignedSize(n, outputs) + TX_OUTPUT_SIZE) % W64
  }

  /** The fee with n inputs, rounded up so that what remains in the wallet is a multiple of 100. */
  function FeeAmount(feePerKb: u64, walletBalance: u64, amount: u64, n: u64, outputs: Outputs): u64 {
    var fee := TxFee(feePerKb, SizeWithChange(n, outputs));
    if n > 0 && walletBalance > (amount + fee) % W64 then (fee + (walletBalance - (amount + fee) % W64) % 100) % W64 else fee
  }

  /** Enough for the outputs and the fee, with nothing or a worthwhile amount of change left over, in 64 bits. */
  predicate IsEnough(balance: u64, amount: u64, feeAmount: u64, minAmount: u64) {
    balance == (amount + feeAmount) % W64 || balance >= (amount + feeAmount + minAmount) % W64
  }

  /** How the loop over the unspent outputs ends. */
  ghost predicate Selected(w: Wallet, outputs: Outputs, amount: u64, minAmount: u64, inputs: seq<Outpoint>, balance: u64,
      feeAmount: u64, tooLarge: bool)
    reads w`allTx, w`utxos, w`balance, w`feePerKb
  {
    && |inputs| < W64
    && (exists i :: 0 <= i <= |w.utxos| && inputs == Existing(w.allTx, w.utxos[..i]))
    && (tooLarge ==> inputs != [] && SizeWithChange(|inputs|, outputs) > TX_MAX_SIZE)
    && (!tooLarge ==>
          && balance == Worth(w.allTx, inputs) % W64
          && feeAmount == FeeAmount(w.feePerKb, w.balance, amount, |inputs|, outputs)
          && (inputs != [] ==> SizeWithChange(|inputs|, outputs) <= TX_MAX_SIZE)
          && (inputs == Existing(w.allTx, w.utxos) || (inputs != [] && IsEnough(balance, amount, feeAmount, minAmount))))
    && NotEnoughBefore(w, outputs, amount, minAmount, inputs, |inputs|)
  }

  /** No fewer inputs were enough, and none of them made the transaction too large. */
  ghost predicate NotEnoughBefore(w: Wallet, outputs: Outputs, amount: u64, minAmount: u64, inputs: seq<Outpoint>, n: nat)
    requires n <= |inputs| < W64
    reads w`allTx, w`balance, w`feePerKb
  {
    forall k :: 0 < k < n ==>
      && SizeWithChange(k, outputs) <= TX_MAX_SIZE
      && var total, fee := Worth(w.allTx, inputs[..k]) % W64, FeeAmount(w.feePerKb, w.balance, amount, k, outputs);
      total != (amount + fee) % W64 && total < (amount + fee + minAmount) % W64
  }

  lemma NotEnoughYet(w: Wallet, outputs: Outputs, amount: u64, minAmount: u64, inputs: seq<Outpoint>, o: Outpoint)
    requires |inputs| + 1 < W64 && NotEnoughBefore(w, outputs, amount, minAmount, inputs, |inputs|)
    requires inputs != [] ==>
               && SizeWithChange(|inputs|, outputs) <= TX_MAX_SIZE
               && !IsEnough(Worth(w.allTx, inputs) % W64, amount, FeeAmount(w.feePerKb, w.balance, amount, |inputs|, outputs), minAmount)
    ensures NotEnoughBefore(w, outputs, amount, minAmount, inputs + [o], |inputs| + 1)
  {
    hide Worth;
    hide FeeAmount;
    hide SizeWithChange;
    var next := inputs + [o];
    assert next[..|inputs|] == inputs;
    assert forall k :: 0 < k < |inputs| ==> next[..k] == inputs[..k];
  }

  /** The loop over the unspent outputs. */
  method SelectInputs(w: Wallet, outputs: Outputs, amount: u64, minAmount: u64)
    returns (inputs: seq<Outpoint>, balance: u64, feeAmount: u64, tooLarge: bool)
    requires |w.utxos| < W64
    ensures Selected(w, outputs, amount, minAmount, inputs, balance, feeAmount, tooLarge)
    ensures !tooLarge && inputs != Existing(w.allTx, w.utxos) ==>
              balance == (amount + feeAmount) % 0x1_0000_0000_0000_0000 || balance >= (amount + feeAmount + minAmount) % 0x1_0000_0000_0000_0000
  {
    hide Sum;
    hide TxFee;
    hide UnsignedSize;
    hide Existing;
    hide NotEnoughBefore;
    hide SizeWithChange;
    hide FeeAmount;
    hide Worth;
    FeeBefore(w.feePerKb, w.balance, amount, outputs);
    inputs, balance, tooLarge := [], 0, false;
    feeAmount := TxFee(w.feePerKb, SizeWithChange(0, outputs));
    NothingExists(w.allTx);
    NothingBefore(w, outputs, amount, minAmount);
    assert w.utxos[..0] == [];
    var i := 0;
    while i < |w.utxos|
      invariant i <= |w.utxos| && inputs == Existing(w.allTx, w.utxos[..i]) && balance == Worth(w.allTx, inputs) % W64
      invariant feeAmount == FeeAmount(w.feePerKb, w.balance, amount, |inputs|, outputs)
      invariant inputs != [] ==> SizeWithChange(|inputs|, outputs) <= TX_MAX_SIZE && !IsEnough(balance, amount, feeAmount, minAmount)
      invariant |inputs| <= i && NotEnoughBefore(w, outputs, amount, minAmount, inputs, |inputs|)
    {
      var o := w.utxos[i];
      ExistingMore(w.allTx, w.utxos, i);
      i := i + 1;
      if o.hash in w.allTx && o.n < |w.allTx[o.hash].outputs| {
        ghost var was := Worth(w.allTx, inputs);
        NotEnoughYet(w, outputs, amount, minAmount, inputs, o);
        inputs := inputs + [o];
        if SizeWithChange(|inputs|, outputs) > TX_MAX_SIZE {
          tooLarge := true;
          return;
        }
        balance := (balance + w.allTx[o.hash].outputs[o.n].amount) % W64;
        AddWrapped(was, w.allTx[o.hash].outputs[o.n].amount);
        feeAmount := TxFee(w.feePerKb, SizeWithChange(|inputs|, outputs));
        FeeAfter(w.feePerKb, w.balance, amount, |inputs|, outputs);
        if w.balance > (amount + feeAmount) % W64 {
          feeAmount := (feeAmount + (w.balance - (amount + feeAmount) % W64) % 100) % W64;
        }
        if IsEnough(balance, amount, feeAmount, minAmount) {
          return;
        }
      }
    }
    assert w.utxos[..i] == w.utxos;
  }

  lemma FeeBefore(feePerKb: u64, walletBalance: u64, amount: u64, outputs: Outputs)
    ensures FeeAmount(feePerKb, walletBalance, amount, 0, outputs) == TxFee(feePerKb, SizeWithChange(0, outputs))
  {
  }

  lemma FeeAfter(feePerKb: u64, walletBalance: u64, amount: u64, n: u64, outputs: Outputs)
    requires n > 0
    ensures var fee := TxFee(feePerKb, SizeWithChange(n, outputs));
            FeeAmount(feePerKb, walletBalance, amount, n, outputs)
            == if walletBalance > (amount + fee) % W64 then (fee + (walletBalance - (amount + fee) % W64) % 100) % W64 else fee
  {
  }

  lemma NothingBefore(w: Wallet, outputs: Outputs, amount: u64, minAmount: u64)
    ensures NotEnoughBefore(w, outputs, amount, minAmount, [], 0)
  {
  }

  lemma NothingExists(all: map<Hash, Tx>)
    ensures Existing(all, []) == [] && Worth(all, []) == 0
  {
  }

  // ---------- the transaction ----------

  /** BRWalletMinOutputAmount, in 64 bits */
  function MinOutputAmount(feePerKb: u64): u64 {
    var amount := (TX_MIN_OUTPUT_AMOUNT * feePerKb + MIN_FEE_PER_KB - 1) % W64 / MIN_FEE_PER_KB;
    if amount > TX_MIN_OUTPUT_AMOUNT then amount else TX_MIN_OUTPUT_AMOUNT
  }

  /** BRTransactionShuffleOutputs; BRRand(bound) is any number below the bound. */
  method ShuffleOutputs(outputs: array<Output>, rand: (nat, nat) -> nat)
    modifies outputs
    ensures multiset(outputs[..]) == multiset(old(outputs[..]))
  {
    var i := 0;
    while i + 1 < outputs.Length
      invariant multiset(outputs[..]) == multiset(old(outputs[..]))
    {
      var bound := outputs.Length - i;
      var j := i + rand(i, bound) % bound;
      if j != i {
        var t := outputs[i];
        outputs[i] := outputs[j];
        outputs[j] := t;
      }
      i := i + 1;
    }
  }

  /** What building a transaction comes to; TooLarge is where the source goes on to build a smaller one. */
  datatype Outcome = NotBuilt | TooLarge | Built(inputs: seq<Outpoint>, outputs: seq<Output>)

  method SumAmounts(outputs: Outputs) returns (amount: u64)
    ensures amount == Total(outputs) % W64
  {
    amount := 0;
    var i := 0;
    assert outputs[..0] == [];
    while i < |outputs|
      invariant i <= |outputs| && amount == Total(outputs[..i]) % W64
    {
      AddWrapped(Total(outputs[..i]), outputs[i].amount);
      amount := (amount + outputs[i].amount) % W64;
      assert outputs[..i + 1][..i] == outputs[..i];
      i := i + 1;
    }
    assert outputs[..i] == outputs;
  }

  /** A transaction that came out of the selection of inputs. */
  ghost predicate Pays(w: Wallet, outputs: Outputs, feeAmount: u64, inputs: seq<Outpoint>, outputs': seq<Output>)
    reads w`allTx, w`feePerKb
  {
    var balance, amount := Worth(w.allTx, inputs) % W64, Total(outputs) % W64;
    && outputs != [] && balance >= (amount + feeAmount) % W64
    && var rest := balance - (amount + feeAmount) % W64;
    if rest > MinOutputAmount(w.feePerKb) then
      exists change: Output :: change.amount == rest && multiset(outputs') == multiset(outputs) + multiset{change}
    else outputs' == outputs
  }

  /** How building a transaction ends: what was selected, and what came of it. */
  ghost predicate Concluded(w: Wallet, outputs: Outputs, r: Outcome, inputs: seq<Outpoint>, balance: u64, feeAmount: u64, tooLarge: bool)
    reads w`allTx, w`utxos, w`balance, w`feePerKb
  {
    var amount := Total(outputs) % W64;
    && Selected(w, outputs, amount, MinOutputAmount(w.feePerKb), inputs, balance, feeAmount, tooLarge)
    && (r.Built? ==> !tooLarge && r.inputs == inputs && Pays(w, outputs, feeAmount, inputs, r.outputs))
    && (!r.Built? && !tooLarge ==> outputs == [] || balance < (amount + feeAmount) % W64)
    && (tooLarge ==> r == if w.balance < (amount + MostlyFee(w, outputs)) % W64 then NotBuilt else TooLarge)
  }

  /** The fee for a transaction of all unspent outputs, as reckoned before a smaller one is built. */
  function MostlyFee(w: Wallet, outputs: Outputs): u64
    reads w`utxos, w`feePerKb
  {
    TxFee(w.feePerKb, (10 + |w.utxos| * TX_INPUT_SIZE + (|outputs| + 1) * TX_OUTPUT_SIZE) % W64)
  }

  lemma SelectedSum(w: Wallet, outputs: Outputs, amount: u64, minAmount: u64, inputs: seq<Outpoint>, balance: u64,
      feeAmount: u64, tooLarge: bool)
    requires Selected(w, outputs, amount, minAmount, inputs, balance, feeAmount, tooLarge)
    ensures !tooLarge ==> balance == Worth(w.allTx, inputs) % W64
  {
  }

  /** BRWalletCreateTxForOutputs, up to the branch that starts over with smaller outputs. */
  method CreateTxForOutputs(w: Wallet, outputs: Outputs, scriptLen: Address -> u64, rand: (nat, nat) -> nat, moved: bool)
    returns (r: Outcome, ghost inputs: seq<Outpoint>, ghost balance: u64, ghost feeAmount: u64, ghost tooLarge: bool)
    requires |w.utxos| < W64 && w.ValidChains()
    modifies w`internalChain, w`externalChain, w`allAddrs
    ensures w.ValidChains() && old(w.allAddrs) <= w.allAddrs
    ensures Concluded(w, outputs, r, inputs, balance, feeAmount, tooLarge)
    ensures r.Built? ==> forall o :: o in r.outputs ==> o in outputs || IsChangeAddress(w, o.address)
  {
    hide Worth;
    hide Total;
    hide MinOutputAmount;
    hide Wallet.ValidChains;
    hide MostlyFee;
    hide IsChangeAddress;
    hide Selected;
    hide TxFee;
    var amount := SumAmounts(outputs);
    var minAmount := MinOutputAmount(w.feePerKb);
    var picked, sum, fee, large := SelectInputs(w, outputs, amount, minAmount);
    inputs, balance, feeAmount, tooLarge := picked, sum, fee, large;
    SelectedSum(w, outputs, amount, minAmount, inputs, balance, feeAmount, tooLarge);
    if large {
      r := if w.balance < (amount + MostlyFee(w, outputs)) % W64 then NotBuilt else TooLarge;
    } else if |outputs| < 1 || sum < (amount + fee) % W64 {
      r := NotBuilt;
    } else {
      var rest := sum - (amount + fee) % W64;
      var final := outputs;
      if rest > minAmount {
        final := AddChange(w, outputs, rest, scriptLen, rand, moved);
      }
      r := Built(picked, final);
    }
  }

  /** An address of the wallet that has not been used, or the empty one when none could be derived. */
  ghost predicate IsChangeAddress(w: Wallet, a: Address)
    reads w`allAddrs, w`usedAddrs
  {
    a == NO_ADDRESS || (a in w.allAddrs && a !in w.usedAddrs)
  }

  /** The change output, on a new address if there is one, and the shuffle that hides it. */
  method AddChange(w: Wallet, outputs: Outputs, amount: u64, scriptLen: Address -> u64, rand: (nat, nat) -> nat, moved: bool)
    returns (outputs': seq<Output>)
    requires w.ValidChains()
    modifies w`internalChain, w`externalChain, w`allAddrs
    ensures w.ValidChains() && old(w.allAddrs) <= w.allAddrs
    ensures exists change: Output :: change.amount == amount && multiset(outputs') == multiset(outputs) + multiset{change}
    ensures forall o :: o in outputs' ==> o in outputs || IsChangeAddress(w, o.address)
  {
    ghost var was := w.allAddrs;
    var addrs := w.UnusedAddrs(1, true, moved);
    var address := if |addrs| > 0 then addrs[0] else NO_ADDRESS;
    var change := Output(address, amount, scriptLen(address));
    var all := outputs + [change];
    var a := new Output[|all|](i requires 0 <= i < |all| => all[i]);
    assert a[..] == all;
    ShuffleOutputs(a, rand);
    outputs' := a[..];
    assert multiset(outputs') == multiset(outputs) + multiset{change};
    forall o | o in outputs'
      ensures o in outputs || o == change
    {
      assert o in multiset(outputs');
    }
  }

  // ---------- value is conserved ----------

  const MANY: nat := 0x4000_0000_0000_0000

  /** Amounts, fee rates and sizes that stay clear of 64 bits: less than 2^62 in all, less than 2^32 a kilobyte, a megabyte of scripts. */
  ghost predicate Ordinary(all: map<Hash, Tx>, utxos: seq<Outpoint>, feePerKb: u64, outputs: Outputs) {
    && feePerKb < W32 && |utxos| < W32 && OutputsSize(outputs) < 0x10_0000
    && Total(outputs) < MANY && Worth(all, Existing(all, utxos)) < MANY
  }

  lemma {:induction false} TotalAppend(a: seq<Output>, o: Output, b: seq<Output>)
    ensures Total(a + [o] + b) == Total(a + b) + o.amount
    decreases |b|
  {
    if b == [] {
      assert a + [o] + [] == a + [o] && a + [] == a;
    } else {
      var n := |b| - 1;
      TotalAppend(a, o, b[..n]);
      assert (a + [o] + b)[..|a| + n + 1] == a + [o] + b[..n];
      assert (a + b)[..|a| + n] == a + b[..n];
    }
  }

  /** The total does not depend on the order of the outputs. */
  lemma {:induction false} TotalOfSame(a: seq<Output>, b: seq<Output>)
    requires multiset(a) == multiset(b)
    ensures Total(a) == Total(b)
    decreases |a|
  {
    if a == [] {
      assert |b| == |multiset(b)| == 0;
    } else {
      hide Total;
      var n := |a| - 1;
      var o, t := a[n], a[..n];
      assert a == t + [o] + [];
      assert o in multiset(b);
      var p, q := OutputCut(b, o);
      OutputRemoved(t, o, p, q);
      TotalOfSame(t, p + q);
      TotalAppend(t, o, []);
      TotalAppend(p, o, q);
      assert t + [] == t;
    }
  }

  lemma OutputCut(b: seq<Output>, o: Output) returns (p: seq<Output>, q: seq<Output>)
    requires o in b
    ensures b == p + [o] + q
  {
    var k :| 0 <= k < |b| && b[k] == o;
    p, q := b[..k], b[k + 1..];
  }

  lemma OutputRemoved(t: seq<Output>, o: Output, p: seq<Output>, q: seq<Output>)
    requires multiset(t + [o] + []) == multiset(p + [o] + q)
    ensures multiset(t) == multiset(p + q)
  {
    assert multiset(t + [o] + []) - multiset{o} == multiset(t);
    assert multiset(p + [o] + q) - multiset{o} == multiset(p + q);
  }

  lemma TotalWithChange(outputs: seq<Output>, change: Output, outputs': seq<Output>)
    requires multiset(outputs') == multiset(outputs) + multiset{change}
    ensures Total(outputs') == Total(outputs) + change.amount
  {
    hide Total;
    TotalAppend(outputs, change, []);
    assert outputs + [change] + [] == outputs + [change] && outputs + [] == outputs;
    assert multiset(outputs + [change]) == multiset(outputs) + multiset{change};
    TotalOfSame(outputs', outputs + [change]);
  }

  lemma MinimumIsSmall(feePerKb: u64)
    requires feePerKb < W32
    ensures TX_MIN_OUTPUT_AMOUNT <= MinOutputAmount(feePerKb) < 0x1_0000_0000_0000
  {
    assert TX_MIN_OUTPUT_AMOUNT == 5460 && MIN_FEE_PER_KB == 52357;
    var x: nat := 5460 * feePerKb + 52356;
    assert x < 0x1_0000_0000_0000;
    QuotientIsSmall(x);
  }

  /** Up to the default relay fee rate the minimum is 5460; above it, it grows with the rate, rounded up. */
  lemma MinimumIs(feePerKb: u64)
    requires feePerKb < W32
    ensures feePerKb <= 52357 ==> MinOutputAmount(feePerKb) == 5460
    ensures feePerKb > 52357 ==> 5460 * feePerKb <= 52357 * MinOutputAmount(feePerKb) < 5460 * feePerKb + 52357
  {
    assert TX_MIN_OUTPUT_AMOUNT == 5460 && MIN_FEE_PER_KB == 52357;
    var x: nat := 5460 * feePerKb + 52356;
    QuotientIsSmall(x);
  }

  lemma QuotientIsSmall(x: nat)
    requires x < 0x1_0000_0000_0000
    ensures x % W64 == x && x / 52357 <= x
  {
  }

  lemma SizeIsExact(n: u64, outputs: Outputs)
    requires n < W32 && OutputsSize(outputs) < 0x10_0000
    ensures SizeWithChange(n, outputs) == UnsignedSize(n, outputs) + TX_OUTPUT_SIZE > 0
  {
    hide OutputsSize;
    hide VarIntLength;
    LengthIsShort(n);
    LengthIsShort(|outputs|);
  }

  lemma LengthIsShort(i: u64)
    ensures 1 <= VarIntLength(i) <= 9
  {
  }

  /** In ordinary circumstances the 64-bit fee is the exact one, rounded up by less than 100. */
  lemma FeeAmountIsExact(feePerKb: u64, walletBalance: u64, amount: u64, n: u64, outputs: Outputs)
    requires feePerKb < W32 && n < W32 && OutputsSize(outputs) < 0x10_0000 && amount < MANY
    requires SizeWithChange(n, outputs) < SMALL_SIZE
    ensures var fee, feeAmount := ExactFee(feePerKb, UnsignedSize(n, outputs) + TX_OUTPUT_SIZE),
                                  FeeAmount(feePerKb, walletBalance, amount, n, outputs);
            && 0 < fee < 0x40_0000_0000_0000
            && feeAmount == (if n > 0 && walletBalance > amount + fee then fee + (walletBalance - (amount + fee)) % 100 else fee)
  {
    hide TxFee;
    hide ExactFee;
    hide UnsignedSize;
    SizeIsExact(n, outputs);
    FeeIsExact(feePerKb, SizeWithChange(n, outputs));
  }

  lemma SelectedIsPart(w: Wallet, outputs: Outputs, amount: u64, minAmount: u64, inputs: seq<Outpoint>, balance: u64,
      feeAmount: u64, tooLarge: bool)
    requires Selected(w, outputs, amount, minAmount, inputs, balance, feeAmount, tooLarge)
    ensures |inputs| <= |w.utxos| && |inputs| <= |Existing(w.allTx, w.utxos)|
    ensures Worth(w.allTx, inputs) <= Worth(w.allTx, Existing(w.allTx, w.utxos))
  {
    hide Existing;
    hide Worth;
    hide FeeAmount;
    hide SizeWithChange;
    hide IsEnough;
    var i :| 0 <= i <= |w.utxos| && inputs == Existing(w.allTx, w.utxos[..i]);
    ExistingGrows(w.allTx, w.utxos, i);
  }

  /** Even without inputs there is a fee, so that nothing is built without inputs. */
  lemma SomethingSelected(w: Wallet, outputs: Outputs, inputs: seq<Outpoint>, balance: u64, feeAmount: u64)
    requires Ordinary(w.allTx, w.utxos, w.feePerKb, outputs)
    requires Selected(w, outputs, Total(outputs), MinOutputAmount(w.feePerKb), inputs, balance, feeAmount, false)
    requires balance >= (Total(outputs) + feeAmount) % W64
    ensures inputs != []
  {
    hide Total;
    hide Existing;
    hide SizeWithChange;
    hide FeeAmount;
    hide MinOutputAmount;
    hide OutputsSize;
    hide UnsignedSize;
    hide ExactFee;
    hide TxFee;
    hide IsEnough;
    NothingExists(w.allTx);
    NoInputsSize(outputs);
    FeeAmountIsExact(w.feePerKb, w.balance, Total(outputs), 0, outputs);
    hide Worth;
    assert inputs == [] ==> balance == 0;
  }

  lemma NoInputsSize(outputs: Outputs)
    requires OutputsSize(outputs) < 0x10_0000
    ensures SizeWithChange(0, outputs) < SMALL_SIZE
  {
    hide OutputsSize;
    hide VarIntLength;
    SizeIsExact(0, outputs);
    LengthIsShort(0);
    LengthIsShort(|outputs|);
  }

  /** The fee amount of a transaction that is built, and why no sum wraps around. */
  lemma FeeOfBuilt(w: Wallet, outputs: Outputs, inputs: seq<Outpoint>, balance: u64, feeAmount: u64)
    requires Ordinary(w.allTx, w.utxos, w.feePerKb, outputs)
    requires Selected(w, outputs, Total(outputs), MinOutputAmount(w.feePerKb), inputs, balance, feeAmount, false)
    requires balance >= (Total(outputs) + feeAmount) % W64
    ensures var required := ExactFee(w.feePerKb, UnsignedSize(|inputs|, outputs) + TX_OUTPUT_SIZE);
            required <= feeAmount < required + 100
    ensures Total(outputs) + feeAmount < W64 && balance == Worth(w.allTx, inputs) && |inputs| < W64
  {
    hide Total;
    hide Existing;
    hide Worth;
    hide SizeWithChange;
    hide FeeAmount;
    hide UnsignedSize;
    hide ExactFee;
    hide MinOutputAmount;
    hide OutputsSize;
    hide IsEnough;
    SelectedIsPart(w, outputs, Total(outputs), MinOutputAmount(w.feePerKb), inputs, balance, feeAmount, false);
    SomethingSelected(w, outputs, inputs, balance, feeAmount);
    FeeAmountIsExact(w.feePerKb, w.balance, Total(outputs), |inputs|, outputs);
  }

  /** The requested outputs, or those and one worthwhile change output that leaves exactly the fee amount. */
  ghost predicate Accounted(outputs: Outputs, outputs': seq<Output>, worth: nat, feeAmount: nat, minAmount: nat) {
    && Total(outputs') + feeAmount <= worth <= Total(outputs') + feeAmount + minAmount
    && (outputs' == outputs
        || exists change: Output :: change.amount > minAmount && multiset(outputs') == multiset(outputs) + multiset{change}
             && worth == Total(outputs') + feeAmount)
  }

  lemma PaymentAccounted(w: Wallet, outputs: Outputs, inputs: seq<Outpoint>, feeAmount: u64, outputs': seq<Output>)
    requires Total(outputs) + feeAmount < W64 && Worth(w.allTx, inputs) < W64
    requires Pays(w, outputs, feeAmount, inputs, outputs')
    ensures Accounted(outputs, outputs', Worth(w.allTx, inputs), feeAmount, MinOutputAmount(w.feePerKb))
  {
    hide Total;
    hide Worth;
    hide MinOutputAmount;
    hide Accounted;
    var total, worth, minAmount := Total(outputs), Worth(w.allTx, inputs), MinOutputAmount(w.feePerKb);
    var rest := worth - (total + feeAmount);
    if rest > minAmount {
      var change: Output :| change.amount == rest && multiset(outputs') == multiset(outputs) + multiset{change};
      ChangeAccounted(outputs, outputs', change, worth, feeAmount, minAmount);
    } else {
      NoChangeAccounted(outputs, worth, feeAmount, minAmount);
    }
  }

  lemma ChangeAccounted(outputs: Outputs, outputs': seq<Output>, change: Output, worth: nat, feeAmount: nat, minAmount: nat)
    requires change.amount > minAmount && change.amount == worth - (Total(outputs) + feeAmount)
    requires multiset(outputs') == multiset(outputs) + multiset{change}
    ensures Accounted(outputs, outputs', worth, feeAmount, minAmount)
  {
    hide Total;
    TotalWithChange(outputs, change, outputs');
  }

  lemma NoChangeAccounted(outputs: Outputs, worth: nat, feeAmount: nat, minAmount: nat)
    requires 0 <= worth - (Total(outputs) + feeAmount) <= minAmount
    ensures Accounted(outputs, outputs, worth, feeAmount, minAmount)
  {
    hide Total;
  }

  lemma PaymentCovered(w: Wallet, outputs: Outputs, inputs: seq<Outpoint>, balance: u64, feeAmount: u64, outputs': seq<Output>)
    requires Pays(w, outputs, feeAmount, inputs, outputs') && balance == Worth(w.allTx, inputs) % W64
    ensures balance >= (Total(outputs) % W64 + feeAmount) % W64
  {
    hide Total;
    hide Worth;
    hide MinOutputAmount;
  }

  /**
   * A transaction that is built conserves value: what its inputs hold beyond its outputs is a fee between feeAmount and
   * feeAmount plus the least amount worth an output; feeAmount is the fee for its size with a change output, rounded up
   * by less than 100; and its outputs are the requested ones, with nothing or one worthwhile change output added.
   */
  lemma ValueIsConserved(w: Wallet, outputs: Outputs, r: Outcome, inputs: seq<Outpoint>, balance: u64, feeAmount: u64)
    requires Ordinary(w.allTx, w.utxos, w.feePerKb, outputs)
    requires Concluded(w, outputs, r, inputs, balance, feeAmount, false) && r.Built?
    ensures |r.inputs| < W64
    ensures var required := ExactFee(w.feePerKb, UnsignedSize(|r.inputs|, outputs) + TX_OUTPUT_SIZE);
            required <= feeAmount < required + 100
    ensures Accounted(outputs, r.outputs, Worth(w.allTx, r.inputs), feeAmount, MinOutputAmount(w.feePerKb))
  {
    hide Total;
    hide Worth;
    hide UnsignedSize;
    hide ExactFee;
    hide MinOutputAmount;
    hide Selected;
    hide Existing;
    hide OutputsSize;
    hide Pays;
    hide Accounted;
    SelectedSum(w, outputs, Total(outputs), MinOutputAmount(w.feePerKb), inputs, balance, feeAmount, false);
    PaymentCovered(w, outputs, inputs, balance, feeAmount, r.outputs);
    FeeOfBuilt(w, outputs, inputs, balance, feeAmount);
    PaymentAccounted(w, outputs, inputs, feeAmount, r.outputs);
  }

  // ---------- the most that can be sent ----------

  /** The size that BRWalletMaxOutputAmount reckons with: all inputs, and two typical outputs. */
  function MaxSize(n: u64): nat {
    8 + VarIntLength(n) + TX_INPUT_SIZE * n + VarIntLength(2) + TX_OUTPUT_SIZE * 2
  }

  /** BRWalletMaxOutputAmount, in 64 bits */
  method MaxOutputAmount(w: Wallet) returns (max: u64)
    requires |w.utxos| < W64
    ensures var all := Existing(w.allTx, w.utxos);
            var amount, fee := Worth(w.allTx, all) % W64, TxFee(w.feePerKb, MaxSize(|all|) % W64);
            max == if amount > fee then amount - fee else 0
  {
    hide Existing;
    hide Sum;
    hide TxFee;
    ghost var all := Existing(w.allTx, w.utxos);
    var amount: u64, inCount: nat, i := 0, 0, |w.utxos|;
    assert w.utxos[..i] == w.utxos;
    ghost var rest: nat := 0;
    while i > 0
      invariant 0 <= i <= |w.utxos|
      invariant inCount + |Existing(w.allTx, w.utxos[..i])| == |all|
      invariant rest + Worth(w.allTx, Existing(w.allTx, w.utxos[..i])) == Worth(w.allTx, all) && amount == rest % W64
    {
      var o := w.utxos[i - 1];
      ExistingMore(w.allTx, w.utxos, i - 1);
      if o.hash in w.allTx && o.n < |w.allTx[o.hash].outputs| {
        AddWrapped(rest, w.allTx[o.hash].outputs[o.n].amount);
        inCount := inCount + 1;
        amount := (amount + w.allTx[o.hash].outputs[o.n].amount) % W64;
        rest := rest + w.allTx[o.hash].outputs[o.n].amount;
      }
      i := i - 1;
    }
    assert w.utxos[..0] == [];
    NothingExists(w.allTx);
    var fee := TxFee(w.feePerKb, MaxSize(inCount) % W64);
    max := if amount > fee then amount - fee else 0;
  }

  lemma LengthMonotone(m: u64, n: u64)
    requires m <= n
    ensures VarIntLength(m) <= VarIntLength(n)
  {
  }

  /** One output with a script of at most 25 bytes is no larger than a typical one. */
  lemma OneSmallOutput(n: u64, o: Output)
    requires o.scriptLen <= 25
    ensures OutputsSize([o]) <= TX_OUTPUT_SIZE && UnsignedSize(n, [o]) + TX_OUTPUT_SIZE <= MaxSize(n)
  {
    assert [o][..0] == [];
  }

  lemma OneTotal(o: Output)
    ensures Total([o]) == o.amount
  {
    assert [o][..0] == [];
  }

  lemma SmallerWithFewer(m: u64, n: u64)
    requires m <= n
    ensures MaxSize(m) <= MaxSize(n)
  {
    LengthMonotone(m, n);
  }

  lemma RoundingFits(a: nat, m: nat, f: nat, max: nat)
    requires m + max == a && f <= max
    ensures m + f + (if a > m + f then (a - (m + f)) % 100 else 0) <= a
  {
  }

  /**
   * Sending the most that can be sent to one output with a script of at most 25 bytes always works, when the balance is
   * the worth of the unspent outputs and all of them fit into one transaction.
   */
  lemma MaxCanBeSent(w: Wallet, o: Output, r: Outcome, inputs: seq<Outpoint>, balance: u64, feeAmount: u64, tooLarge: bool)
    requires var all := Existing(w.allTx, w.utxos);
             && w.feePerKb < W32 && |w.utxos| < W32 && Worth(w.allTx, all) < MANY && w.balance == Worth(w.allTx, all)
             && MaxSize(|all|) <= TX_MAX_SIZE
             && var fee := TxFee(w.feePerKb, MaxSize(|all|));
             o.scriptLen <= 25 && w.balance > fee && o.amount == w.balance - fee
    requires Concluded(w, [o], r, inputs, balance, feeAmount, tooLarge)
    ensures r.Built?
  {
    hide Total;
    hide Existing;
    hide Worth;
    hide OutputsSize;
    hide ExactFee;
    hide TxFee;
    hide MinOutputAmount;
    hide UnsignedSize;
    hide MaxSize;
    hide SizeWithChange;
    hide FeeAmount;
    hide Pays;
    var all, n := Existing(w.allTx, w.utxos), |inputs|;
    OneTotal(o);
    SelectedIsPart(w, [o], o.amount, MinOutputAmount(w.feePerKb), inputs, balance, feeAmount, tooLarge);
    OneSmallOutput(n, o);
    SmallerWithFewer(n, |all|);
    SizeIsExact(n, [o]);
    FeeAmountIsExact(w.feePerKb, w.balance, o.amount, n, [o]);
    MinimumIsSmall(w.feePerKb);
    FeeIsExact(w.feePerKb, MaxSize(|all|));
    var f := ExactFee(w.feePerKb, UnsignedSize(n, [o]) + TX_OUTPUT_SIZE);
    FeeMonotone(w.feePerKb, UnsignedSize(n, [o]) + TX_OUTPUT_SIZE, MaxSize(|all|));
    RoundingFits(w.balance, o.amount, f, ExactFee(w.feePerKb, MaxSize(|all|)));
  }
}

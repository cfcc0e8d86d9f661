/** BRTransaction.c: transactions as bytes. */
module Transactions {
  import opened Script
  import opened Words
  import opened Wrappers

  const TX_INPUT_SIZE: nat := 148

  /** Bytes that a size_t can count. */
  type Bytes = s: seq<byte> | |s| < W64

  /** A script that is still to be signed comes with its amount; a null signature is None. */
  datatype TxInput = TxInput(txHash: Digest, index: u32, amount: u64, script: Bytes, signature: Option<Bytes>, sequence: u32)

  datatype TxOutput = TxOutput(amount: u64, script: Bytes)

  type TxInputs = s: seq<TxInput> | |s| < W64
  type TxOutputs = s: seq<TxOutput> | |s| < W64

  datatype Tx = Tx(version: u32, inputs: TxInputs, outputs: TxOutputs, lockTime: u32)

  /** A parsed transaction; its hash is only set when it is signed. */
  datatype ParsedTx = ParsedTx(tx: Tx, txHash: Option<Digest>)

  // ---------- the serialized form ----------

  function AmountBytes(amount: u64): seq<byte> {
    if amount != 0 then LittleEndianBytes(amount, 8) else []
  }

  /** What _BRTxInputData writes for an input whose scriptSig is sig. */
  function FieldBytes(i: TxInput, sig: Bytes): seq<byte> {
    i.txHash + (LittleEndianBytes(i.index, 4)
                + (VarInt(|sig|) + (sig + (AmountBytes(i.amount) + LittleEndianBytes(i.sequence, 4)))))
  }

  /** An unsigned input is written with its script and amount instead of a signature. */
  function InputBytes(i: TxInput): seq<byte> {
    if i.signature.Some? then FieldBytes(i.(amount := 0), i.signature.value) else FieldBytes(i, i.script)
  }

  function OutputBytes(o: TxOutput): seq<byte> {
    LittleEndianBytes(o.amount, 8) + (VarInt(|o.script|) + o.script)
  }

  function InputsBytes(s: seq<TxInput>): seq<byte> {
    if s == [] then [] else InputBytes(s[0]) + InputsBytes(s[1..])
  }

  function OutputsBytes(s: seq<TxOutput>): seq<byte> {
    if s == [] then [] else OutputBytes(s[0]) + OutputsBytes(s[1..])
  }

  function TxBytes(t: Tx): seq<byte> {
    LittleEndianBytes(t.version, 4)
    + (VarInt(|t.inputs|) + (InputsBytes(t.inputs)
                             + (VarInt(|t.outputs|) + (OutputsBytes(t.outputs) + LittleEndianBytes(t.lockTime, 4)))))
  }

  /** The order of the fields, in a transaction of one signed input and one output with scripts of fewer than 253 bytes. */
  lemma FieldsInOrder(t: Tx, i: TxInput, sig: Bytes, o: TxOutput)
    requires t.inputs == [i] && i.signature == Some(sig) && t.outputs == [o] && |sig| < 253 && |o.script| < 253
    ensures TxBytes(t)
            == LittleEndianBytes(t.version, 4)
               + [1] + i.txHash + LittleEndianBytes(i.index, 4) + [|sig|] + sig + LittleEndianBytes(i.sequence, 4)
               + [1] + LittleEndianBytes(o.amount, 8) + [|o.script|] + o.script
               + LittleEndianBytes(t.lockTime, 4)
  {
    hide LittleEndianBytes;
    FirstInput(i, sig);
    FirstOutput(o);
    var ins, outs := InputsBytes(t.inputs), OutputsBytes(t.outputs);
    var version, lockTime: seq<byte> := LittleEndianBytes(t.version, 4), LittleEndianBytes(t.lockTime, 4);
    assert TxBytes(t) == version + ([1] + (ins + ([1] + (outs + lockTime))));
  }

  lemma FirstInput(i: TxInput, sig: Bytes)
    requires i.signature == Some(sig) && |sig| < 253
    ensures InputsBytes([i]) == i.txHash + LittleEndianBytes(i.index, 4) + [|sig|] + sig + LittleEndianBytes(i.sequence, 4)
  {
    hide LittleEndianBytes;
    assert InputsBytes([i]) == InputBytes(i) + InputsBytes([]);
  }

  lemma FirstOutput(o: TxOutput)
    requires |o.script| < 253
    ensures OutputsBytes([o]) == LittleEndianBytes(o.amount, 8) + [|o.script|] + o.script
  {
    hide LittleEndianBytes;
    assert OutputsBytes([o]) == OutputBytes(o) + OutputsBytes([]);
  }

  // ---------- parsing ----------

  datatype Parsing<T> = Parsing(value: T, off: nat)

  function ParseHash(buf: seq<byte>, off: nat): Digest {
    if off + 32 <= |buf| then buf[off..off + 32] else seq(32, _ => 0)
  }

  function ParseWord(buf: seq<byte>, off: nat): u32 {
    FieldFits(buf, off);
    Field(buf, off, 4)
  }

  function ParseAmount(buf: seq<byte>, off: nat): u64 {
    FieldFits(buf, off);
    Field(buf, off, 8)
  }

  /** One input: a script that pays to an address is one that is still to be signed, and its amount follows. */
  function ParseInput(buf: seq<byte>, off: nat): (r: Parsing<TxInput>)
    requires |buf| < W64
    ensures r.off > off
  {
    hide AddressShape;
    hide Field;
    var hash, index := ParseHash(buf, off), ParseWord(buf, off + 32);
    var sLen := ReadVarInt(buf, off + 36);
    var at := off + 36 + sLen.length;
    var end := at + sLen.value;
    if end > |buf| then Parsing(TxInput(hash, index, 0, [], None, ParseWord(buf, end)), end + 4)
    else if AddressShape(buf[at..end]) then
      Parsing(TxInput(hash, index, ParseAmount(buf, end), buf[at..end], None, ParseWord(buf, end + 8)), end + 12)
    else Parsing(TxInput(hash, index, 0, [], Some(buf[at..end]), ParseWord(buf, end)), end + 4)
  }

  function ParseInputs(buf: seq<byte>, off: nat, n: nat): (r: Parsing<seq<TxInput>>)
    requires |buf| < W64
    ensures |r.value| <= n && r.off >= off && (r.off <= |buf| ==> |r.value| == n)
    decreases n
  {
    hide ParseInput;
    if n == 0 || off > |buf| then Parsing([], off)
    else
      var first := ParseInput(buf, off);
      var rest := ParseInputs(buf, first.off, n - 1);
      Parsing([first.value] + rest.value, rest.off)
  }

  function ParseOutput(buf: seq<byte>, off: nat): (r: Parsing<TxOutput>)
    requires |buf| < W64
    ensures r.off > off
  {
    hide Field;
    var amount := ParseAmount(buf, off);
    var sLen := ReadVarInt(buf, off + 8);
    var at := off + 8 + sLen.length;
    var end := at + sLen.value;
    Parsing(TxOutput(amount, if end <= |buf| then buf[at..end] else []), end)
  }

  function ParseOutputs(buf: seq<byte>, off: nat, n: nat): (r: Parsing<seq<TxOutput>>)
    requires |buf| < W64
    ensures |r.value| <= n && r.off >= off && (r.off <= |buf| ==> |r.value| == n)
    decreases n
  {
    hide ParseOutput;
    if n == 0 || off > |buf| then Parsing([], off)
    else
      var first := ParseOutput(buf, off);
      var rest := ParseOutputs(buf, first.off, n - 1);
      Parsing([first.value] + rest.value, rest.off)
  }

  predicate IsSigned(inputs: seq<TxInput>) {
    forall i :: 0 <= i < |inputs| ==> inputs[i].signature.Some?
  }

  /** The transaction at the front of a buffer, if it is all there and has an input. */
  function ParseTx(sha2: seq<byte> -> Digest, buf: seq<byte>): Option<ParsedTx>
    requires |buf| < W64
  {
    hide ParseInputs;
    hide ParseOutputs;
    hide Field;
    var version, inCount := ParseWord(buf, 0), ReadVarInt(buf, 4);
    var inputs := ParseInputs(buf, 4 + inCount.length, inCount.value);
    var outCount := ReadVarInt(buf, inputs.off);
    var outputs := ParseOutputs(buf, inputs.off + outCount.length, outCount.value);
    var end := outputs.off + 4;
    if inCount.value == 0 || end > |buf| then None
    else
      var tx := Tx(version, inputs.value, outputs.value, ParseWord(buf, outputs.off));
      Some(ParsedTx(tx, if IsSigned(inputs.value) then Some(sha2(buf[..end])) else None))
  }

  // ---------- parsing what was serialized ----------

  /** What comes back of an input: the amount and the script of a signed one are not in the bytes. */
  function Recovered(i: TxInput): TxInput {
    if i.signature.Some? then i.(amount := 0, script := []) else i
  }

  /** Signed with something that is not a script paying to an address, or unsigned with such a script and an amount. */
  predicate Recognizable(i: TxInput) {
    if i.signature.Some? then !AddressShape(i.signature.value) else AddressShape(i.script) && i.amount != 0
  }

  function AllRecovered(s: seq<TxInput>): (r: seq<TxInput>)
    ensures |r| == |s|
  {
    if s == [] then [] else [Recovered(s[0])] + AllRecovered(s[1..])
  }

  lemma WordAt(buf: seq<byte>, off: nat, x: u32)
    requires At(buf, off, LittleEndianBytes(x, 4))
    ensures ParseWord(buf, off) == x
  {
    hide Field;
    hide LittleEndianBytes;
    Pow256Words();
    FieldAt(buf, off, 4, x);
  }

  lemma AmountAt(buf: seq<byte>, off: nat, x: u64)
    requires At(buf, off, LittleEndianBytes(x, 8))
    ensures ParseAmount(buf, off) == x
  {
    hide Field;
    hide LittleEndianBytes;
    Pow256Words();
    FieldAt(buf, off, 8, x);
  }

  /** The fields of an input, found one behind the other. */
  lemma FieldsAt(buf: seq<byte>, off: nat, i: TxInput, sig: Bytes)
    requires At(buf, off, FieldBytes(i, sig))
    ensures ParseHash(buf, off) == i.txHash && ParseWord(buf, off + 32) == i.index
    ensures ReadVarInt(buf, off + 36) == Read(|sig|, |VarInt(|sig|)|)
    ensures var at := off + 36 + |VarInt(|sig|)|;
            && At(buf, at, sig) && At(buf, at + |sig|, AmountBytes(i.amount))
            && ParseWord(buf, at + |sig| + |AmountBytes(i.amount)|) == i.sequence
  {
    hide Field;
    hide LittleEndianBytes;
    hide VarInt;
    hide AmountBytes;
    hide ParseWord;
    hide ReadVarInt;
    hide At;
    var e := LittleEndianBytes(i.sequence, 4);
    var d := AmountBytes(i.amount) + e;
    var c := sig + d;
    var b := VarInt(|sig|) + c;
    var a := LittleEndianBytes(i.index, 4) + b;
    AtParts(buf, off, i.txHash, a);
    HashAt(buf, off, i.txHash);
    AtParts(buf, off + 32, LittleEndianBytes(i.index, 4), b);
    WordAt(buf, off + 32, i.index);
    AtParts(buf, off + 36, VarInt(|sig|), c);
    ReadWrittenVarInt(buf, off + 36, |sig|);
    var at := off + 36 + |VarInt(|sig|)|;
    AtParts(buf, at, sig, d);
    AtParts(buf, at + |sig|, AmountBytes(i.amount), e);
    WordAt(buf, at + |sig| + |AmountBytes(i.amount)|, i.sequence);
  }

  lemma HashAt(buf: seq<byte>, off: nat, h: Digest)
    requires At(buf, off, h)
    ensures ParseHash(buf, off) == h
  {
  }

  lemma FieldBytesLength(i: TxInput, sig: Bytes)
    ensures |FieldBytes(i, sig)| == 40 + |VarInt(|sig|)| + |sig| + |AmountBytes(i.amount)|
    ensures |AmountBytes(i.amount)| == if i.amount != 0 then 8 else 0
  {
  }

  lemma ParseWrittenInput(buf: seq<byte>, off: nat, i: TxInput)
    requires |buf| < W64 && Recognizable(i) && At(buf, off, InputBytes(i))
    ensures ParseInput(buf, off) == Parsing(Recovered(i), off + |InputBytes(i)|)
  {
    hide Field;
    hide LittleEndianBytes;
    hide VarInt;
    hide AddressShape;
    hide ParseHash;
    hide ParseWord;
    hide ParseAmount;
    hide ReadVarInt;
    hide FieldBytes;
    hide AmountBytes;
    var written := if i.signature.Some? then i.(amount := 0) else i;
    var sig := if i.signature.Some? then i.signature.value else i.script;
    FieldsAt(buf, off, written, sig);
    FieldBytesLength(written, sig);
    if i.signature.None? {
      AmountIsWritten(i.amount);
      AmountAt(buf, off + 36 + |VarInt(|sig|)| + |sig|, i.amount);
    }
  }

  lemma AmountIsWritten(amount: u64)
    requires amount != 0
    ensures AmountBytes(amount) == LittleEndianBytes(amount, 8)
  {
  }

  lemma {:induction false} ParseWrittenInputs(buf: seq<byte>, off: nat, s: seq<TxInput>)
    requires |buf| < W64 && At(buf, off, InputsBytes(s)) && forall k :: 0 <= k < |s| ==> Recognizable(s[k])
    ensures ParseInputs(buf, off, |s|) == Parsing(AllRecovered(s), off + |InputsBytes(s)|)
    decreases |s|
  {
    hide ParseInput;
    hide InputBytes;
    hide Recognizable;
    hide Recovered;
    if s != [] {
      AtParts(buf, off, InputBytes(s[0]), InputsBytes(s[1..]));
      ParseWrittenInput(buf, off, s[0]);
      ParseWrittenInputs(buf, off + |InputBytes(s[0])|, s[1..]);
    }
  }

  lemma ParseWrittenOutput(buf: seq<byte>, off: nat, o: TxOutput)
    requires |buf| < W64 && At(buf, off, OutputBytes(o))
    ensures ParseOutput(buf, off) == Parsing(o, off + |OutputBytes(o)|)
  {
    hide Field;
    hide LittleEndianBytes;
    hide VarInt;
    hide ParseAmount;
    hide ReadVarInt;
    var b := VarInt(|o.script|) + o.script;
    AtParts(buf, off, LittleEndianBytes(o.amount, 8), b);
    AmountAt(buf, off, o.amount);
    AtParts(buf, off + 8, VarInt(|o.script|), o.script);
    ReadWrittenVarInt(buf, off + 8, |o.script|);
  }

  lemma {:induction false} ParseWrittenOutputs(buf: seq<byte>, off: nat, s: seq<TxOutput>)
    requires |buf| < W64 && At(buf, off, OutputsBytes(s))
    ensures ParseOutputs(buf, off, |s|) == Parsing(s, off + |OutputsBytes(s)|)
    decreases |s|
  {
    hide ParseOutput;
    hide OutputBytes;
    if s != [] {
      AtParts(buf, off, OutputBytes(s[0]), OutputsBytes(s[1..]));
      ParseWrittenOutput(buf, off, s[0]);
      ParseWrittenOutputs(buf, off + |OutputBytes(s[0])|, s[1..]);
      assert s == [s[0]] + s[1..];
    }
  }

  function RecoveredTx(t: Tx): Tx {
    t.(inputs := AllRecovered(t.inputs))
  }

  /** A serialized transaction in front of a buffer parses back to its version, inputs, outputs and lock time. */
  lemma ParseWrittenTx(sha2: seq<byte> -> Digest, buf: seq<byte>, t: Tx)
    requires |buf| < W64 && t.inputs != [] && forall k :: 0 <= k < |t.inputs| ==> Recognizable(t.inputs[k])
    requires At(buf, 0, TxBytes(t))
    ensures ParseTx(sha2, buf)
            == Some(ParsedTx(RecoveredTx(t), if IsSigned(t.inputs) then Some(sha2(TxBytes(t))) else None))
  {
    hide Field;
    hide LittleEndianBytes;
    hide VarInt;
    hide ParseWord;
    hide ReadVarInt;
    hide ParseInputs;
    hide ParseOutputs;
    hide InputsBytes;
    hide OutputsBytes;
    hide AllRecovered;
    hide Recognizable;
    hide At;
    hide IsSigned;
    var e := LittleEndianBytes(t.lockTime, 4);
    var d := OutputsBytes(t.outputs) + e;
    var c := VarInt(|t.outputs|) + d;
    var b := InputsBytes(t.inputs) + c;
    var a := VarInt(|t.inputs|) + b;
    AtParts(buf, 0, LittleEndianBytes(t.version, 4), a);
    WordAt(buf, 0, t.version);
    AtParts(buf, 4, VarInt(|t.inputs|), b);
    ReadWrittenVarInt(buf, 4, |t.inputs|);
    var at := 4 + |VarInt(|t.inputs|)|;
    AtParts(buf, at, InputsBytes(t.inputs), c);
    ParseWrittenInputs(buf, at, t.inputs);
    at := at + |InputsBytes(t.inputs)|;
    AtParts(buf, at, VarInt(|t.outputs|), d);
    ReadWrittenVarInt(buf, at, |t.outputs|);
    at := at + |VarInt(|t.outputs|)|;
    AtParts(buf, at, OutputsBytes(t.outputs), e);
    ParseWrittenOutputs(buf, at, t.outputs);
    at := at + |OutputsBytes(t.outputs)|;
    WordAt(buf, at, t.lockTime);
    SignedRecovered(t.inputs);
    WholeAt(buf, TxBytes(t));
  }

  lemma WholeAt(buf: seq<byte>, x: seq<byte>)
    requires At(buf, 0, x)
    ensures |x| <= |buf| && buf[..|x|] == x
  {
  }

  lemma {:induction false} SignedRecovered(s: seq<TxInput>)
    ensures IsSigned(AllRecovered(s)) <==> IsSigned(s)
  {
    if s != [] {
      SignedRecovered(s[1..]);
      SignedFirst(s[0], s[1..]);
      SignedFirst(Recovered(s[0]), AllRecovered(s[1..]));
      assert s == [s[0]] + s[1..];
    }
  }

  lemma SignedFirst(i: TxInput, s: seq<TxInput>)
    ensures IsSigned([i] + s) <==> i.signature.Some? && IsSigned(s)
  {
    assert forall k :: 0 <= k < |s| ==> ([i] + s)[k + 1] == s[k];
    assert ([i] + s)[0] == i;
  }

  // ---------- exactly which transactions come back ----------

  function ScriptSig(i: TxInput): Bytes {
    if i.signature.Some? then i.signature.value else i.script
  }

  /** The fewest bytes an input can have been parsed from. */
  function LeastBytes(i: TxInput): nat {
    40 + VarIntLength(|ScriptSig(i)|) + |ScriptSig(i)| + (if i.signature.None? then 8 else 0)
  }

  function AllLeastBytes(s: seq<TxInput>): nat {
    if s == [] then 0 else LeastBytes(s[0]) + AllLeastBytes(s[1..])
  }

  predicate ScriptTellsKind(i: TxInput) {
    AddressShape(ScriptSig(i)) <==> i.signature.None?
  }

  /** Whatever the bytes, a parsed input is unsigned exactly if its script pays to an address. */
  lemma ParsedInput(buf: seq<byte>, off: nat)
    requires |buf| < W64 && ParseInput(buf, off).off <= |buf|
    ensures ScriptTellsKind(ParseInput(buf, off).value)
    ensures ParseInput(buf, off).off >= off + LeastBytes(ParseInput(buf, off).value)
  {
    hide AddressShape;
    hide Field;
    hide ReadVarInt;
    hide VarIntLength;
    ShortestVarInt(buf, off + 36);
  }

  lemma {:induction false} ParsedInputs(buf: seq<byte>, off: nat, n: nat)
    requires |buf| < W64 && ParseInputs(buf, off, n).off <= |buf|
    ensures forall i :: 0 <= i < n ==> ScriptTellsKind(ParseInputs(buf, off, n).value[i])
    ensures ParseInputs(buf, off, n).off >= off + AllLeastBytes(ParseInputs(buf, off, n).value)
    decreases n
  {
    hide ParseInput;
    hide LeastBytes;
    hide ScriptTellsKind;
    if n > 0 {
      var first := ParseInput(buf, off);
      ParsedInputs(buf, first.off, n - 1);
      ParsedInput(buf, off);
    }
  }

  lemma VarIntSize(i: u64)
    ensures |VarInt(i)| == VarIntLength(i)
  {
  }

  lemma ParsedOutput(buf: seq<byte>, off: nat)
    requires |buf| < W64 && ParseOutput(buf, off).off <= |buf|
    ensures ParseOutput(buf, off).off >= off + |OutputBytes(ParseOutput(buf, off).value)|
  {
    hide Field;
    hide ReadVarInt;
    hide VarIntLength;
    hide VarInt;
    ShortestVarInt(buf, off + 8);
    VarIntSize(|ParseOutput(buf, off).value.script|);
  }

  lemma {:induction false} ParsedOutputs(buf: seq<byte>, off: nat, n: nat)
    requires |buf| < W64 && ParseOutputs(buf, off, n).off <= |buf|
    ensures ParseOutputs(buf, off, n).off >= off + |OutputsBytes(ParseOutputs(buf, off, n).value)|
    decreases n
  {
    hide ParseOutput;
    hide OutputBytes;
    if n > 0 {
      var first := ParseOutput(buf, off);
      ParsedOutputs(buf, first.off, n - 1);
      ParsedOutput(buf, off);
    }
  }

  lemma InputLength(i: TxInput)
    ensures |InputBytes(i)| == LeastBytes(i) - (if i.signature.None? && i.amount == 0 then 8 else 0)
    ensures LeastBytes(Recovered(i)) == LeastBytes(i)
  {
    hide VarInt;
    hide VarIntLength;
    hide FieldBytes;
    hide AmountBytes;
    VarIntSize(|ScriptSig(i)|);
    FieldBytesLength(i.(amount := 0), ScriptSig(i));
    FieldBytesLength(i, ScriptSig(i));
  }

  /** The serialized inputs are as long as parsing needs them exactly if no unsigned input lacks its amount. */
  lemma {:induction false} InputsLength(s: seq<TxInput>)
    ensures |InputsBytes(s)| <= AllLeastBytes(AllRecovered(s))
    ensures |InputsBytes(s)| == AllLeastBytes(AllRecovered(s)) <==>
            forall k :: 0 <= k < |s| ==> s[k].signature.Some? || s[k].amount != 0
  {
    hide InputBytes;
    hide LeastBytes;
    if s != [] {
      InputLength(s[0]);
      InputsLength(s[1..]);
      assert forall k :: 0 <= k < |s| - 1 ==> s[1..][k] == s[k + 1];
      assert forall k :: 0 < k < |s| ==> s[k] == s[1..][k - 1];
    }
  }

  lemma {:induction false} RecoveredAt(s: seq<TxInput>, k: nat)
    requires k < |s|
    ensures AllRecovered(s)[k] == Recovered(s[k])
  {
    if k > 0 {
      RecoveredAt(s[1..], k - 1);
    }
  }

  lemma TxLength(t: Tx)
    ensures |TxBytes(t)| == 8 + VarIntLength(|t.inputs|) + |InputsBytes(t.inputs)| + VarIntLength(|t.outputs|) + |OutputsBytes(t.outputs)|
  {
    hide VarInt;
    hide VarIntLength;
    hide InputsBytes;
    hide OutputsBytes;
    VarIntSize(|t.inputs|);
    VarIntSize(|t.outputs|);
  }

  /** A parsed transaction needs at least the bytes of its parts, and its inputs are told apart by their scripts. */
  lemma ParsedParts(sha2: seq<byte> -> Digest, buf: seq<byte>, t: Tx)
    requires |buf| < W64 && ParseTx(sha2, buf).Some? && ParseTx(sha2, buf).value.tx == t
    ensures t.inputs != [] && forall k :: 0 <= k < |t.inputs| ==> ScriptTellsKind(t.inputs[k])
    ensures |buf| >= 8 + VarIntLength(|t.inputs|) + AllLeastBytes(t.inputs) + VarIntLength(|t.outputs|) + |OutputsBytes(t.outputs)|
  {
    hide Field;
    hide ReadVarInt;
    hide VarIntLength;
    hide ParseInputs;
    hide ParseOutputs;
    hide ParseWord;
    hide ScriptTellsKind;
    hide AllLeastBytes;
    hide OutputsBytes;
    hide IsSigned;
    var inCount := ReadVarInt(buf, 4);
    var inputs := ParseInputs(buf, 4 + inCount.length, inCount.value);
    var outCount := ReadVarInt(buf, inputs.off);
    ShortestVarInt(buf, 4);
    ShortestVarInt(buf, inputs.off);
    ParsedInputs(buf, 4 + inCount.length, inCount.value);
    ParsedOutputs(buf, inputs.off + outCount.length, outCount.value);
  }

  /**
   * Serializing and parsing gives a transaction back exactly if it has an input and every input is recognizable:
   * signed with something that does not look like an address script, or unsigned with an address script and an amount.
   */
  lemma ParseSerialized(sha2: seq<byte> -> Digest, t: Tx)
    requires |TxBytes(t)| < W64
    ensures (ParseTx(sha2, TxBytes(t)).Some? && ParseTx(sha2, TxBytes(t)).value.tx == RecoveredTx(t)) <==>
            t.inputs != [] && forall k :: 0 <= k < |t.inputs| ==> Recognizable(t.inputs[k])
    ensures t.inputs != [] && (forall k :: 0 <= k < |t.inputs| ==> Recognizable(t.inputs[k])) ==>
              ParseTx(sha2, TxBytes(t)).Some?
              && ParseTx(sha2, TxBytes(t)).value.txHash == if IsSigned(t.inputs) then Some(sha2(TxBytes(t))) else None
  {
    hide ParseTx;
    hide TxBytes;
    hide AddressShape;
    hide IsSigned;
    hide AllRecovered;
    var buf := TxBytes(t);
    if t.inputs != [] && forall k :: 0 <= k < |t.inputs| ==> Recognizable(t.inputs[k]) {
      assert buf[0..0 + |buf|] == buf;
      ParseWrittenTx(sha2, buf, t);
    }
    if ParseTx(sha2, buf).Some? && ParseTx(sha2, buf).value.tx == RecoveredTx(t) {
      ParsedParts(sha2, buf, RecoveredTx(t));
      TxLength(t);
      InputsLength(t.inputs);
      forall k | 0 <= k < |t.inputs|
        ensures Recognizable(t.inputs[k])
      {
        RecoveredAt(t.inputs, k);
        assert ScriptTellsKind(AllRecovered(t.inputs)[k]);
      }
    }
  }

  /** Not every signed transaction comes back: one whose only signature looks like a script hash script does not. */
  lemma NotAllComeBack(sha2: seq<byte> -> Digest, h: Digest) returns (t: Tx)
    ensures IsSigned(t.inputs) && t.inputs != [] && |TxBytes(t)| < W64
    ensures !(ParseTx(sha2, TxBytes(t)).Some? && ParseTx(sha2, TxBytes(t)).value.tx == RecoveredTx(t))
  {
    hide TxBytes;
    hide ParseTx;
    var sig: Bytes := [OP_HASH160, 20] + seq(20, _ => 0) + [OP_EQUAL];
    var input := TxInput(h, 0, 0, [], Some(sig), 0);
    t := Tx(1, [input], [], 0);
    assert AddressShape(sig) && t.inputs[0] == input;
    TxLength(t);
    InputLength(input);
    OneInput(input);
    NoOutputs();
    ParseSerialized(sha2, t);
  }

  lemma OneInput(i: TxInput)
    ensures InputsBytes([i]) == InputBytes(i)
  {
    hide InputBytes;
    assert [i][1..] == [];
  }

  // ---------- the size estimate ----------

  /** BRTransactionSize: the bytes of signed inputs, and an estimate for the others. */
  method Size(t: Tx) returns (size: nat)
    ensures size == EstimatedSize(t)
    ensures IsSigned(t.inputs) ==> size == |TxBytes(t)|
  {
    hide VarIntLength;
    hide InputSize;
    hide OutputSize;
    hide TxBytes;
    VarIntSize(|t.inputs|);
    VarIntSize(|t.outputs|);
    size := 8 + VarIntLength(|t.inputs|) + VarIntLength(|t.outputs|);
    var i := 0;
    while i < |t.inputs|
      invariant i <= |t.inputs|
      invariant size == 8 + VarIntLength(|t.inputs|) + VarIntLength(|t.outputs|) + InputsSize(t.inputs[..i])
    {
      InputsSizeMore(t.inputs, i);
      size := size + InputSize(t.inputs[i]);
      i := i + 1;
    }
    assert t.inputs[..i] == t.inputs;
    i := 0;
    while i < |t.outputs|
      invariant i <= |t.outputs|
      invariant size == 8 + VarIntLength(|t.inputs|) + VarIntLength(|t.outputs|) + InputsSize(t.inputs) + OutputsSize(t.outputs[..i])
    {
      OutputsSizeMore(t.outputs, i);
      size := size + OutputSize(t.outputs[i]);
      i := i + 1;
    }
    assert t.outputs[..i] == t.outputs;
    SizeOfSigned(t);
  }

  function InputSize(i: TxInput): nat {
    if i.signature.Some? then 32 + 4 + VarIntLength(|i.signature.value|) + |i.signature.value| + 4 else TX_INPUT_SIZE
  }

  function OutputSize(o: TxOutput): nat {
    8 + VarIntLength(|o.script|) + |o.script|
  }

  function InputsSize(s: seq<TxInput>): nat {
    if s == [] then 0 else InputsSize(s[..|s| - 1]) + InputSize(s[|s| - 1])
  }

  function OutputsSize(s: seq<TxOutput>): nat {
    if s == [] then 0 else OutputsSize(s[..|s| - 1]) + OutputSize(s[|s| - 1])
  }

  function EstimatedSize(t: Tx): nat {
    8 + VarIntLength(|t.inputs|) + VarIntLength(|t.outputs|) + InputsSize(t.inputs) + OutputsSize(t.outputs)
  }

  lemma InputsSizeMore(s: seq<TxInput>, i: nat)
    requires i < |s|
    ensures InputsSize(s[..i + 1]) == InputsSize(s[..i]) + InputSize(s[i])
  {
    hide InputSize;
    assert s[..i + 1][..i] == s[..i];
  }

  lemma OutputsSizeMore(s: seq<TxOutput>, i: nat)
    requires i < |s|
    ensures OutputsSize(s[..i + 1]) == OutputsSize(s[..i]) + OutputSize(s[i])
  {
    hide OutputSize;
    assert s[..i + 1][..i] == s[..i];
  }

  lemma {:induction false} InputsBytesMore(s: seq<TxInput>, i: TxInput)
    ensures InputsBytes(s + [i]) == InputsBytes(s) + InputBytes(i)
  {
    hide InputBytes;
    if s == [] {
      assert s + [i] == [i] && [i][1..] == [];
    } else {
      assert (s + [i])[1..] == s[1..] + [i];
      InputsBytesMore(s[1..], i);
    }
  }

  lemma {:induction false} OutputsBytesMore(s: seq<TxOutput>, o: TxOutput)
    ensures OutputsBytes(s + [o]) == OutputsBytes(s) + OutputBytes(o)
  {
    hide OutputBytes;
    if s == [] {
      assert s + [o] == [o] && [o][1..] == [];
    } else {
      assert (s + [o])[1..] == s[1..] + [o];
      OutputsBytesMore(s[1..], o);
    }
  }

  lemma {:induction false} InputsSizeOfSigned(s: seq<TxInput>)
    requires IsSigned(s)
    ensures InputsSize(s) == |InputsBytes(s)|
  {
    if s != [] {
      hide InputBytes;
      hide VarIntLength;
      var n := |s| - 1;
      InputsSizeOfSigned(s[..n]);
      assert s == s[..n] + [s[n]];
      InputsBytesMore(s[..n], s[n]);
      InputLength(s[n]);
    }
  }

  lemma {:induction false} OutputsSizeExact(s: seq<TxOutput>)
    ensures OutputsSize(s) == |OutputsBytes(s)|
  {
    if s != [] {
      var n := |s| - 1;
      OutputsSizeExact(s[..n]);
      assert s == s[..n] + [s[n]];
      OutputsBytesMore(s[..n], s[n]);
      OneOutputSize(s[n]);
    }
  }

  lemma OneOutputSize(o: TxOutput)
    ensures OutputSize(o) == |OutputBytes(o)|
  {
    hide VarInt;
    hide VarIntLength;
    VarIntSize(|o.script|);
  }

  /** For a signed transaction the estimate is the length of the serialized form. */
  lemma SizeOfSigned(t: Tx)
    ensures IsSigned(t.inputs) ==> EstimatedSize(t) == |TxBytes(t)|
  {
    hide TxBytes;
    hide InputsSize;
    hide OutputsSize;
    hide InputsBytes;
    hide OutputsBytes;
    hide VarIntLength;
    TxLength(t);
    OutputsSizeExact(t.outputs);
    if IsSigned(t.inputs) {
      InputsSizeOfSigned(t.inputs);
    }
  }

  // ---------- what the serializers count ----------

  /** The offset behind a part of n bytes that counts as nothing when there is no room for it. */
  function PartEnd(isNull: bool, dataLen: nat, off: nat, n: nat): nat {
    off + if isNull || off + n <= dataLen then n else 0
  }

  /** What a serializer returns that has come to off. */
  function Counted(isNull: bool, dataLen: nat, off: nat): nat {
    if isNull || off <= dataLen then off else 0
  }

  function Room(dataLen: nat, off: nat): nat {
    if off <= dataLen then dataLen - off else 0
  }

  function FieldsCount(isNull: bool, dataLen: nat, i: TxInput, sig: Bytes): nat {
    var off := PartEnd(isNull, dataLen, 36, |VarInt(|sig|)|) + |sig| + (if i.amount != 0 then 8 else 0) + 4;
    Counted(isNull, dataLen, off)
  }

  function OutputsEnd(isNull: bool, dataLen: nat, s: seq<TxOutput>): nat {
    if s == [] then 0
    else
      var o := s[|s| - 1];
      PartEnd(isNull, dataLen, OutputsEnd(isNull, dataLen, s[..|s| - 1]) + 8, |VarInt(|o.script|)|) + |o.script|
  }

  /** An input as it is written: a missing signature is replaced by the script, and a signed input has no amount. */
  function Prepared(i: TxInput): TxInput {
    if i.signature.None? then i.(signature := Some(i.script)) else i.(amount := 0)
  }

  function InputsEnd(isNull: bool, dataLen: nat, off: nat, s: seq<TxInput>): nat {
    if s == [] then off
    else
      var at, i := InputsEnd(isNull, dataLen, off, s[..|s| - 1]), Prepared(s[|s| - 1]);
      at + FieldsCount(isNull, Room(dataLen, at), i, i.signature.value)
  }

  /** What the serialization into a buffer of dataLen bytes, or a null one, comes to count. */
  function SerializedEnd(isNull: bool, dataLen: nat, t: Tx): nat {
    var inputs := InputsEnd(isNull, dataLen, PartEnd(isNull, dataLen, 4, |VarInt(|t.inputs|)|), t.inputs);
    var outputs := PartEnd(isNull, dataLen, inputs, |VarInt(|t.outputs|)|);
    outputs + Counted(isNull, Room(dataLen, outputs), OutputsEnd(isNull, Room(dataLen, outputs), t.outputs)) + 4
  }

  /** A transaction that does not fit into a buffer, and yet a length is returned for it instead of 0. */
  lemma ShortBufferCounts(h: Digest) returns (t: Tx, dataLen: nat)
    ensures dataLen < |TxBytes(t)| && 0 < Counted(false, dataLen, SerializedEnd(false, dataLen, t)) < |TxBytes(t)|
  {
    hide LittleEndianBytes;
    var i := TxInput(h, 0, 0, [], Some([]), 0);
    t, dataLen := Tx(1, [i], [], 0), 20;
    TxLength(t);
    OneInput(i);
    assert t.inputs[..0] == [];
    assert InputsEnd(false, 20, 5, t.inputs) == 5;
  }

  // ---------- BRTransactionSerialize ----------

  /**
   * How far the writing of a buffer of dataLen bytes at base has come: as long as everything fits, off counts the bytes
   * and they are in the buffer. With a null buffer, everything fits.
   */
  ghost predicate Writing(data: array?<byte>, was: seq<byte>, base: nat, dataLen: nat, off: nat, done: seq<byte>)
    reads if data == null then {} else {data}
  {
    && (data != null ==> base + dataLen <= data.Length == |was|)
    && (data == null || |done| <= dataLen ==> off == |done|)
    && (data != null && |done| <= dataLen ==> data[..] == Patch(was, base, done))
  }

  ghost function Whole(data: array?<byte>): seq<byte>
    reads if data == null then {} else {data}
  {
    if data == null then [] else data[..]
  }

  lemma WritingStarts(data: array?<byte>, base: nat, dataLen: nat)
    requires data != null ==> base + dataLen <= data.Length
    ensures Writing(data, Whole(data), base, dataLen, 0, [])
  {
    if data != null {
      PatchNothing(data[..], base);
    }
  }

  /** The buffer has grown by s. */
  lemma WritingMore(data: array?<byte>, was: seq<byte>, mid: seq<byte>, base: nat, dataLen: nat, off: nat, done: seq<byte>, s: seq<byte>)
    requires data != null ==> base + dataLen <= data.Length == |was|
    requires data == null || |done| <= dataLen ==> off == |done|
    requires data != null && |done| <= dataLen ==> mid == Patch(was, base, done)
    requires data != null && |done + s| <= dataLen ==> data[..] == Patch(mid, base + off, s)
    ensures Writing(data, was, base, dataLen, off + |s|, done + s)
  {
    hide Patch;
    if data != null && |done + s| <= dataLen {
      PatchTwice(was, base, done, s);
    }
  }

  /** One field of fixed size. */
  method Emit(data: array?<byte>, ghost was: seq<byte>, base: nat, dataLen: nat, off: nat, ghost done: seq<byte>, s: seq<byte>)
    returns (off': nat)
    requires Writing(data, was, base, dataLen, off, done)
    modifies if data == null then {} else {data}
    ensures Writing(data, was, base, dataLen, off', done + s) && off' == off + |s|
  {
    hide Patch;
    ghost var mid := Whole(data);
    PutBytes(data, base, dataLen, off, s);
    WritingMore(data, was, mid, base, dataLen, off, done, s);
    off' := off + |s|;
  }

  /** Where the rest of the buffer starts, and how long it is. */
  method Rest(data: array?<byte>, base: nat, dataLen: nat, off: nat) returns (at: nat, room: nat)
    requires data != null ==> base + dataLen <= data.Length
    ensures data != null ==> at + room <= data.Length
    ensures off <= dataLen ==> at == base + off && room == dataLen - off
    ensures room == Room(dataLen, off)
  {
    at, room := if off <= dataLen then base + off else base, if off <= dataLen then dataLen - off else 0;
  }

  /** What has been added by a part that counts its own bytes, right as long as there is room for it. */
  lemma WritingPart(data: array?<byte>, was: seq<byte>, mid: seq<byte>, base: nat, dataLen: nat, off: nat, done: seq<byte>,
      at: nat, room: nat, s: seq<byte>, r: nat)
    requires data != null ==> base + dataLen <= data.Length == |was|
    requires data == null || |done| <= dataLen ==> off == |done|
    requires data != null && |done| <= dataLen ==> mid == Patch(was, base, done)
    requires off <= dataLen ==> at == base + off && room == dataLen - off
    requires data == null || |s| <= room ==> r == |s|
    requires data != null && |s| <= room ==> at + |s| <= |mid| && data[..] == Patch(mid, at, s)
    ensures Writing(data, was, base, dataLen, off + r, done + s)
  {
    hide Patch;
    if data != null && |done + s| <= dataLen {
      PatchTwice(was, base, done, s);
    }
  }

  method EmitVarInt(data: array?<byte>, ghost was: seq<byte>, base: nat, dataLen: nat, off: nat, ghost done: seq<byte>, i: u64)
    returns (off': nat)
    requires Writing(data, was, base, dataLen, off, done)
    modifies if data == null then {} else {data}
    ensures Writing(data, was, base, dataLen, off', done + VarInt(i))
    ensures off' == PartEnd(data == null, dataLen, off, |VarInt(i)|)
  {
    hide Patch;
    hide VarInt;
    ghost var mid := Whole(data);
    var at, room := Rest(data, base, dataLen, off);
    var r := VarIntSet(data, at, room, i);
    WritingPart(data, was, mid, base, dataLen, off, done, at, room, VarInt(i), r);
    off' := off + r;
  }

  /** Written all at once, a part is right as long as there is room for it. */
  ghost predicate Wrote(data: array?<byte>, was: seq<byte>, base: nat, dataLen: nat, s: seq<byte>, r: nat)
    reads if data == null then {} else {data}
  {
    && (data == null || |s| <= dataLen ==> r == |s|)
    && (data != null && |s| <= dataLen ==> base + |s| <= |was| && data[..] == Patch(was, base, s))
  }

  method Finish(data: array?<byte>, ghost was: seq<byte>, base: nat, dataLen: nat, off: nat, ghost done: seq<byte>) returns (r: nat)
    requires Writing(data, was, base, dataLen, off, done)
    ensures Wrote(data, was, base, dataLen, done, r) && r == Counted(data == null, dataLen, off)
  {
    r := if data == null || off <= dataLen then off else 0;
  }

  /** _BRTxInputData, for an input whose signature is there */
  method TxInputData(input: TxInput, data: array?<byte>, base: nat, dataLen: nat) returns (r: nat)
    requires input.signature.Some? && (data != null ==> base + dataLen <= data.Length)
    modifies if data == null then {} else {data}
    ensures Wrote(data, old(Whole(data)), base, dataLen, FieldBytes(input, input.signature.value), r)
    ensures r == FieldsCount(data == null, dataLen, input, input.signature.value)
  {
    hide Writing;
    hide Wrote;
    hide VarInt;
    hide LittleEndianBytes;
    ghost var was, done := Whole(data), [];
    var sig := input.signature.value;
    WritingStarts(data, base, dataLen);
    var off := 0;
    off := Emit(data, was, base, dataLen, off, done, input.txHash);
    done := done + input.txHash;
    off := Emit(data, was, base, dataLen, off, done, LittleEndianBytes(input.index, 4));
    done := done + LittleEndianBytes(input.index, 4);
    off := EmitVarInt(data, was, base, dataLen, off, done, |sig|);
    done := done + VarInt(|sig|);
    off := Emit(data, was, base, dataLen, off, done, sig);
    done := done + sig;
    if input.amount != 0 {
      off := Emit(data, was, base, dataLen, off, done, LittleEndianBytes(input.amount, 8));
      done := done + LittleEndianBytes(input.amount, 8);
    }
    off := Emit(data, was, base, dataLen, off, done, LittleEndianBytes(input.sequence, 4));
    done := done + LittleEndianBytes(input.sequence, 4);
    assert done == FieldBytes(input, sig);
    r := Finish(data, was, base, dataLen, off, done);
  }

  method EmitInput(data: array?<byte>, ghost was: seq<byte>, base: nat, dataLen: nat, off: nat, ghost done: seq<byte>, input: TxInput)
    returns (off': nat)
    requires input.signature.Some? && Writing(data, was, base, dataLen, off, done)
    modifies if data == null then {} else {data}
    ensures Writing(data, was, base, dataLen, off', done + FieldBytes(input, input.signature.value))
    ensures off' == off + FieldsCount(data == null, Room(dataLen, off), input, input.signature.value)
  {
    hide Patch;
    hide FieldBytes;
    hide FieldsCount;
    ghost var mid := Whole(data);
    var at, room := Rest(data, base, dataLen, off);
    var r := TxInputData(input, data, at, room);
    WritingPart(data, was, mid, base, dataLen, off, done, at, room, FieldBytes(input, input.signature.value), r);
    off' := off + r;
  }

  /** _BRTransactionOutputData, for all outputs */
  method TransactionOutputData(outputs: TxOutputs, data: array?<byte>, base: nat, dataLen: nat) returns (r: nat)
    requires data != null ==> base + dataLen <= data.Length
    modifies if data == null then {} else {data}
    ensures Wrote(data, old(Whole(data)), base, dataLen, OutputsBytes(outputs), r)
    ensures r == Counted(data == null, dataLen, OutputsEnd(data == null, dataLen, outputs))
  {
    hide Writing;
    hide Wrote;
    hide VarInt;
    hide LittleEndianBytes;
    hide OutputsBytes;
    ghost var was, done: seq<byte> := Whole(data), OutputsBytes([]);
    WritingStarts(data, base, dataLen);
    NoOutputs();
    var off, i := 0, 0;
    while i < |outputs|
      invariant i <= |outputs| && done == OutputsBytes(outputs[..i]) && off == OutputsEnd(data == null, dataLen, outputs[..i])
      invariant Writing(data, was, base, dataLen, off, done)
    {
      var output := outputs[i];
      ghost var more := done + OutputBytes(output);
      off := Emit(data, was, base, dataLen, off, done, LittleEndianBytes(output.amount, 8));
      done := done + LittleEndianBytes(output.amount, 8);
      off := EmitVarInt(data, was, base, dataLen, off, done, |output.script|);
      done := done + VarInt(|output.script|);
      off := Emit(data, was, base, dataLen, off, done, output.script);
      done := done + output.script;
      assert done == more;
      OutputsBytesMore(outputs[..i], output);
      assert outputs[..i + 1] == outputs[..i] + [output];
      assert outputs[..i + 1][..i] == outputs[..i];
      i := i + 1;
    }
    assert outputs[..i] == outputs;
    r := Finish(data, was, base, dataLen, off, done);
  }

  lemma NoOutputs()
    ensures OutputsBytes([]) == [] && InputsBytes([]) == []
  {
  }

  method EmitOutputs(data: array?<byte>, ghost was: seq<byte>, base: nat, dataLen: nat, off: nat, ghost done: seq<byte>, outputs: TxOutputs)
    returns (off': nat)
    requires Writing(data, was, base, dataLen, off, done)
    modifies if data == null then {} else {data}
    ensures Writing(data, was, base, dataLen, off', done + OutputsBytes(outputs))
    ensures off' == off + Counted(data == null, Room(dataLen, off), OutputsEnd(data == null, Room(dataLen, off), outputs))
  {
    hide OutputsEnd;
    hide Patch;
    hide OutputsBytes;
    ghost var mid := Whole(data);
    var at, room := Rest(data, base, dataLen, off);
    var r := TransactionOutputData(outputs, data, at, room);
    WritingPart(data, was, mid, base, dataLen, off, done, at, room, OutputsBytes(outputs), r);
    off' := off + r;
  }

  /** The loop over the inputs: a missing signature is replaced by the script, and a signed input has no amount. */
  method EmitInputs(data: array?<byte>, ghost was: seq<byte>, base: nat, dataLen: nat, off: nat, ghost done: seq<byte>, inputs: TxInputs)
    returns (off': nat)
    requires Writing(data, was, base, dataLen, off, done)
    modifies if data == null then {} else {data}
    ensures Writing(data, was, base, dataLen, off', done + InputsBytes(inputs))
    ensures off' == InputsEnd(data == null, dataLen, off, inputs)
  {
    hide FieldsCount;
    hide Writing;
    hide InputsBytes;
    hide FieldBytes;
    NoOutputs();
    assert done + [] == done;
    off' := off;
    var i := 0;
    while i < |inputs|
      invariant i <= |inputs| && Writing(data, was, base, dataLen, off', done + InputsBytes(inputs[..i]))
      invariant off' == InputsEnd(data == null, dataLen, off, inputs[..i])
    {
      var input := inputs[i];
      if input.signature.None? {
        input := input.(signature := Some(input.script));
      } else {
        input := input.(amount := 0);
      }
      SameFields(inputs[i]);
      off' := EmitInput(data, was, base, dataLen, off', done + InputsBytes(inputs[..i]), input);
      InputsBytesMore(inputs[..i], inputs[i]);
      assert inputs[..i + 1] == inputs[..i] + [inputs[i]];
      assert inputs[..i + 1][..i] == inputs[..i];
      assert done + InputsBytes(inputs[..i]) + InputBytes(inputs[i]) == done + (InputsBytes(inputs[..i]) + InputBytes(inputs[i]));
      i := i + 1;
    }
    assert inputs[..i] == inputs;
  }

  lemma SameFields(i: TxInput)
    ensures i.signature.None? ==> FieldBytes(i.(signature := Some(i.script)), i.script) == InputBytes(i)
  {
  }

  /** BRTransactionSerialize */
  method Serialize(t: Tx, data: array?<byte>) returns (r: nat)
    modifies if data == null then {} else {data}
    ensures data == null || |TxBytes(t)| <= data.Length ==> r == |TxBytes(t)|
    ensures data != null && |TxBytes(t)| <= data.Length ==> data[..r] == TxBytes(t) && data[r..] == old(data[r..])
    ensures data != null ==> r == Counted(false, data.Length, SerializedEnd(false, data.Length, t))
  {
    hide InputsEnd;
    hide OutputsEnd;
    hide Writing;
    hide Wrote;
    hide VarInt;
    hide LittleEndianBytes;
    hide OutputsBytes;
    hide InputsBytes;
    ghost var was, done := Whole(data), [];
    var dataLen := if data == null then 0 else data.Length;
    WritingStarts(data, 0, dataLen);
    var off := 0;
    off := Emit(data, was, 0, dataLen, off, done, LittleEndianBytes(t.version, 4));
    done := done + LittleEndianBytes(t.version, 4);
    off := EmitVarInt(data, was, 0, dataLen, off, done, |t.inputs|);
    done := done + VarInt(|t.inputs|);
    off := EmitInputs(data, was, 0, dataLen, off, done, t.inputs);
    done := done + InputsBytes(t.inputs);
    off := EmitVarInt(data, was, 0, dataLen, off, done, |t.outputs|);
    done := done + VarInt(|t.outputs|);
    off := EmitOutputs(data, was, 0, dataLen, off, done, t.outputs);
    done := done + OutputsBytes(t.outputs);
    off := Emit(data, was, 0, dataLen, off, done, LittleEndianBytes(t.lockTime, 4));
    done := done + LittleEndianBytes(t.lockTime, 4);
    assert done == TxBytes(t);
    r := Finish(data, was, 0, dataLen, off, done);
    WroteAll(data, was, dataLen, done, r);
  }

  lemma WroteAll(data: array?<byte>, was: seq<byte>, dataLen: nat, s: seq<byte>, r: nat)
    requires Wrote(data, was, 0, dataLen, s, r) && (data != null ==> dataLen == data.Length == |was|)
    ensures data == null || |s| <= dataLen ==> r == |s|
    ensures data != null && |s| <= dataLen ==> data[..r] == s && data[r..] == was[r..]
  {
  }

  // ---------- BRTransactionParse ----------

  /** The first i inputs are parsed, up to off, and the rest is what is parsed from there. */
  ghost predicate ParsingInputs(buf: seq<byte>, start: nat, n: nat, done: seq<TxInput>, off: nat) {
    && |buf| < W64 && |done| <= n
    && var rest := ParseInputs(buf, off, n - |done|);
    ParseInputs(buf, start, n) == Parsing(done + rest.value, rest.off)
  }

  lemma ParsingInputsMore(buf: seq<byte>, start: nat, n: nat, done: seq<TxInput>, off: nat)
    requires ParsingInputs(buf, start, n, done, off) && off <= |buf| && |done| < n
    ensures var first := ParseInput(buf, off);
            ParsingInputs(buf, start, n, done + [first.value], first.off)
  {
    hide ParseInput;
    var first := ParseInput(buf, off);
    var rest := ParseInputs(buf, first.off, n - |done| - 1);
    assert done + ([first.value] + rest.value) == done + [first.value] + rest.value;
  }

  lemma ParsingInputsEnds(buf: seq<byte>, start: nat, n: nat, done: seq<TxInput>, off: nat)
    requires ParsingInputs(buf, start, n, done, off) && (off > |buf| || |done| == n)
    ensures ParseInputs(buf, start, n) == Parsing(done, off)
  {
    assert done + [] == done;
  }

  lemma ParsingInputsStarts(buf: seq<byte>, start: nat, n: nat)
    requires |buf| < W64
    ensures ParsingInputs(buf, start, n, [], start)
  {
    hide ParseInputs;
    var rest := ParseInputs(buf, start, n);
    assert [] + rest.value == rest.value;
  }

  ghost predicate ParsingOutputs(buf: seq<byte>, start: nat, n: nat, done: seq<TxOutput>, off: nat) {
    && |buf| < W64 && |done| <= n
    && var rest := ParseOutputs(buf, off, n - |done|);
    ParseOutputs(buf, start, n) == Parsing(done + rest.value, rest.off)
  }

  lemma ParsingOutputsMore(buf: seq<byte>, start: nat, n: nat, done: seq<TxOutput>, off: nat)
    requires ParsingOutputs(buf, start, n, done, off) && off <= |buf| && |done| < n
    ensures var first := ParseOutput(buf, off);
            ParsingOutputs(buf, start, n, done + [first.value], first.off)
  {
    hide ParseOutput;
    var first := ParseOutput(buf, off);
    var rest := ParseOutputs(buf, first.off, n - |done| - 1);
    assert done + ([first.value] + rest.value) == done + [first.value] + rest.value;
  }

  lemma ParsingOutputsEnds(buf: seq<byte>, start: nat, n: nat, done: seq<TxOutput>, off: nat)
    requires ParsingOutputs(buf, start, n, done, off) && (off > |buf| || |done| == n)
    ensures ParseOutputs(buf, start, n) == Parsing(done, off)
  {
    assert done + [] == done;
  }

  lemma ParsingOutputsStarts(buf: seq<byte>, start: nat, n: nat)
    requires |buf| < W64
    ensures ParsingOutputs(buf, start, n, [], start)
  {
    hide ParseOutputs;
    var rest := ParseOutputs(buf, start, n);
    assert [] + rest.value == rest.value;
  }

  /** One round of the loop over the inputs. */
  method ReadInput(buf: seq<byte>, start: nat) returns (input: TxInput, off: nat, toSign: bool)
    requires |buf| < W64
    ensures Parsing(input, off) == ParseInput(buf, start)
    ensures off <= |buf| ==> (toSign <==> input.signature.None?)
  {
    hide Field;
    hide AddressShape;
    hide ReadVarInt;
    var hash := ParseHash(buf, start);
    var index := ParseWord(buf, start + 32);
    var sLen := ReadVarInt(buf, start + 36);
    off := start + 36 + sLen.length;
    var script: Bytes, signature: Option<Bytes>, amount := [], None, 0;
    toSign := false;
    if off + sLen.value <= |buf| {
      var s := buf[off..off + sLen.value];
      var address := AddressFromScriptPubKey(s);
      if address.Some? {
        script := s;
        amount := ParseAmount(buf, off + sLen.value);
        off := off + 8;
        toSign := true;
      } else {
        signature := Some(s);
      }
    }
    off := off + sLen.value;
    input := TxInput(hash, index, amount, script, signature, ParseWord(buf, off));
    off := off + 4;
  }

  lemma NoneToSign()
    ensures IsSigned([])
  {
  }

  lemma SignedLast(s: seq<TxInput>, i: TxInput)
    ensures IsSigned(s + [i]) <==> IsSigned(s) && i.signature.Some?
  {
    assert forall k :: 0 <= k < |s| ==> (s + [i])[k] == s[k];
    assert (s + [i])[|s|] == i;
  }

  method ReadInputs(buf: seq<byte>, start: nat, inCount: nat) returns (inputs: seq<TxInput>, off: nat, isSigned: bool)
    requires |buf| < W64
    ensures Parsing(inputs, off) == ParseInputs(buf, start, inCount)
    ensures off <= |buf| ==> (isSigned <==> IsSigned(inputs))
  {
    hide ParseInput;
    hide ParseInputs;
    hide ParsingInputs;
    hide IsSigned;
    inputs, off, isSigned := [], start, true;
    ParsingInputsStarts(buf, start, inCount);
    NoneToSign();
    while off <= |buf| && |inputs| < inCount
      invariant |inputs| <= inCount && ParsingInputs(buf, start, inCount, inputs, off)
      invariant off <= |buf| ==> (isSigned <==> IsSigned(inputs))
      decreases inCount - |inputs|
    {
      ParsingInputsMore(buf, start, inCount, inputs, off);
      var input, end, toSign := ReadInput(buf, off);
      if toSign {
        isSigned := false;
      }
      SignedLast(inputs, input);
      inputs, off := inputs + [input], end;
    }
    ParsingInputsEnds(buf, start, inCount, inputs, off);
  }

  method ReadOutputs(buf: seq<byte>, start: nat, outCount: nat) returns (outputs: seq<TxOutput>, off: nat)
    requires |buf| < W64
    ensures Parsing(outputs, off) == ParseOutputs(buf, start, outCount)
  {
    hide Field;
    hide ParseOutputs;
    hide ParsingOutputs;
    hide ReadVarInt;
    outputs, off := [], start;
    ParsingOutputsStarts(buf, start, outCount);
    while off <= |buf| && |outputs| < outCount
      invariant |outputs| <= outCount && ParsingOutputs(buf, start, outCount, outputs, off)
      decreases outCount - |outputs|
    {
      ParsingOutputsMore(buf, start, outCount, outputs, off);
      var amount := ParseAmount(buf, off);
      var sLen := ReadVarInt(buf, off + 8);
      off := off + 8 + sLen.length;
      var script: Bytes := [];
      if off + sLen.value <= |buf| {
        script := buf[off..off + sLen.value];
      }
      off := off + sLen.value;
      outputs := outputs + [TxOutput(amount, script)];
    }
    ParsingOutputsEnds(buf, start, outCount, outputs, off);
  }

  /** BRTransactionParse */
  method Parse(sha2: seq<byte> -> Digest, buf: seq<byte>) returns (r: Option<ParsedTx>)
    requires |buf| < W64
    ensures r == ParseTx(sha2, buf)
  {
    hide Field;
    hide ReadVarInt;
    hide ParseInputs;
    hide ParseOutputs;
    hide IsSigned;
    var version := ParseWord(buf, 0);
    var inCount := ReadVarInt(buf, 4);
    var inputs, off, isSigned := ReadInputs(buf, 4 + inCount.length, inCount.value);
    var outCount := ReadVarInt(buf, off);
    var outputs, end := ReadOutputs(buf, off + outCount.length, outCount.value);
    var lockTime := ParseWord(buf, end);
    end := end + 4;
    if inCount.value == 0 || end > |buf| {
      return None;
    }
    r := Some(ParsedTx(Tx(version, inputs, outputs, lockTime), if isSigned then Some(sha2(buf[..end])) else None));
  }
}

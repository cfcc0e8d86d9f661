/** Variable-length integers and scripts of BRAddress.c */
module Script {
  import opened Words
  import opened Wrappers

  const VAR_INT16_HEADER: byte := 0xfd
  const VAR_INT32_HEADER: byte := 0xfe
  const VAR_INT64_HEADER: byte := 0xff
  const MAX_SCRIPT_LENGTH: nat := 0x100
  const OP_PUSHDATA1: byte := 0x4c
  const OP_PUSHDATA2: byte := 0x4d
  const OP_PUSHDATA4: byte := 0x4e
  const OP_DUP: byte := 0x76
  const OP_EQUAL: byte := 0x87
  const OP_EQUALVERIFY: byte := 0x88
  const OP_HASH160: byte := 0xa9
  const OP_CHECKSIG: byte := 0xac

  // ---------- buffers ----------

  /** s written into was at at. */
  function Patch(was: seq<byte>, at: nat, s: seq<byte>): (now: seq<byte>)
    requires at + |s| <= |was|
    ensures |now| == |was|
  {
    was[..at] + s + was[at + |s|..]
  }

  lemma PatchTwice(was: seq<byte>, at: nat, s: seq<byte>, t: seq<byte>)
    requires at + |s| + |t| <= |was|
    ensures Patch(Patch(was, at, s), at + |s|, t) == Patch(was, at, s + t)
  {
  }

  lemma PatchNothing(was: seq<byte>, at: nat)
    requires at <= |was|
    ensures Patch(was, at, []) == was
  {
  }

  // ---------- little-endian fields ----------

  /** The n bytes at off, or zero if the buffer ends before. */
  function Field(buf: seq<byte>, off: nat, n: nat): nat {
    if off + n <= |buf| then LittleEndian(buf[off..off + n]) else 0
  }

  /** x comes at off in buf. */
  ghost predicate At(buf: seq<byte>, off: nat, x: seq<byte>) {
    off + |x| <= |buf| && buf[off..off + |x|] == x
  }

  lemma AtParts(buf: seq<byte>, off: nat, x: seq<byte>, y: seq<byte>)
    requires At(buf, off, x + y)
    ensures At(buf, off, x) && At(buf, off + |x|, y)
  {
    assert buf[off..off + |x|] == buf[off..off + |x + y|][..|x|];
    assert buf[off + |x|..off + |x| + |y|] == buf[off..off + |x + y|][|x|..];
  }

  lemma FieldAt(buf: seq<byte>, off: nat, n: nat, x: nat)
    requires x < Pow256(n) && At(buf, off, LittleEndianBytes(x, n))
    ensures Field(buf, off, n) == x
  {
    NumberOfBytes(x, n);
  }

  // ---------- variable-length integers ----------

  function VarInt(i: u64): (s: seq<byte>)
    ensures 1 <= |s| <= 9
  {
    if i < VAR_INT16_HEADER then [i]
    else if i < 0x1_0000 then [VAR_INT16_HEADER] + LittleEndianBytes(i, 2)
    else if i < W32 then [VAR_INT32_HEADER] + LittleEndianBytes(i, 4)
    else [VAR_INT64_HEADER] + LittleEndianBytes(i, 8)
  }

  function VarIntLength(i: u64): nat {
    if i < VAR_INT16_HEADER then 1 else if i < 0x1_0000 then 3 else if i < W32 then 5 else 9
  }

  datatype Read = Read(value: u64, length: nat)

  /** BRVarInt, at an offset that may lie behind the buffer. */
  function ReadVarInt(buf: seq<byte>, off: nat): Read {
    var h := if off < |buf| then buf[off] else 0;
    FieldFits(buf, off + 1);
    if h == VAR_INT16_HEADER then Read(Field(buf, off + 1, 2), 3)
    else if h == VAR_INT32_HEADER then Read(Field(buf, off + 1, 4), 5)
    else if h == VAR_INT64_HEADER then Read(Field(buf, off + 1, 8), 9)
    else Read(h, 1)
  }

  lemma FieldBound(buf: seq<byte>, off: nat, n: nat)
    ensures Field(buf, off, n) < Pow256(n)
  {
    if off + n <= |buf| {
      LittleEndianBound(buf[off..off + n]);
    }
  }

  lemma FieldFits(buf: seq<byte>, off: nat)
    ensures Field(buf, off, 2) < 0x1_0000 && Field(buf, off, 4) < W32 && Field(buf, off, 8) < W64
  {
    Pow256Words();
    FieldBound(buf, off, 2);
    FieldBound(buf, off, 4);
    FieldBound(buf, off, 8);
  }

  /** One byte, or a header and two, four or eight bytes with the lowest one first. */
  lemma VarIntIs(i: u64)
    ensures i < 0xfd ==> VarInt(i) == [i]
    ensures 0xfd <= i < 0x1_0000 ==> VarInt(i) == [0xfd] + LittleEndianBytes(i, 2)
    ensures 0x1_0000 <= i < 0x1_0000_0000 ==> VarInt(i) == [0xfe] + LittleEndianBytes(i, 4)
    ensures 0x1_0000_0000 <= i ==> VarInt(i) == [0xff] + LittleEndianBytes(i, 8)
  {
    hide LittleEndianBytes;
  }

  /** Reading a written integer gives it back, with the length that was written. */
  lemma ReadWrittenVarInt(buf: seq<byte>, off: nat, i: u64)
    requires At(buf, off, VarInt(i))
    ensures ReadVarInt(buf, off) == Read(i, |VarInt(i)|) && |VarInt(i)| == VarIntLength(i)
  {
    hide LittleEndianBytes;
    hide Field;
    var s := VarInt(i);
    assert buf[off] == buf[off..off + |s|][0] == s[0];
    Pow256Words();
    if i >= VAR_INT16_HEADER {
      var n := if i < 0x1_0000 then 2 else if i < W32 then 4 else 8;
      assert s == [s[0]] + LittleEndianBytes(i, n);
      AtParts(buf, off, [s[0]], LittleEndianBytes(i, n));
      FieldAt(buf, off + 1, n, i);
    }
  }

  /** No encoding of an integer is shorter than the one that is written. */
  lemma ShortestVarInt(buf: seq<byte>, off: nat)
    ensures VarIntLength(ReadVarInt(buf, off).value) <= ReadVarInt(buf, off).length
  {
    hide Field;
    FieldFits(buf, off + 1);
  }

  /** if (data && off + |s| <= dataLen) write s at off, for a buffer of dataLen bytes that starts at base. */
  method PutBytes(data: array?<byte>, base: nat, dataLen: nat, off: nat, s: seq<byte>)
    requires data != null ==> base + dataLen <= data.Length
    modifies if data == null then {} else {data}
    ensures data != null ==>
              data[..] == if off + |s| <= dataLen then Patch(old(data[..]), base + off, s) else old(data[..])
  {
    if data != null {
      if off + |s| <= dataLen {
        forall i | 0 <= i < |s| {
          data[base + off + i] := s[i];
        }
      }
    }
  }

  /** BRVarIntSet: the number of bytes written or, for a null buffer, needed; 0 if the buffer is too short. */
  method VarIntSet(data: array?<byte>, base: nat, dataLen: nat, i: u64) returns (r: nat)
    requires data != null ==> base + dataLen <= data.Length
    modifies if data == null then {} else {data}
    ensures r == if data == null || |VarInt(i)| <= dataLen then |VarInt(i)| else 0
    ensures data != null ==> data[..] == if r > 0 then Patch(old(data[..]), base, VarInt(i)) else old(data[..])
  {
    hide Patch;
    hide LittleEndianBytes;
    var s: seq<byte>;
    if i < VAR_INT16_HEADER {
      s := [i];
    } else if i <= 0xffff {
      s := [VAR_INT16_HEADER] + LittleEndianBytes(i, 2);
    } else if i <= 0xffff_ffff {
      s := [VAR_INT32_HEADER] + LittleEndianBytes(i, 4);
    } else {
      s := [VAR_INT64_HEADER] + LittleEndianBytes(i, 8);
    }
    PutBytes(data, base, dataLen, 0, s);
    r := if data == null || |s| <= dataLen then |s| else 0;
  }

  // ---------- script elements ----------

  /** Where the element at off ends, or any place behind the script if its length is cut off. */
  function ElementEnd(script: seq<byte>, off: nat): (end: nat)
    requires off < |script|
    ensures end > off
  {
    var op := script[off];
    if op == OP_PUSHDATA1 then off + 2 + Field(script, off + 1, 1)
    else if op == OP_PUSHDATA2 then off + 3 + Field(script, off + 1, 2)
    else if op == OP_PUSHDATA4 then off + 5 + Field(script, off + 1, 4)
    else if op > OP_PUSHDATA4 then off + 1
    else off + 1 + op
  }

  /** The opcodes: pushes of up to 75 bytes, pushes with a length of one, two or four bytes, and all others. */
  lemma ElementEndIs(script: seq<byte>, off: nat)
    requires off < |script|
    ensures script[off] < 0x4c ==> ElementEnd(script, off) == off + 1 + script[off]
    ensures script[off] == 0x4c && off + 2 <= |script| ==> ElementEnd(script, off) == off + 2 + script[off + 1]
    ensures script[off] == 0x4d && off + 3 <= |script| ==>
              ElementEnd(script, off) == off + 3 + (script[off + 1] as int + 0x100 * script[off + 2] as int)
    ensures script[off] == 0x4e && off + 5 <= |script| ==>
              ElementEnd(script, off) == off + 5 + (script[off + 1] as int + 0x100 * script[off + 2] as int
                                                    + 0x1_0000 * script[off + 3] as int + 0x100_0000 * script[off + 4] as int)
    ensures script[off] > 0x4e ==> ElementEnd(script, off) == off + 1
  {
    var n := |script|;
    LittleEndianOfFour(if off + 2 <= n then script[off + 1..off + 2] else []);
    LittleEndianOfFour(if off + 3 <= n then script[off + 1..off + 3] else []);
    LittleEndianOfFour(if off + 5 <= n then script[off + 1..off + 5] else []);
  }

  lemma LittleEndianOfFour(b: seq<byte>)
    ensures |b| == 1 ==> LittleEndian(b) == b[0]
    ensures |b| == 2 ==> LittleEndian(b) == b[0] as int + 0x100 * b[1] as int
    ensures |b| == 4 ==> LittleEndian(b) == b[0] as int + 0x100 * b[1] as int + 0x1_0000 * b[2] as int + 0x100_0000 * b[3] as int
  {
    if |b| == 2 {
      LittleEndianOfFour(b[1..]);
    } else if |b| == 4 {
      var c, d, e := b[1..], b[2..], b[3..];
      assert c[1..] == d && d[1..] == e && e[1..] == [];
      assert LittleEndian(e) == b[3];
      assert LittleEndian(c) == c[0] + 256 * LittleEndian(d);
    }
  }

  /** The offsets of the elements from off on, if the last one ends with the script. */
  function Elements(script: seq<byte>, off: nat): Option<seq<nat>>
    decreases |script| - off
  {
    if off > |script| then None
    else if off == |script| then Some([])
    else
      var rest := Elements(script, ElementEnd(script, off));
      if rest.None? then None else Some([off] + rest.value)
  }

  /** The elements found so far, up to off, are the first ones. */
  ghost predicate Scanned(script: seq<byte>, off: nat, found: seq<nat>) {
    var rest := Elements(script, off);
    Elements(script, 0) == if rest.None? then None else Some(found + rest.value)
  }

  lemma ScannedOne(script: seq<byte>, off: nat, found: seq<nat>)
    requires off < |script| && Scanned(script, off, found)
    ensures Scanned(script, ElementEnd(script, off), found + [off])
  {
    hide ElementEnd;
    var rest := Elements(script, ElementEnd(script, off));
    if rest.Some? {
      assert found + ([off] + rest.value) == found + [off] + rest.value;
    }
  }

  /** The end of an element, with the length of the one before if its own length is cut off. */
  method NextElement(script: seq<byte>, off: nat, len: nat) returns (off': nat, len': nat)
    requires off < |script|
    ensures off' == ElementEnd(script, off) || (off' > |script| && ElementEnd(script, off) > |script|)
  {
    hide LittleEndian;
    off', len' := off, len;
    if script[off] == OP_PUSHDATA1 {
      off' := off' + 1;
      if off' + 1 <= |script| {
        len' := Field(script, off', 1);
      }
      off' := off' + 1;
    } else if script[off] == OP_PUSHDATA2 {
      off' := off' + 1;
      if off' + 2 <= |script| {
        len' := Field(script, off', 2);
      }
      off' := off' + 2;
    } else if script[off] == OP_PUSHDATA4 {
      off' := off' + 1;
      if off' + 4 <= |script| {
        len' := Field(script, off', 4);
      }
      off' := off' + 4;
    } else {
      len' := if script[off] > OP_PUSHDATA4 then 0 else script[off];
      off' := off' + 1;
    }
    off' := off' + len';
  }

  lemma BehindTheScript(script: seq<byte>, off: nat, off': nat, found: seq<nat>)
    requires off > |script| && off' > |script| && Scanned(script, off, found)
    ensures Scanned(script, off', found)
  {
  }

  lemma ScannedAll(script: seq<byte>, off: nat, found: seq<nat>)
    requires off >= |script| && Scanned(script, off, found)
    ensures Elements(script, 0) == if off == |script| then Some(found) else None
  {
    hide ElementEnd;
    assert found + [] == found;
  }

  /** BRScriptElements: the elements, by their offsets, or none at all for a script whose last element is cut off. */
  method ScriptElements(elems: array?<nat>, script: seq<byte>) returns (count: nat)
    modifies if elems == null then {} else {elems}
    ensures var found := Elements(script, 0);
            && count == (if found.Some? && (elems == null || |found.value| <= elems.Length) then |found.value| else 0)
            && (elems != null && found.Some? && |found.value| <= elems.Length ==> elems[..count] == found.value)
  {
    hide Elements;
    hide ElementEnd;
    hide Scanned;
    var off, i, len := 0, 0, 0;
    ghost var found: seq<nat> := [];
    ScannedNothing(script);
    while off < |script|
      invariant i == |found| && Scanned(script, off, found)
      invariant elems != null ==> forall k :: 0 <= k < i && k < elems.Length ==> elems[k] == found[k]
      decreases |script| - off
    {
      if elems != null {
        if i < elems.Length {
          elems[i] := off;
        }
      }
      ScannedOne(script, off, found);
      found := found + [off];
      ghost var end := ElementEnd(script, off);
      off, len := NextElement(script, off, len);
      if off != end {
        BehindTheScript(script, end, off, found);
      }
      i := i + 1;
    }
    ScannedAll(script, off, found);
    count := if (elems == null || i <= elems.Length) && off == |script| then i else 0;
  }

  lemma ScannedNothing(script: seq<byte>)
    ensures Scanned(script, 0, [])
  {
    hide ElementEnd;
    if Elements(script, 0).Some? {
      assert [] + Elements(script, 0).value == Elements(script, 0).value;
    }
  }

  // ---------- scripts that pay to an address ----------

  /** Pay to a public key hash, to a script hash, or to a public key. */
  predicate AddressShape(script: seq<byte>) {
    || (|script| == 25 && script[0] == OP_DUP && script[1] == OP_HASH160 && script[2] == 20
        && script[23] == OP_EQUALVERIFY && script[24] == OP_CHECKSIG)
    || (|script| == 23 && script[0] == OP_HASH160 && script[1] == 20 && script[22] == OP_EQUAL)
    || (|script| == 67 && script[0] == 65 && script[66] == OP_CHECKSIG)
    || (|script| == 35 && script[0] == 33 && script[34] == OP_CHECKSIG)
  }

  /** The bytes that the address is made from. */
  function AddressPayload(script: seq<byte>): seq<byte>
    requires AddressShape(script)
  {
    if |script| == 25 then script[3..23] else if |script| == 23 then script[2..22] else script[1..|script| - 1]
  }

  /** The four shapes byte by byte: 76 a9 14 .. 88 ac, a9 14 .. 87, 41 .. ac and 21 .. ac, and the bytes in between. */
  lemma ShapesAre(script: seq<byte>)
    ensures AddressShape(script) <==>
              || (|script| == 25 && script[..3] == [0x76, 0xa9, 0x14] && script[23..] == [0x88, 0xac])
              || (|script| == 23 && script[..2] == [0xa9, 0x14] && script[22..] == [0x87])
              || (|script| == 67 && script[..1] == [0x41] && script[66..] == [0xac])
              || (|script| == 35 && script[..1] == [0x21] && script[34..] == [0xac])
    ensures AddressShape(script) ==>
              script == if |script| == 25 then [0x76, 0xa9, 0x14] + AddressPayload(script) + [0x88, 0xac]
                        else if |script| == 23 then [0xa9, 0x14] + AddressPayload(script) + [0x87]
                        else [|script| - 2] + AddressPayload(script) + [0xac]
  {
    if AddressShape(script) {
      var n := |script|;
      if n == 25 {
        assert script == script[..3] + script[3..23] + script[23..];
      } else if n == 23 {
        assert script == script[..2] + script[2..22] + script[22..];
      } else {
        assert script == script[..1] + script[1..n - 1] + script[n - 1..];
      }
    }
  }

  /** The opcodes at the elements match the ops, in number and value. */
  predicate OpcodesAre(script: seq<byte>, elems: seq<nat>, ops: seq<byte>)
    requires forall i :: 0 <= i < |elems| ==> elems[i] < |script|
  {
    |elems| == |ops| && forall i :: 0 <= i < |ops| ==> script[elems[i]] == ops[i]
  }

  lemma {:induction false} ElementsInside(script: seq<byte>, off: nat)
    ensures Elements(script, off).Some? ==> forall i :: 0 <= i < |Elements(script, off).value| ==> Elements(script, off).value[i] < |script|
    decreases |script| - off
  {
    hide ElementEnd;
    if off < |script| {
      ElementsInside(script, ElementEnd(script, off));
    }
  }

  /** The elements from off on have these opcodes, each of them a plain opcode or a push of fewer than 76 bytes. */
  ghost predicate Reads(script: seq<byte>, off: nat, ops: seq<byte>) {
    var e := Elements(script, off);
    ElementsInside(script, off);
    e.Some? && OpcodesAre(script, e.value, ops)
  }

  /** Scripts that read as an opcode and more: the opcode is there, and the rest reads as more behind it. */
  lemma ReadsOne(script: seq<byte>, off: nat, op: byte, ops: seq<byte>)
    requires !(OP_PUSHDATA1 <= op <= OP_PUSHDATA4)
    ensures Reads(script, off, [op] + ops) <==>
            off < |script| && script[off] == op && Reads(script, off + 1 + (if op > OP_PUSHDATA4 then 0 else op), ops)
  {
    hide ElementEnd;
    if off < |script| && script[off] == op {
      var next := off + 1 + (if op > OP_PUSHDATA4 then 0 else op);
      EndOfElement(script, off);
      ElementsInside(script, off);
      ElementsInside(script, next);
      var e, r := Elements(script, off), Elements(script, next);
      if r.Some? {
        OpcodesMore(script, off, r.value, op, ops);
      }
    } else {
      FirstOpcode(script, off, op, ops);
    }
  }

  lemma OpcodesMore(script: seq<byte>, off: nat, r: seq<nat>, op: byte, ops: seq<byte>)
    requires off < |script| && script[off] == op && forall i :: 0 <= i < |r| ==> r[i] < |script|
    ensures forall i :: 0 <= i < |[off] + r| ==> ([off] + r)[i] < |script|
    ensures OpcodesAre(script, [off] + r, [op] + ops) <==> OpcodesAre(script, r, ops)
  {
    if OpcodesAre(script, [off] + r, [op] + ops) {
      forall i | 0 <= i < |ops|
        ensures script[r[i]] == ops[i]
      {
        assert script[([off] + r)[i + 1]] == ([op] + ops)[i + 1];
      }
    }
  }

  lemma FirstOpcode(script: seq<byte>, off: nat, op: byte, ops: seq<byte>)
    ensures Reads(script, off, [op] + ops) ==> off < |script| && script[off] == op
  {
    hide ElementEnd;
    if Reads(script, off, [op] + ops) {
      ElementsInside(script, off);
      var e := Elements(script, off).value;
      assert script[e[0]] == ([op] + ops)[0];
    }
  }

  lemma ReadsNothing(script: seq<byte>, off: nat)
    ensures Reads(script, off, []) <==> off == |script|
  {
    hide ElementEnd;
  }

  lemma EndOfElement(script: seq<byte>, off: nat)
    ensures off < |script| && script[off] > OP_PUSHDATA4 ==> ElementEnd(script, off) == off + 1
    ensures off < |script| && script[off] < OP_PUSHDATA1 ==> ElementEnd(script, off) == off + 1 + script[off]
  {
  }

  /** The elements of a script tell exactly whether it has one of the three shapes. */
  lemma ShapesByElements(script: seq<byte>)
    ensures Reads(script, 0, [OP_DUP, OP_HASH160, 20, OP_EQUALVERIFY, OP_CHECKSIG]) <==>
            |script| == 25 && script[0] == OP_DUP && script[1] == OP_HASH160 && script[2] == 20
            && script[23] == OP_EQUALVERIFY && script[24] == OP_CHECKSIG
    ensures Reads(script, 0, [OP_HASH160, 20, OP_EQUAL]) <==>
            |script| == 23 && script[0] == OP_HASH160 && script[1] == 20 && script[22] == OP_EQUAL
    ensures Reads(script, 0, [65, OP_CHECKSIG]) <==> |script| == 67 && script[0] == 65 && script[66] == OP_CHECKSIG
    ensures Reads(script, 0, [33, OP_CHECKSIG]) <==> |script| == 35 && script[0] == 33 && script[34] == OP_CHECKSIG
  {
    hide Reads;
    ReadsKeyHash(script);
    ReadsScriptHash(script);
    ReadsKey(script, 65);
    ReadsKey(script, 33);
  }

  lemma ReadsKeyHash(script: seq<byte>)
    ensures Reads(script, 0, [OP_DUP, OP_HASH160, 20, OP_EQUALVERIFY, OP_CHECKSIG]) <==>
            |script| == 25 && script[0] == OP_DUP && script[1] == OP_HASH160 && script[2] == 20
            && script[23] == OP_EQUALVERIFY && script[24] == OP_CHECKSIG
  {
    hide Reads;
    var c: seq<byte> := [OP_CHECKSIG];
    var d, e, f := [OP_EQUALVERIFY] + c, [20, OP_EQUALVERIFY] + c, [OP_HASH160, 20, OP_EQUALVERIFY] + c;
    assert e == [20] + d && f == [OP_HASH160] + e;
    assert [OP_DUP, OP_HASH160, 20, OP_EQUALVERIFY, OP_CHECKSIG] == [OP_DUP] + f;
    ReadsOne(script, 0, OP_DUP, f);
    ReadsOne(script, 1, OP_HASH160, e);
    ReadsOne(script, 2, 20, d);
    ReadsOne(script, 23, OP_EQUALVERIFY, c);
    assert c == [OP_CHECKSIG] + [];
    ReadsOne(script, 24, OP_CHECKSIG, []);
    ReadsNothing(script, 25);
  }

  lemma ReadsScriptHash(script: seq<byte>)
    ensures Reads(script, 0, [OP_HASH160, 20, OP_EQUAL]) <==>
            |script| == 23 && script[0] == OP_HASH160 && script[1] == 20 && script[22] == OP_EQUAL
  {
    hide Reads;
    var c: seq<byte> := [OP_EQUAL];
    var d := [20] + c;
    assert [OP_HASH160, 20, OP_EQUAL] == [OP_HASH160] + d;
    ReadsOne(script, 0, OP_HASH160, d);
    ReadsOne(script, 1, 20, c);
    assert c == [OP_EQUAL] + [];
    ReadsOne(script, 22, OP_EQUAL, []);
    ReadsNothing(script, 23);
  }

  lemma ReadsKey(script: seq<byte>, n: byte)
    requires n < OP_PUSHDATA1
    ensures Reads(script, 0, [n, OP_CHECKSIG]) <==>
            |script| == n + 2 && script[0] == n && script[n + 1] == OP_CHECKSIG
  {
    hide Reads;
    var c: seq<byte> := [OP_CHECKSIG];
    assert [n, OP_CHECKSIG] == [n] + c;
    ReadsOne(script, 0, n, c);
    assert c == [OP_CHECKSIG] + [];
    ReadsOne(script, n + 1, OP_CHECKSIG, []);
    ReadsNothing(script, n + 2);
  }

  /** BRScriptData: where the data of a push starts and how long it is. */
  function ScriptData(script: seq<byte>, at: nat): Option<(nat, nat)>
    requires at < |script|
  {
    var op := script[at];
    var start := if op == OP_PUSHDATA1 then at + 2 else if op == OP_PUSHDATA2 then at + 3 else if op == OP_PUSHDATA4 then at + 5
                 else at + 1;
    var len := if op == OP_PUSHDATA1 then Field(script, at + 1, 1) else if op == OP_PUSHDATA2 then Field(script, at + 1, 2)
               else if op == OP_PUSHDATA4 then Field(script, at + 1, 4) else if op > OP_PUSHDATA4 then 0 else op;
    if len > 0 then Some((start, len)) else None
  }

  lemma PushedData(script: seq<byte>, at: nat)
    ensures at < |script| && 0 < script[at] < OP_PUSHDATA1 ==> ScriptData(script, at) == Some((at + 1, script[at] as nat))
  {
  }

  /** The first elements, each where the one before it ends. */
  lemma FirstElements(script: seq<byte>)
    ensures Elements(script, 0).Some? ==>
              var e := Elements(script, 0).value;
              && (|e| > 0 ==> 0 < |script| && e[0] == 0)
              && (|e| > 1 ==> e[1] == ElementEnd(script, 0) < |script|)
              && (|e| > 2 ==> e[2] == ElementEnd(script, e[1]))
  {
    hide ElementEnd;
    FirstElement(script, 0);
    if |script| > 0 {
      var second := ElementEnd(script, 0);
      FirstElement(script, second);
      if second < |script| {
        FirstElement(script, ElementEnd(script, second));
      }
    }
  }

  lemma FirstElement(script: seq<byte>, off: nat)
    ensures off < |script| ==>
              var rest := Elements(script, ElementEnd(script, off));
              Elements(script, off) == if rest.None? then None else Some([off] + rest.value)
    ensures off >= |script| ==> Elements(script, off) == if off == |script| then Some([]) else None
  {
    hide ElementEnd;
  }

  /** Where the data of the three shapes is. */
  lemma DataOfShapes(script: seq<byte>, e: seq<nat>)
    requires Elements(script, 0) == Some(e) && forall i :: 0 <= i < |e| ==> e[i] < |script|
    ensures OpcodesAre(script, e, [OP_DUP, OP_HASH160, 20, OP_EQUALVERIFY, OP_CHECKSIG]) ==>
              |script| == 25 && AddressShape(script) && ScriptData(script, e[2]) == Some((3, 20))
    ensures OpcodesAre(script, e, [OP_HASH160, 20, OP_EQUAL]) ==>
              |script| == 23 && AddressShape(script) && ScriptData(script, e[1]) == Some((2, 20))
    ensures OpcodesAre(script, e, [65, OP_CHECKSIG]) ==>
              |script| == 67 && AddressShape(script) && ScriptData(script, e[0]) == Some((1, 65))
    ensures OpcodesAre(script, e, [33, OP_CHECKSIG]) ==>
              |script| == 35 && AddressShape(script) && ScriptData(script, e[0]) == Some((1, 33))
    ensures AddressShape(script) ==>
              || OpcodesAre(script, e, [OP_DUP, OP_HASH160, 20, OP_EQUALVERIFY, OP_CHECKSIG])
              || OpcodesAre(script, e, [OP_HASH160, 20, OP_EQUAL])
              || OpcodesAre(script, e, [65, OP_CHECKSIG])
              || OpcodesAre(script, e, [33, OP_CHECKSIG])
  {
    hide Elements;
    hide ElementEnd;
    hide ScriptData;
    hide OpcodesAre;
    FirstElements(script);
    ShapesByElements(script);
    ReadsOpcodes(script, e, [OP_DUP, OP_HASH160, 20, OP_EQUALVERIFY, OP_CHECKSIG]);
    ReadsOpcodes(script, e, [OP_HASH160, 20, OP_EQUAL]);
    ReadsOpcodes(script, e, [65, OP_CHECKSIG]);
    ReadsOpcodes(script, e, [33, OP_CHECKSIG]);
    PushedData(script, 0);
    PushedData(script, 1);
    PushedData(script, 2);
    EndOfElement(script, 0);
    EndOfElement(script, 1);
  }

  lemma ReadsOpcodes(script: seq<byte>, e: seq<nat>, ops: seq<byte>)
    requires Elements(script, 0) == Some(e) && forall i :: 0 <= i < |e| ==> e[i] < |script|
    ensures OpcodesAre(script, e, ops) <==> Reads(script, 0, ops)
    ensures OpcodesAre(script, e, ops) ==> |e| == |ops|
  {
    hide Elements;
  }

  lemma ReadsSomething(script: seq<byte>, ops: seq<byte>)
    ensures Reads(script, 0, ops) ==> Elements(script, 0).Some?
  {
  }

  lemma NoElements(script: seq<byte>)
    ensures AddressShape(script) ==> Elements(script, 0).Some?
  {
    hide Reads;
    hide Elements;
    ShapesByElements(script);
    ReadsSomething(script, [OP_DUP, OP_HASH160, 20, OP_EQUALVERIFY, OP_CHECKSIG]);
    ReadsSomething(script, [OP_HASH160, 20, OP_EQUAL]);
    ReadsSomething(script, [65, OP_CHECKSIG]);
    ReadsSomething(script, [33, OP_CHECKSIG]);
  }

  /** BRAddressFromScriptPubKey, up to the bytes that the address is made from. */
  method AddressFromScriptPubKey(script: seq<byte>) returns (data: Option<seq<byte>>)
    ensures data == if AddressShape(script) then Some(AddressPayload(script)) else None
  {
    hide Elements;
    hide ScriptData;
    if |script| == 0 || |script| > MAX_SCRIPT_LENGTH {
      return None;
    }
    var n := ScriptElements(null, script);
    var buf := new nat[n];
    var count := ScriptElements(buf, script);
    var elems := buf[..count];
    ElementsInside(script, 0);
    NoElements(script);
    if Elements(script, 0).Some? {
      DataOfShapes(script, elems);
    }
    var d := None;
    if OpcodesAre(script, elems, [OP_DUP, OP_HASH160, 20, OP_EQUALVERIFY, OP_CHECKSIG]) {
      d := ScriptData(script, elems[2]);
      if d.Some? && d.value.1 != 20 {
        d := None;
      }
    } else if OpcodesAre(script, elems, [OP_HASH160, 20, OP_EQUAL]) {
      d := ScriptData(script, elems[1]);
      if d.Some? && d.value.1 != 20 {
        d := None;
      }
    } else if OpcodesAre(script, elems, [65, OP_CHECKSIG]) || OpcodesAre(script, elems, [33, OP_CHECKSIG]) {
      d := ScriptData(script, elems[0]);
      if d.Some? && d.value.1 != 65 && d.value.1 != 33 {
        d := None;
      }
    }
    data := if d.Some? then Some(script[d.value.0..d.value.0 + d.value.1]) else None;
  }
}

/**
 The stream cipher of Modules/core/BRCrypto.c.  The block function is that of section 2.3 of RFC 7539;
 the source counts blocks in the two words 12 and 13 of the state.
 */
module ChaCha20 {
  import opened MachineWords
  import opened Words

  const SIGMA: seq<byte> := [0x65, 0x78, 0x70, 0x61, 0x6e, 0x64, 0x20, 0x33, 0x32, 0x2d, 0x62, 0x79, 0x74, 0x65, 0x20, 0x6b]

  type State = s: seq<u32> | |s| == 16 witness [0, 0, 0, 0, 0, 0, 0, 0, 0, 0, 0, 0, 0, 0, 0, 0]

  function Plus(x: u32, y: u32): u32 {
    (x + y) % W32
  }

  function Mix(x: u32, y: u32): u32 {
    XorFits(x, y);
    Xor(x, y)
  }

  /** qr: the quarter round on the words a, b, c and d of x. */
  function QuarterRound(x: State, a: nat, b: nat, c: nat, d: nat): State
    requires a < 16 && b < 16 && c < 16 && d < 16
  {
    var x := x[a := Plus(x[a], x[b])];
    var x := x[d := Rol32(Mix(x[d], x[a]), 16)];
    var x := x[c := Plus(x[c], x[d])];
    var x := x[b := Rol32(Mix(x[b], x[c]), 12)];
    var x := x[a := Plus(x[a], x[b])];
    var x := x[d := Rol32(Mix(x[d], x[a]), 8)];
    var x := x[c := Plus(x[c], x[d])];
    x[b := Rol32(Mix(x[b], x[c]), 7)]
  }

  lemma QuarterRoundSteps(x: State, i: nat, j: nat, k: nat, l: nat, a1: u32, d1: u32, c1: u32, b1: u32, a2: u32, d2: u32, c2: u32, b2: u32)
    requires i < 16 && j < 16 && k < 16 && l < 16 && i != j && i != k && i != l && j != k && j != l && k != l
    requires Plus(x[i], x[j]) == a1 && Rol32(Mix(x[l], a1), 16) == d1
    requires Plus(x[k], d1) == c1 && Rol32(Mix(x[j], c1), 12) == b1
    requires Plus(a1, b1) == a2 && Rol32(Mix(d1, a2), 8) == d2
    requires Plus(c1, d2) == c2 && Rol32(Mix(b1, c2), 7) == b2
    ensures QuarterRound(x, i, j, k, l) == x[i := a2][j := b2][k := c2][l := d2]
  {
    hide Plus;
    hide Mix;
    hide Rol32;
    var x1 := x[i := a1];
    var x2 := x1[l := d1];
    var x3 := x2[k := c1];
    var x4 := x3[j := b1];
    var x5 := x4[i := a2];
    var x6 := x5[l := d2];
    var x7 := x6[k := c2];
    assert QuarterRound(x, i, j, k, l) == x7[j := b2];
  }

  /**
   * The quarter round on 32-bit machine words: eight equations, each of an addition, or of an exclusive or and a rotation
   * written as two shifts.
   */
  lemma QuarterRoundIs(x: State, i: nat, j: nat, k: nat, l: nat, a: bv32, b: bv32, c: bv32, d: bv32,
      a1: bv32, d1: bv32, c1: bv32, b1: bv32, a2: bv32, d2: bv32, c2: bv32, b2: bv32)
    requires i < 16 && j < 16 && k < 16 && l < 16 && i != j && i != k && i != l && j != k && j != l && k != l
    requires x[i] == Word(a) && x[j] == Word(b) && x[k] == Word(c) && x[l] == Word(d)
    requires a1 == a + b && d1 == ((d ^ a1) << 16) | ((d ^ a1) >> 16)
    requires c1 == c + d1 && b1 == ((b ^ c1) << 12) | ((b ^ c1) >> 20)
    requires a2 == a1 + b1 && d2 == ((d1 ^ a2) << 8) | ((d1 ^ a2) >> 24)
    requires c2 == c1 + d2 && b2 == ((b1 ^ c2) << 7) | ((b1 ^ c2) >> 25)
    ensures QuarterRound(x, i, j, k, l) == x[i := Word(a2)][j := Word(b2)][k := Word(c2)][l := Word(d2)]
  {
    hide Word;
    hide Plus;
    hide Mix;
    hide Rol32;
    hide QuarterRound;
    Added(a, b, a1);
    Turned16(d, a1, d1);
    Added(c, d1, c1);
    Turned12(b, c1, b1);
    Added(a1, b1, a2);
    Turned8(d1, a2, d2);
    Added(c1, d2, c2);
    Turned7(b1, c2, b2);
    QuarterRoundSteps(x, i, j, k, l, Word(a1), Word(d1), Word(c1), Word(b1), Word(a2), Word(d2), Word(c2), Word(b2));
  }

  lemma Added(x: bv32, y: bv32, z: bv32)
    requires z == x + y
    ensures Plus(Word(x), Word(y)) == Word(z)
  {
    hide Word;
    WordOfSum(x, y);
  }

  lemma Turned16(x: bv32, y: bv32, z: bv32)
    requires z == ((x ^ y) << 16) | ((x ^ y) >> 16)
    ensures Rol32(Mix(Word(x), Word(y)), 16) == Word(z)
  {
    hide Word;
    hide Xor;
    hide Rol32;
    WordOfXor(x, y);
    Rotated16(x ^ y);
  }

  lemma Turned12(x: bv32, y: bv32, z: bv32)
    requires z == ((x ^ y) << 12) | ((x ^ y) >> 20)
    ensures Rol32(Mix(Word(x), Word(y)), 12) == Word(z)
  {
    hide Word;
    hide Xor;
    hide Rol32;
    WordOfXor(x, y);
    Rotated12(x ^ y);
  }

  lemma Turned8(x: bv32, y: bv32, z: bv32)
    requires z == ((x ^ y) << 8) | ((x ^ y) >> 24)
    ensures Rol32(Mix(Word(x), Word(y)), 8) == Word(z)
  {
    hide Word;
    hide Xor;
    hide Rol32;
    WordOfXor(x, y);
    Rotated8(x ^ y);
  }

  lemma Turned7(x: bv32, y: bv32, z: bv32)
    requires z == ((x ^ y) << 7) | ((x ^ y) >> 25)
    ensures Rol32(Mix(Word(x), Word(y)), 7) == Word(z)
  {
    hide Word;
    hide Xor;
    hide Rol32;
    WordOfXor(x, y);
    Rotated7(x ^ y);
  }

  /** The quarter round of section 2.1.1 of RFC 7539. */
  lemma QuarterRoundVector(x: State, i: nat, j: nat, k: nat, l: nat)
    requires i < 16 && j < 16 && k < 16 && l < 16 && i != j && i != k && i != l && j != k && j != l && k != l
    requires x[i] == 0x1111_1111 && x[j] == 0x0102_0304 && x[k] == 0x9b8d_6f43 && x[l] == 0x0123_4567
    ensures QuarterRound(x, i, j, k, l) == x[i := 0xea2a_92f4][j := 0xcb1c_f8ce][k := 0x4581_472e][l := 0x5881_c4bb]
  {
    hide Word;
    hide QuarterRound;
    VectorInput();
    VectorOutput();
    QuarterRoundIs(x, i, j, k, l, 0x1111_1111, 0x0102_0304, 0x9b8d_6f43, 0x0123_4567,
                   0x1213_1415, 0x5172_1330, 0xecff_8273, 0xd817_7edf, 0xea2a_92f4, 0x5881_c4bb, 0x4581_472e, 0xcb1c_f8ce);
  }

  lemma VectorInput()
    ensures Word(0x1111_1111) == 0x1111_1111 && Word(0x0102_0304) == 0x0102_0304
    ensures Word(0x9b8d_6f43) == 0x9b8d_6f43 && Word(0x0123_4567) == 0x0123_4567
  {
    hide Word;
    WordByDigits(0x1111_1111);
    WordByDigits(0x0102_0304);
    WordByDigits(0x9b8d_6f43);
    WordByDigits(0x0123_4567);
  }

  lemma VectorOutput()
    ensures Word(0xea2a_92f4) == 0xea2a_92f4 && Word(0xcb1c_f8ce) == 0xcb1c_f8ce
    ensures Word(0x4581_472e) == 0x4581_472e && Word(0x5881_c4bb) == 0x5881_c4bb
  {
    hide Word;
    WordByDigits(0xea2a_92f4);
    WordByDigits(0xcb1c_f8ce);
    WordByDigits(0x4581_472e);
    WordByDigits(0x5881_c4bb);
  }

  function DoubleRound(x: State): State {
    var x := QuarterRound(x, 0, 4, 8, 12);
    var x := QuarterRound(x, 1, 5, 9, 13);
    var x := QuarterRound(x, 2, 6, 10, 14);
    var x := QuarterRound(x, 3, 7, 11, 15);
    var x := QuarterRound(x, 0, 5, 10, 15);
    var x := QuarterRound(x, 1, 6, 11, 12);
    var x := QuarterRound(x, 2, 7, 8, 13);
    QuarterRound(x, 3, 4, 9, 14)
  }

  /** The first n columns of the four by four words. */
  function Columns(x: State, n: nat): State
    requires n <= 4
    decreases n
  {
    if n == 0 then x else var c := n - 1; QuarterRound(Columns(x, c), c, 4 + c, 8 + c, 12 + c)
  }

  /** The first n diagonals, which move to the right by one word from row to row. */
  function Diagonals(x: State, n: nat): State
    requires n <= 4
    decreases n
  {
    if n == 0 then x else var c := n - 1; QuarterRound(Diagonals(x, c), c, 4 + (c + 1) % 4, 8 + (c + 2) % 4, 12 + (c + 3) % 4)
  }

  /** A double round is a round of the columns and a round of the diagonals. */
  lemma DoubleRoundIs(x: State)
    ensures DoubleRound(x) == Diagonals(Columns(x, 4), 4)
  {
    hide QuarterRound;
    var y := Columns(x, 4);
    assert y == QuarterRound(QuarterRound(QuarterRound(QuarterRound(x, 0, 4, 8, 12), 1, 5, 9, 13), 2, 6, 10, 14), 3, 7, 11, 15);
  }

  function Rounds(x: State, n: nat): State
    decreases n, x
  {
    if n == 0 then x else DoubleRound(Rounds(x, n - 1))
  }

  function Bytes(w: seq<u32>): (b: seq<byte>)
    ensures |b| == 4 * |w|
  {
    if w == [] then [] else LittleEndianBytes(w[0], 4) + Bytes(w[1..])
  }

  function WordsOf(b: seq<byte>): (w: seq<u32>)
    requires |b| % 4 == 0
    ensures |w| == |b| / 4
  {
    if b == [] then [] else
      LittleEndianBound(b[..4]);
      Pow256Words();
      [LittleEndian(b[..4])] + WordsOf(b[4..])
  }

  /** Words are read with their least significant byte first. */
  lemma {:induction false} WordsOfIs(b: seq<byte>, i: nat)
    requires |b| % 4 == 0 && i < |b| / 4
    ensures WordsOf(b)[i] == b[4 * i] as int + 0x100 * b[4 * i + 1] as int + 0x1_0000 * b[4 * i + 2] as int + 0x100_0000 * b[4 * i + 3] as int
  {
    if i == 0 {
      FourBytes(b[..4]);
    } else {
      WordsOfIs(b[4..], i - 1);
    }
  }

  lemma FourBytes(b: seq<byte>)
    requires |b| == 4
    ensures LittleEndian(b) == b[0] as int + 0x100 * b[1] as int + 0x1_0000 * b[2] as int + 0x100_0000 * b[3] as int
  {
    var c, d, e := b[1..], b[2..], b[3..];
    assert c[1..] == d && d[1..] == e && e[1..] == [];
    assert LittleEndian(e) == b[3];
    assert LittleEndian(c) == c[0] + 256 * LittleEndian(d);
  }

  /** And written so. */
  lemma {:induction false} BytesIs(w: seq<u32>, i: nat)
    requires i < |w|
    ensures Bytes(w)[4 * i] == w[i] % 0x100 && Bytes(w)[4 * i + 1] == w[i] / 0x100 % 0x100
    ensures Bytes(w)[4 * i + 2] == w[i] / 0x1_0000 % 0x100 && Bytes(w)[4 * i + 3] == w[i] / 0x100_0000
  {
    if i == 0 {
      BytesOfWord(w[0]);
    } else {
      BytesIs(w[1..], i - 1);
    }
  }

  lemma BytesOfWord(x: u32)
    ensures var b := LittleEndianBytes(x, 4);
            && b[0] == x % 0x100 && b[1] == x / 0x100 % 0x100
            && b[2] == x / 0x1_0000 % 0x100 && b[3] == x / 0x100_0000
  {
    var y, z, t := x / 0x100, x / 0x1_0000, x / 0x100_0000;
    assert y / 0x100 == z && z / 0x100 == t;
    assert LittleEndianBytes(x, 4) == [x % 0x100] + LittleEndianBytes(y, 3);
    assert LittleEndianBytes(y, 3) == [y % 0x100] + LittleEndianBytes(z, 2);
    assert LittleEndianBytes(z, 2) == [z % 0x100] + LittleEndianBytes(t, 1);
    assert LittleEndianBytes(t, 1) == [t % 0x100];
  }

  /** The block function: 20 rounds, the input added back, serialized. */
  function Block(s: State): (b: seq<byte>)
    ensures |b| == 64
  {
    var x := Rounds(s, 10);
    Bytes(seq(16, i requires 0 <= i < 16 => Plus(s[i], x[i])))
  }

  /** The state of section 2.3 of RFC 7539: constants, key, 32-bit block counter, 96-bit nonce. */
  function Rfc7539State(key: seq<byte>, counter: u32, nonce: seq<byte>): State
    requires |key| == 32 && |nonce| == 12
  {
    WordsOf(SIGMA) + WordsOf(key) + [counter] + WordsOf(nonce)
  }

  /** The state the source sets up for the n-th block of a 64-bit counter. */
  function StateAt(key: seq<byte>, iv: seq<byte>, counter: u64): State
    requires |key| == 32 && |iv| == 8
  {
    WordsOf(SIGMA) + WordsOf(key) + [counter % W32, counter / W32] + WordsOf(iv)
  }

  /** Byte i of the key stream that starts at the given block. */
  function KeyByte(key: seq<byte>, iv: seq<byte>, counter: u64, i: nat): byte
    requires |key| == 32 && |iv| == 8
  {
    Block(StateAt(key, iv, (counter + i / 64) % W64))[i % 64]
  }

  /** One byte of data under one byte of key stream. */
  function Cover(x: byte, k: byte): byte {
    XorFits(x, k);
    Xor(x, k)
  }

  /** Covering is exclusive or, bit by bit. */
  lemma CoverIs(a: bv32, b: bv32)
    ensures Cover(LowByte(a), LowByte(b)) == LowByte(a ^ b)
  {
    hide Number;
    XorBits(a, b, 8);
  }

  lemma UncoverCovered(x: byte, k: byte)
    ensures Cover(Cover(x, k), k) == x
  {
    XorCancels(x, k);
  }

  /** The increment of words 12 and 13 is that of one 64-bit counter, which may wrap. */
  lemma CounterStep(key: seq<byte>, iv: seq<byte>, c: u64)
    requires |key| == 32 && |iv| == 8
    ensures var s := StateAt(key, iv, c);
            var t := s[12 := Plus(s[12], 1)];
            StateAt(key, iv, (c + 1) % W64) == if t[12] == 0 then t[13 := Plus(t[13], 1)] else t
  {
    CounterCarry(c);
  }

  lemma CounterCarry(c: u64)
    ensures (c + 1) % W64 % W32 == (c % W32 + 1) % W32
    ensures (c + 1) % W64 / W32 == if (c % W32 + 1) % W32 == 0 then (c / W32 + 1) % W32 else c / W32
  {
  }

  /** data under the key stream that starts at the given block. */
  function Covered(data: seq<byte>, key: seq<byte>, iv: seq<byte>, counter: u64): (out: seq<byte>)
    requires |key| == 32 && |iv| == 8
    ensures |out| == |data|
  {
    seq(|data|, i requires 0 <= i < |data| => Cover(data[i], KeyByte(key, iv, counter, i)))
  }

  /** Byte i is covered with byte i % 64 of block i / 64; the counter is in words 12 and 13, before the nonce. */
  lemma CoveredAt(data: seq<byte>, key: seq<byte>, iv: seq<byte>, counter: u64, i: nat)
    requires |key| == 32 && |iv| == 8 && i < |data|
    ensures var c := (counter + i / 64) % 0x1_0000_0000_0000_0000;
            var s := WordsOf(SIGMA) + WordsOf(key) + [c % 0x1_0000_0000, c / 0x1_0000_0000] + WordsOf(iv);
            Covered(data, key, iv, counter)[i] == Cover(data[i], Block(s)[i % 64])
  {
    hide Block;
    hide Cover;
    hide WordsOf;
  }

  /** A stream cipher is its own inverse. */
  lemma CoveredTwice(data: seq<byte>, key: seq<byte>, iv: seq<byte>, counter: u64)
    requires |key| == 32 && |iv| == 8
    ensures Covered(Covered(data, key, iv, counter), key, iv, counter) == data
  {
    forall i | 0 <= i < |data|
      ensures Covered(Covered(data, key, iv, counter), key, iv, counter)[i] == data[i]
    {
      UncoverCovered(data[i], KeyByte(key, iv, counter, i));
    }
  }

  lemma CoveredNext(data: seq<byte>, key: seq<byte>, iv: seq<byte>, counter: u64, i: nat, n: nat, b: seq<byte>)
    requires |key| == 32 && |iv| == 8 && i < |data|
    requires n == i / 64 + 1 && b == Block(StateAt(key, iv, (counter + (n - 1)) % W64))
    ensures Covered(data[..i + 1], key, iv, counter) == Covered(data[..i], key, iv, counter) + [Cover(data[i], b[i % 64])]
  {
    hide Block;
    hide StateAt;
    assert b[i % 64] == KeyByte(key, iv, counter, i);
  }

  method TwentyRounds(s: State) returns (x: State)
    ensures x == Rounds(s, 10)
  {
    x := s;
    var j := 0;
    while j < 10
      invariant j <= 10 && x == Rounds(s, j)
    {
      x := DoubleRound(x);
      j := j + 1;
    }
  }

  /** The next 64 bytes of key stream, and the state with its counter moved on. */
  method NextBlock(s: State, ghost key: seq<byte>, ghost iv: seq<byte>, ghost c: u64) returns (b: seq<byte>, t: State)
    requires |key| == 32 && |iv| == 8 && s == StateAt(key, iv, c)
    ensures b == Block(s) && t == StateAt(key, iv, (c + 1) % W64)
  {
    hide Rounds;
    hide Bytes;
    hide WordsOf;
    var x := TwentyRounds(s);
    b := Bytes(seq(16, i requires 0 <= i < 16 => Plus(s[i], x[i])));
    CounterStep(key, iv, c);
    t := s[12 := Plus(s[12], 1)];
    if t[12] == 0 {
      t := t[13 := Plus(t[13], 1)];
    }
  }

  lemma CounterAdds(c: nat, n: nat)
    ensures ((c + n) % W64 + 1) % W64 == (c + (n + 1)) % W64
  {
  }

  lemma NextIndex(i: nat)
    ensures (i + 1) % 64 == (if i % 64 == 63 then 0 else i % 64 + 1)
    ensures (i + 1) / 64 == (if i % 64 == 63 then i / 64 + 1 else i / 64)
  {
  }

  /** BRChacha20: out may be data itself. */
  method Encrypt(out: array<byte>, key: seq<byte>, iv: seq<byte>, data: array<byte>, len: nat, counter: u64)
    requires |key| == 32 && |iv| == 8 && len <= out.Length && len <= data.Length
    modifies out
    ensures out[..len] == Covered(old(data[..len]), key, iv, counter)
    ensures out[len..] == old(out[len..])
  {
    hide Block;
    hide Covered;
    hide StateAt;
    hide Cover;
    ghost var d := data[..];
    var s: State := StateAt(key, iv, counter);
    var b: seq<byte> := [];
    var i := 0;
    ghost var n := 0;
    while i < len
      invariant i <= len && (if i % 64 == 0 then n == i / 64 else n == i / 64 + 1 && |b| == 64)
      invariant s == StateAt(key, iv, (counter + n) % W64)
      invariant i % 64 != 0 ==> b == Block(StateAt(key, iv, (counter + (n - 1)) % W64))
      invariant out[..i] == Covered(d[..i], key, iv, counter)
      invariant out[i..] == old(out[i..])
      invariant data[i..] == d[i..]
    {
      if i % 64 == 0 {
        CounterAdds(counter, n);
        b, s := NextBlock(s, key, iv, (counter + n) % W64);
        n := n + 1;
      }
      CoveredNext(d, key, iv, counter, i, n, b);
      assert data[i] == data[i..][0] == d[i];
      out[i] := Cover(data[i], b[i % 64]);
      NextIndex(i);
      assert out[..i + 1] == out[..i] + [out[i]];
      assert out[i + 1..] == out[i..][1..] == old(out[i + 1..]);
      assert data[i + 1..] == data[i..][1..] == d[i + 1..];
      i := i + 1;
    }
    assert d[..len] == old(data[..len]);
  }
}

/**
 The one-time authenticator of Modules/core/BRCrypto.c: arithmetic modulo 2^130 - 5 in five 26-bit limbs
 with partial carries.  The specification is section 2.5 of RFC 7539.
 */
module Poly1305 {
  import opened Words

  const P: nat := 0x3_ffff_ffff_ffff_ffff_ffff_ffff_ffff_fffb
  const CLAMP: nat := 0x0fff_fffc_0fff_fffc_0fff_fffc_0fff_ffff
  const W128: nat := 0x1_0000_0000_0000_0000_0000_0000_0000_0000

  // ---------- section 2.5 of RFC 7539 ----------

  /** One block as a number: its bytes, little-endian, with one more bit past the last byte. */
  function BlockValue(b: seq<byte>): nat {
    LittleEndian(b + [1])
  }

  /** The accumulator after the message, taken in blocks of 16 bytes. */
  function Absorb(acc: nat, r: nat, msg: seq<byte>): nat
    decreases |msg|
  {
    if msg == [] then acc
    else
      var n := if |msg| < 16 then |msg| else 16;
      Absorb(((acc + BlockValue(msg[..n])) * r) % P, r, msg[n..])
  }

  function ClampedR(key: seq<byte>): nat
    requires |key| == 32
  {
    And(LittleEndian(key[..16]), CLAMP)
  }

  /** Byte i of the clamped key: bytes 3, 7, 11 and 15 lose their top four bits, bytes 4, 8 and 12 their lowest two. */
  function ClampedByte(key: seq<byte>, i: nat): byte
    requires |key| == 32 && i < 16
  {
    if i % 4 == 3 then key[i] % 16 else if i % 4 == 0 && i > 0 then key[i] / 4 * 4 else key[i]
  }

  lemma ClampIs(key: seq<byte>)
    requires |key| == 32
    ensures ClampedR(key) == LittleEndian(seq(16, i requires 0 <= i < 16 => ClampedByte(key, i)))
  {
    hide And;
    hide LittleEndian;
    var mask: seq<byte> := [0xff, 0xff, 0xff, 0x0f, 0xfc, 0xff, 0xff, 0x0f, 0xfc, 0xff, 0xff, 0x0f, 0xfc, 0xff, 0xff, 0x0f];
    ClampBytes(mask);
    AndOfBytes(key[..16], mask);
    forall i | 0 <= i < 16
      ensures And(key[i], mask[i]) == ClampedByte(key, i)
    {
      ByteMasks(key[i]);
    }
    assert AndEach(key[..16], mask) == seq(16, i requires 0 <= i < 16 => ClampedByte(key, i));
  }

  function AndEach(x: seq<byte>, m: seq<byte>): seq<byte>
    requires |x| == |m|
  {
    seq(|x|, i requires 0 <= i < |x| => AndByte(x[i], m[i]))
  }

  function AndByte(x: byte, m: byte): byte {
    AndBound(x, m);
    And(x, m)
  }

  lemma {:induction false} AndOfBytes(x: seq<byte>, m: seq<byte>)
    requires |x| == |m|
    ensures And(LittleEndian(x), LittleEndian(m)) == LittleEndian(AndEach(x, m))
  {
    hide And;
    if x != [] {
      AndOfBytes(x[1..], m[1..]);
      assert AndEach(x, m)[1..] == AndEach(x[1..], m[1..]);
      AndJoined(x[0], LittleEndian(x[1..]), m[0], LittleEndian(m[1..]));
    } else {
      AndZero(0);
    }
  }

  lemma AndJoined(a: byte, b: nat, c: byte, d: nat)
    ensures And(a + 256 * b, c + 256 * d) == And(a, c) + 256 * And(b, d)
  {
    hide And;
    Pow2Words();
    ShlIsProduct(b, 8);
    ShlIsProduct(d, 8);
    ShlIsProduct(And(b, d), 8);
    AndSplit(a + 256 * b, c + 256 * d, a, b, c, d, 8);
  }

  lemma ClampBytes(mask: seq<byte>)
    requires mask == [0xff, 0xff, 0xff, 0x0f, 0xfc, 0xff, 0xff, 0x0f, 0xfc, 0xff, 0xff, 0x0f, 0xfc, 0xff, 0xff, 0x0f]
    ensures LittleEndian(mask) == CLAMP
  {
    hide LittleEndian;
    NoBytes(mask[16..]);
    LastBytes(mask, 15, 0x0f, 0x0);
    LastBytes(mask, 14, 0xfff, 0xf);
    LastBytes(mask, 13, 0xfffff, 0xfff);
    LastBytes(mask, 12, 0xffffffc, 0xfffff);
    LastBytes(mask, 11, 0xffffffc0f, 0xffffffc);
    LastBytes(mask, 10, 0xffffffc0fff, 0xffffffc0f);
    LastBytes(mask, 9, 0xffffffc0fffff, 0xffffffc0fff);
    LastBytes(mask, 8, 0xffffffc0ffffffc, 0xffffffc0fffff);
    LastBytes(mask, 7, 0xffffffc0ffffffc0f, 0xffffffc0ffffffc);
    LastBytes(mask, 6, 0xffffffc0ffffffc0fff, 0xffffffc0ffffffc0f);
    LastBytes(mask, 5, 0xffffffc0ffffffc0fffff, 0xffffffc0ffffffc0fff);
    LastBytes(mask, 4, 0xffffffc0ffffffc0ffffffc, 0xffffffc0ffffffc0fffff);
    LastBytes(mask, 3, 0xffffffc0ffffffc0ffffffc0f, 0xffffffc0ffffffc0ffffffc);
    LastBytes(mask, 2, 0xffffffc0ffffffc0ffffffc0fff, 0xffffffc0ffffffc0ffffffc0f);
    LastBytes(mask, 1, 0xffffffc0ffffffc0ffffffc0fffff, 0xffffffc0ffffffc0ffffffc0fff);
    LastBytes(mask, 0, 0xffffffc0ffffffc0ffffffc0fffffff, 0xffffffc0ffffffc0ffffffc0fffff);
    assert mask[0..] == mask;
  }

  lemma NoBytes(s: seq<byte>)
    requires s == []
    ensures LittleEndian(s) == 0
  {
  }

  lemma LastBytes(s: seq<byte>, k: nat, v: nat, w: nat)
    requires k < |s| && LittleEndian(s[k + 1..]) == w && v == s[k] + 256 * w
    ensures LittleEndian(s[k..]) == v
  {
    assert s[k..][1..] == s[k + 1..];
  }

  lemma ByteMasks(x: byte)
    ensures And(x, 0xff) == x && And(x, 0x0f) == x % 16 && And(x, 0xfc) == x / 4 * 4
  {
    LowMasks(x);
    HighMask(x);
  }

  lemma LowMasks(x: byte)
    ensures And(x, 0xff) == x && And(x, 0x0f) == x % 16
  {
    hide And;
    hide Low;
    hide Shr;
    hide Pow2;
    SmallPowers();
    AndMask(x, 8);
    ShrIsDivision(x, 8);
    AndMask(x, 4);
    ShrIsDivision(x, 4);
  }

  lemma HighMask(x: byte)
    ensures And(x, 0xfc) == x / 4 * 4
  {
    hide And;
    hide Low;
    hide Shr;
    hide Shl;
    hide Pow2;
    SmallPowers();
    AndMask(x / 4, 6);
    ShrIsDivision(x / 4, 6);
    ShlIsProduct(x / 4, 2);
    ShlIsProduct(0x3f, 2);
    ShlIsProduct(And(x / 4, 0x3f), 2);
    AndSplit(x, 0xfc, x % 4, x / 4, 0, 0x3f, 2);
    AndZero(x % 4);
  }

  lemma SmallPowers()
    ensures Pow2(2) == 4 && Pow2(4) == 16 && Pow2(6) == 64 && Pow2(8) == 256
  {
  }

  /** What the accumulator acc yields under the second half of the key. */
  function TagOf(acc: nat, key: seq<byte>): (tag: seq<byte>)
    requires |key| == 32
    ensures |tag| == 16
  {
    LittleEndianBytes((acc + LittleEndian(key[16..])) % W128, 16)
  }

  function Tag(key: seq<byte>, msg: seq<byte>): (tag: seq<byte>)
    requires |key| == 32
    ensures |tag| == 16
  {
    TagOf(Absorb(0, ClampedR(key), msg), key)
  }

  // ---------- arithmetic modulo P ----------

  lemma MulSplit(u: nat, m: nat, q: nat, r: nat)
    ensures (u + m * q) * r == u * r + m * (q * r)
  {
    assert (u + m * q) * r == u * r + (m * q) * r;
    assert (m * q) * r == m * (q * r);
  }

  lemma ModOfFactor(a: nat, n: nat, r: nat, m: nat)
    requires m > 0
    ensures ((a % m + n) * r) % m == ((a + n) * r) % m
  {
    ModOfParts(a / m, a % m, n, r, m);
    Apart(a, m);
  }

  lemma Apart(a: nat, m: nat)
    requires m > 0
    ensures a == a % m + m * (a / m)
  {
  }

  lemma ModOfParts(q: nat, a: nat, n: nat, r: nat, m: nat)
    requires m > 0
    ensures ((a + n) * r) % m == ((a + m * q + n) * r) % m
  {
    MulSplit(a + n, m, q, r);
    ModPlusMultiple((a + n) * r, m, q * r);
  }

  lemma {:induction false} AbsorbReduces(acc: nat, r: nat, msg: seq<byte>)
    ensures acc < P ==> Absorb(acc, r, msg) < P
    ensures msg != [] ==> Absorb(acc % P, r, msg) == Absorb(acc, r, msg)
    decreases |msg|
  {
    if msg != [] {
      var n := if |msg| < 16 then |msg| else 16;
      ModOfFactor(acc, BlockValue(msg[..n]), r, P);
      AbsorbReduces(((acc + BlockValue(msg[..n])) * r) % P, r, msg[n..]);
    }
  }

  /** Absorbing whole blocks and then the rest is absorbing it all: what split calls rely on. */
  lemma {:induction false} AbsorbAppend(acc: nat, r: nat, a: seq<byte>, b: seq<byte>)
    requires |a| % 16 == 0
    ensures Absorb(acc, r, a + b) == Absorb(Absorb(acc, r, a), r, b)
    decreases |a|
  {
    if a == [] {
      assert a + b == b;
    } else {
      assert (a + b)[..16] == a[..16] && (a + b)[16..] == a[16..] + b;
      AbsorbAppend(((acc + BlockValue(a[..16])) * r) % P, r, a[16..], b);
    }
  }

  // ---------- limbs ----------

  const B: nat := 0x400_0000
  const B2: nat := 0x10_0000_0000_0000
  const B3: nat := 0x4000_0000_0000_0000_0000
  const B4: nat := 0x100_0000_0000_0000_0000_0000_0000

  datatype Limbs = Limbs(l0: u32, l1: u32, l2: u32, l3: u32, l4: u32)

  function Value(h: Limbs): nat {
    h.l0 + h.l1 * B + h.l2 * B2 + h.l3 * B3 + h.l4 * B4
  }

  /** The limbs between blocks: one carry has not been taken in yet. */
  predicate Loose(h: Limbs) {
    h.l0 < B && h.l1 < B + 64 && h.l2 < B && h.l3 < B && h.l4 < B
  }

  /** The limbs after a block was added. */
  predicate Summed(h: Limbs) {
    h.l0 < 2 * B && h.l1 < 2 * B + 64 && h.l2 < 2 * B && h.l3 < 2 * B && h.l4 < 2 * B
  }

  predicate Tight(h: Limbs) {
    h.l0 < B && h.l1 < B && h.l2 < B && h.l3 < B && h.l4 < B
  }

  predicate Clamped(r: Limbs) {
    Tight(r) && r.l4 < 0x10_0000
  }

  lemma Constants()
    ensures B == Pow2(26) && B2 == B * B && B3 == B2 * B && B4 == B3 * B && B4 * B == P + 5
    ensures Pow2(6) == 0x40 && Pow2(12) == 0x1000 && Pow2(18) == 0x4_0000 && Pow2(8) == 0x100
    ensures Pow2(14) == 0x4000 && Pow2(20) == 0x10_0000 && Pow2(32) == W32 && Pow2(24) == 0x100_0000
  {
  }

  // ---------- multiplication ----------

  lemma Row(h: Limbs, x: nat)
    ensures Value(h) * x == h.l0 * x + (h.l1 * x) * B + (h.l2 * x) * B2 + (h.l3 * x) * B3 + (h.l4 * x) * B4
  {
    Distribute(h.l0, h.l1 * B, x);
    Distribute(h.l0 + h.l1 * B, h.l2 * B2, x);
    Distribute(h.l0 + h.l1 * B + h.l2 * B2, h.l3 * B3, x);
    Distribute(h.l0 + h.l1 * B + h.l2 * B2 + h.l3 * B3, h.l4 * B4, x);
    Reorder(h.l1, B, x);
    Reorder(h.l2, B2, x);
    Reorder(h.l3, B3, x);
    Reorder(h.l4, B4, x);
  }

  lemma Distribute(a: nat, b: nat, x: nat)
    ensures (a + b) * x == a * x + b * x
  {
  }

  lemma Reorder(a: nat, b: nat, x: nat)
    ensures (a * b) * x == (a * x) * b
  {
  }

  lemma Product(h: Limbs, r: Limbs)
    ensures Value(h) * Value(r) ==
            Value(h) * r.l0 + (Value(h) * r.l1) * B + (Value(h) * r.l2) * B2 + (Value(h) * r.l3) * B3 + (Value(h) * r.l4) * B4
  {
    Row(r, Value(h));
  }

  /** The five column sums of the product, with the columns past the fifth folded back five times. */
  datatype Columns = Columns(d0: nat, d1: nat, d2: nat, d3: nat, d4: nat)

  /** (uint64_t)x*y */
  function Times(x: u32, y: u32): nat {
    x * y
  }

  function ColumnsOf(h: Limbs, r: Limbs): Columns {
    Columns(
      Times(h.l0, r.l0) + Times(h.l1, r.l4) * 5 + Times(h.l2, r.l3) * 5 + Times(h.l3, r.l2) * 5 + Times(h.l4, r.l1) * 5,
      Times(h.l0, r.l1) + Times(h.l1, r.l0) + Times(h.l2, r.l4) * 5 + Times(h.l3, r.l3) * 5 + Times(h.l4, r.l2) * 5,
      Times(h.l0, r.l2) + Times(h.l1, r.l1) + Times(h.l2, r.l0) + Times(h.l3, r.l4) * 5 + Times(h.l4, r.l3) * 5,
      Times(h.l0, r.l3) + Times(h.l1, r.l2) + Times(h.l2, r.l1) + Times(h.l3, r.l0) + Times(h.l4, r.l4) * 5,
      Times(h.l0, r.l4) + Times(h.l1, r.l3) + Times(h.l2, r.l2) + Times(h.l3, r.l1) + Times(h.l4, r.l0))
  }

  function ColumnValue(d: Columns): nat {
    d.d0 + d.d1 * B + d.d2 * B2 + d.d3 * B3 + d.d4 * B4
  }

  /** The columns that were folded back. */
  function Overflowed(h: Limbs, r: Limbs): nat {
    (Times(h.l1, r.l4) + Times(h.l2, r.l3) + Times(h.l3, r.l2) + Times(h.l4, r.l1))
    + (Times(h.l2, r.l4) + Times(h.l3, r.l3) + Times(h.l4, r.l2)) * B
    + (Times(h.l3, r.l4) + Times(h.l4, r.l3)) * B2
    + (Times(h.l4, r.l4)) * B3
  }

  lemma RowTimes(h: Limbs, x: u32)
    ensures Value(h) * x == Times(h.l0, x) + Times(h.l1, x) * B + Times(h.l2, x) * B2 + Times(h.l3, x) * B3 + Times(h.l4, x) * B4
  {
    Row(h, x);
  }

  lemma ProductExpanded(h: Limbs, r: Limbs)
    ensures
      Value(h) * Value(r) ==
      (Times(h.l0, r.l0) + Times(h.l1, r.l0) * B + Times(h.l2, r.l0) * B2 + Times(h.l3, r.l0) * B3 + Times(h.l4, r.l0) * B4)
      + (Times(h.l0, r.l1) + Times(h.l1, r.l1) * B + Times(h.l2, r.l1) * B2 + Times(h.l3, r.l1) * B3 + Times(h.l4, r.l1) * B4) * B
      + (Times(h.l0, r.l2) + Times(h.l1, r.l2) * B + Times(h.l2, r.l2) * B2 + Times(h.l3, r.l2) * B3 + Times(h.l4, r.l2) * B4) * B2
      + (Times(h.l0, r.l3) + Times(h.l1, r.l3) * B + Times(h.l2, r.l3) * B2 + Times(h.l3, r.l3) * B3 + Times(h.l4, r.l3) * B4) * B3
      + (Times(h.l0, r.l4) + Times(h.l1, r.l4) * B + Times(h.l2, r.l4) * B2 + Times(h.l3, r.l4) * B3 + Times(h.l4, r.l4) * B4) * B4
  {
    Product(h, r);
    RowTimes(h, r.l0);
    RowTimes(h, r.l1);
    RowTimes(h, r.l2);
    RowTimes(h, r.l3);
    RowTimes(h, r.l4);
  }

  lemma ColumnsAreProduct(h: Limbs, r: Limbs)
    ensures Value(h) * Value(r) == ColumnValue(ColumnsOf(h, r)) + P * Overflowed(h, r)
  {
    ProductExpanded(h, r);
    Gather(Times(h.l0, r.l0), Times(h.l0, r.l1), Times(h.l0, r.l2), Times(h.l0, r.l3), Times(h.l0, r.l4),
           Times(h.l1, r.l0), Times(h.l1, r.l1), Times(h.l1, r.l2), Times(h.l1, r.l3), Times(h.l1, r.l4),
           Times(h.l2, r.l0), Times(h.l2, r.l1), Times(h.l2, r.l2), Times(h.l2, r.l3), Times(h.l2, r.l4),
           Times(h.l3, r.l0), Times(h.l3, r.l1), Times(h.l3, r.l2), Times(h.l3, r.l3), Times(h.l3, r.l4),
           Times(h.l4, r.l0), Times(h.l4, r.l1), Times(h.l4, r.l2), Times(h.l4, r.l3), Times(h.l4, r.l4));
  }

  lemma ColumnsCongruent(h: Limbs, r: Limbs)
    ensures ColumnValue(ColumnsOf(h, r)) % P == (Value(h) * Value(r)) % P
  {
    ColumnsAreProduct(h, r);
    ModPlusMultiple(ColumnValue(ColumnsOf(h, r)), P, Overflowed(h, r));
  }

  /** The 25 partial products, collected by weight; B^5 is P + 5. */
  lemma Gather(p00: nat, p01: nat, p02: nat, p03: nat, p04: nat, p10: nat, p11: nat, p12: nat, p13: nat, p14: nat,
               p20: nat, p21: nat, p22: nat, p23: nat, p24: nat, p30: nat, p31: nat, p32: nat, p33: nat, p34: nat,
               p40: nat, p41: nat, p42: nat, p43: nat, p44: nat)
    ensures
      (p00 + p10 * B + p20 * B2 + p30 * B3 + p40 * B4)
      + (p01 + p11 * B + p21 * B2 + p31 * B3 + p41 * B4) * B
      + (p02 + p12 * B + p22 * B2 + p32 * B3 + p42 * B4) * B2
      + (p03 + p13 * B + p23 * B2 + p33 * B3 + p43 * B4) * B3
      + (p04 + p14 * B + p24 * B2 + p34 * B3 + p44 * B4) * B4
      == (p00 + p14 * 5 + p23 * 5 + p32 * 5 + p41 * 5)
         + (p01 + p10 + p24 * 5 + p33 * 5 + p42 * 5) * B
         + (p02 + p11 + p20 + p34 * 5 + p43 * 5) * B2
         + (p03 + p12 + p21 + p30 + p44 * 5) * B3
         + (p04 + p13 + p22 + p31 + p40) * B4
         + P * ((p14 + p23 + p32 + p41) + (p24 + p33 + p42) * B + (p34 + p43) * B2 + p44 * B3)
  {
  }

  const LIMB_PRODUCT: nat := (2 * B + 64) * B

  lemma LimbProduct(a: nat, b: nat)
    requires a < 2 * B + 64
    ensures b < B ==> a * b <= LIMB_PRODUCT
    ensures b < 0x10_0000 ==> a * b <= LIMB_PRODUCT / 64
  {
    var c, d := 2 * B + 64 - a, B - b;
    assert a * b == (2 * B + 64) * b - c * b;
    assert 0 <= c * b;
  }

  lemma ColumnBounds(h: Limbs, r: Limbs)
    requires Summed(h) && Clamped(r)
    ensures var d := ColumnsOf(h, r);
            d.d0 <= 21 * LIMB_PRODUCT && d.d1 <= 21 * LIMB_PRODUCT && d.d2 <= 21 * LIMB_PRODUCT
            && d.d3 <= 21 * LIMB_PRODUCT && d.d4 <= 4 * LIMB_PRODUCT + LIMB_PRODUCT / 64
  {
    LimbProduct(h.l0, r.l0); LimbProduct(h.l0, r.l1); LimbProduct(h.l0, r.l2); LimbProduct(h.l0, r.l3); LimbProduct(h.l0, r.l4);
    LimbProduct(h.l1, r.l0); LimbProduct(h.l1, r.l1); LimbProduct(h.l1, r.l2); LimbProduct(h.l1, r.l3); LimbProduct(h.l1, r.l4);
    LimbProduct(h.l2, r.l0); LimbProduct(h.l2, r.l1); LimbProduct(h.l2, r.l2); LimbProduct(h.l2, r.l3); LimbProduct(h.l2, r.l4);
    LimbProduct(h.l3, r.l0); LimbProduct(h.l3, r.l1); LimbProduct(h.l3, r.l2); LimbProduct(h.l3, r.l3); LimbProduct(h.l3, r.l4);
    LimbProduct(h.l4, r.l0); LimbProduct(h.l4, r.l1); LimbProduct(h.l4, r.l2); LimbProduct(h.l4, r.l3); LimbProduct(h.l4, r.l4);
  }

  /** h *= r and the partial reduction: every column fits in 64 bits and every carry in 32. */
  method Multiply(h: Limbs, r: Limbs) returns (g: Limbs)
    requires Summed(h) && Clamped(r)
    ensures Loose(g) && Value(g) % P == (Value(h) * Value(r)) % P
  {
    ColumnBounds(h, r);
    var d0: u64 := Times(h.l0, r.l0) + Times(h.l1, r.l4) * 5 + Times(h.l2, r.l3) * 5 + Times(h.l3, r.l2) * 5 + Times(h.l4, r.l1) * 5;
    var d1: u64 := Times(h.l0, r.l1) + Times(h.l1, r.l0) + Times(h.l2, r.l4) * 5 + Times(h.l3, r.l3) * 5 + Times(h.l4, r.l2) * 5;
    var d2: u64 := Times(h.l0, r.l2) + Times(h.l1, r.l1) + Times(h.l2, r.l0) + Times(h.l3, r.l4) * 5 + Times(h.l4, r.l3) * 5;
    var d3: u64 := Times(h.l0, r.l3) + Times(h.l1, r.l2) + Times(h.l2, r.l1) + Times(h.l3, r.l0) + Times(h.l4, r.l4) * 5;
    var d4: u64 := Times(h.l0, r.l4) + Times(h.l1, r.l3) + Times(h.l2, r.l2) + Times(h.l3, r.l1) + Times(h.l4, r.l0);
    g := PartialCarry(d0, d1, d2, d3, d4);
    ColumnsCongruent(h, r);
  }

  method PartialCarry(d0: u64, d1: u64, d2: u64, d3: u64, d4: u64) returns (g: Limbs)
    requires d0 <= 21 * LIMB_PRODUCT && d1 <= 21 * LIMB_PRODUCT && d2 <= 21 * LIMB_PRODUCT
    requires d3 <= 21 * LIMB_PRODUCT && d4 <= 4 * LIMB_PRODUCT + LIMB_PRODUCT / 64
    ensures Loose(g) && Value(g) % P == ColumnValue(Columns(d0, d1, d2, d3, d4)) % P
  {
    var c0: u32 := d0 / B;
    var e1: u64 := d1 + c0;
    var c1: u32 := e1 / B;
    var e2: u64 := d2 + c1;
    var c2: u32 := e2 / B;
    var e3: u64 := d3 + c2;
    var c3: u32 := e3 / B;
    var e4: u64 := d4 + c3;
    var c4: u32 := e4 / B;
    var c45: u32 := c4 * 5;
    var g0: u32 := d0 % B + c45;
    var g1: u32 := e1 % B + g0 / B;
    g := Limbs(g0 % B, g1, e2 % B, e3 % B, e4 % B);
    assert Value(g) + P * c4 == ColumnValue(Columns(d0, d1, d2, d3, d4));
    ModPlusMultiple(Value(g), P, c4);
  }

  // ---------- blocks and keys as limbs ----------

  /** The i-th of the four 32-bit words of 16 bytes. */
  function Word(b: seq<byte>, i: nat): (w: u32)
    requires |b| == 16 && i < 4
  {
    WordBound(b[4 * i..4 * i + 4]);
    LittleEndian(b[4 * i..4 * i + 4])
  }

  lemma WordBound(b: seq<byte>)
    requires |b| == 4
    ensures LittleEndian(b) < W32
  {
    LittleEndianBound(b);
    assert Pow256(4) == W32;
  }

  function WordsValue(t0: u32, t1: u32, t2: u32, t3: u32): nat {
    t0 + t1 * W32 + t2 * (W32 * W32) + t3 * (W32 * W32 * W32)
  }

  lemma CutInFour(b: seq<byte>)
    requires |b| == 16
    ensures b == b[0..4] + b[4..]
    ensures b[4..] == b[4..8] + b[8..]
    ensures b[8..] == b[8..12] + b[12..16]
  {
  }

  lemma BlockWords(b: seq<byte>)
    requires |b| == 16
    ensures LittleEndian(b) == WordsValue(Word(b, 0), Word(b, 1), Word(b, 2), Word(b, 3))
  {
    CutInFour(b);
    LittleEndianAppend(b[0..4], b[4..]);
    LittleEndianAppend(b[4..8], b[8..]);
    LittleEndianAppend(b[8..12], b[12..16]);
    assert Pow256(4) == W32;
    NestedWords(LittleEndian(b), LittleEndian(b[4..]), LittleEndian(b[8..]), Word(b, 0), Word(b, 1), Word(b, 2), Word(b, 3));
  }

  lemma NestedWords(n0: nat, n1: nat, n2: nat, t0: u32, t1: u32, t2: u32, t3: u32)
    requires n0 == t0 + W32 * n1 && n1 == t1 + W32 * n2 && n2 == t2 + W32 * t3
    ensures n0 == WordsValue(t0, t1, t2, t3)
  {
  }

  /** The 26 bits that straddle two words, with more bits above them. */
  function Straddle1(t0: u32, t1: u32): nat {
    Or(Shr(t0, 26), Shl32(t1, 6))
  }

  function Straddle2(t1: u32, t2: u32): nat {
    Or(Shr(t1, 20), Shl32(t2, 12))
  }

  function Straddle3(t2: u32, t3: u32): nat {
    Or(Shr(t2, 14), Shl32(t3, 18))
  }

  lemma StraddleParts(t0: u32, t1: u32, t2: u32, t3: u32)
    ensures Straddle1(t0, t1) == t0 / B + t1 % B * 0x40
    ensures Straddle2(t1, t2) == t1 / 0x10_0000 + t2 % 0x10_0000 * 0x1000
    ensures Straddle3(t2, t3) == t2 / 0x4000 + t3 % 0x4000 * 0x4_0000
    ensures Shr(t3, 8) == t3 / 0x100
  {
    Constants();
    FunnelShiftDivided(t0, t1, 6);
    FunnelShiftDivided(t1, t2, 12);
    FunnelShiftDivided(t2, t3, 18);
    ShrIsDivision(t3, 8);
  }

  lemma CutLow1(a: nat, t: u32)
    requires a < 0x40
    ensures (a + t % B * 0x40) % B == a + t % 0x10_0000 * 0x40
  {
    var q := t / 0x10_0000 % 0x40;
    assert t % B == t % 0x10_0000 + q * 0x10_0000;
    ModPlusMultiple(a + t % 0x10_0000 * 0x40, B, q);
  }

  lemma CutLow2(a: nat, t: u32)
    requires a < 0x1000
    ensures (a + t % 0x10_0000 * 0x1000) % B == a + t % 0x4000 * 0x1000
  {
    var q := t / 0x4000 % 0x40;
    assert t % 0x10_0000 == t % 0x4000 + q * 0x4000;
    ModPlusMultiple(a + t % 0x4000 * 0x1000, B, q);
  }

  lemma CutLow3(a: nat, t: u32)
    requires a < 0x4_0000
    ensures (a + t % 0x4000 * 0x4_0000) % B == a + t % 0x100 * 0x4_0000
  {
    var q := t / 0x100 % 0x40;
    assert t % 0x4000 == t % 0x100 + q * 0x100;
    ModPlusMultiple(a + t % 0x100 * 0x4_0000, B, q);
  }

  lemma StraddleLow(t0: u32, t1: u32, t2: u32, t3: u32)
    ensures Straddle1(t0, t1) % B == t0 / B + t1 % 0x10_0000 * 0x40
    ensures Straddle2(t1, t2) % B == t1 / 0x10_0000 + t2 % 0x4000 * 0x1000
    ensures Straddle3(t2, t3) % B == t2 / 0x4000 + t3 % 0x100 * 0x4_0000
    ensures Shr(t3, 8) == t3 / 0x100
  {
    StraddleParts(t0, t1, t2, t3);
    CutLow1(t0 / B, t1);
    CutLow2(t1 / 0x10_0000, t2);
    CutLow3(t2 / 0x4000, t3);
  }

  lemma LimbSum(t0: u32, t1: u32, t2: u32, t3: u32, x1: nat, x2: nat, x3: nat)
    requires x1 == t0 / B + t1 % 0x10_0000 * 0x40 && x2 == t1 / 0x10_0000 + t2 % 0x4000 * 0x1000
    requires x3 == t2 / 0x4000 + t3 % 0x100 * 0x4_0000
    ensures WordsValue(t0, t1, t2, t3) == t0 % B + x1 * B + x2 * B2 + x3 * B3 + t3 / 0x100 * B4
  {
    assert t0 == t0 % B + t0 / B * B && t1 == t1 % 0x10_0000 + t1 / 0x10_0000 * 0x10_0000;
    assert t2 == t2 % 0x4000 + t2 / 0x4000 * 0x4000 && t3 == t3 % 0x100 + t3 / 0x100 * 0x100;
  }

  /** Cutting four 32-bit words into five 26-bit limbs. */
  lemma WordsToLimbs(t0: u32, t1: u32, t2: u32, t3: u32)
    ensures WordsValue(t0, t1, t2, t3) ==
            t0 % B + Straddle1(t0, t1) % B * B + Straddle2(t1, t2) % B * B2 + Straddle3(t2, t3) % B * B3 + Shr(t3, 8) * B4
    ensures Shr(t3, 8) < 0x100_0000
  {
    StraddleLow(t0, t1, t2, t3);
    LimbSum(t0, t1, t2, t3, Straddle1(t0, t1) % B, Straddle2(t1, t2) % B, Straddle3(t2, t3) % B);
  }

  lemma LowBits(x: nat)
    ensures And(x, 0x03ff_ffff) == x % B
  {
    Constants();
    AndMask(x, 26);
    ShrIsDivision(x, 26);
  }

  const MASK0: nat := 0x03ff_ffff
  const MASK1: nat := 0x03ff_ff03
  const MASK2: nat := 0x03ff_c0ff
  const MASK3: nat := 0x03f0_3fff
  const MASK4: nat := 0x000f_ffff

  /** r as the code computes it from the first four words of the key. */
  function MaskedLimbs(t0: u32, t1: u32, t2: u32, t3: u32): (r: Limbs)
    ensures Clamped(r)
  {
    AndBound(t0, MASK0);
    AndBound(Straddle1(t0, t1), MASK1);
    AndBound(Straddle2(t1, t2), MASK2);
    AndBound(Straddle3(t2, t3), MASK3);
    AndBound(Shr(t3, 8), MASK4);
    Limbs(And(t0, MASK0), And(Straddle1(t0, t1), MASK1), And(Straddle2(t1, t2), MASK2),
          And(Straddle3(t2, t3), MASK3), And(Shr(t3, 8), MASK4))
  }

  /** r: the first half of the key, clamped limb by limb. */
  function KeyLimbs(key: seq<byte>): (r: Limbs)
    requires |key| == 32
    ensures Clamped(r)
  {
    var b := key[..16];
    MaskedLimbs(Word(b, 0), Word(b, 1), Word(b, 2), Word(b, 3))
  }

  /** Peeling one limb off x & m. */
  lemma AndLimb(x: nat, m: nat, a: nat, b: nat, c: nat, d: nat)
    requires a < B && c < B && x == a + b * B && m == c + d * B
    ensures And(x, m) == And(a, c) + And(b, d) * B
  {
    Constants();
    ShlIsProduct(b, 26);
    ShlIsProduct(d, 26);
    ShlIsProduct(And(b, d), 26);
    AndSplit(x, m, a, b, c, d, 26);
  }

  lemma MaskedLimb(x: nat, m: nat)
    requires m < B
    ensures And(x, m) == And(x % B, m)
  {
    Constants();
    AndLow(x, m, 26);
    ShrIsDivision(x, 26);
  }

  /** The number with the given limbs, least significant first. */
  function Number(l: seq<nat>): nat {
    if l == [] then 0 else l[0] + Number(l[1..]) * B
  }

  function Masked(l: seq<nat>, m: seq<nat>): (r: seq<nat>)
    requires |l| == |m|
  {
    seq(|l|, i requires 0 <= i < |l| => And(l[i], m[i]))
  }

  lemma {:induction false} MaskByLimbs(l: seq<nat>, m: seq<nat>)
    requires |l| == |m|
    requires forall i :: 0 <= i < |l| ==> l[i] < B && m[i] < B
    ensures And(Number(l), Number(m)) == Number(Masked(l, m))
  {
    if l != [] {
      MaskByLimbs(l[1..], m[1..]);
      assert Masked(l, m)[1..] == Masked(l[1..], m[1..]);
      AndLimb(Number(l), Number(m), l[0], Number(l[1..]), m[0], Number(m[1..]));
    }
  }

  lemma FiveLimbs(x0: nat, x1: nat, x2: nat, x3: nat, x4: nat)
    ensures Number([x0, x1, x2, x3, x4]) == x0 + x1 * B + x2 * B2 + x3 * B3 + x4 * B4
  {
    assert Number([x4]) == x4;
    assert Number([x3, x4]) == x3 + Number([x4]) * B;
    assert Number([x2, x3, x4]) == x2 + Number([x3, x4]) * B;
    assert Number([x1, x2, x3, x4]) == x1 + Number([x2, x3, x4]) * B;
    assert Number([x0, x1, x2, x3, x4]) == x0 + Number([x1, x2, x3, x4]) * B;
  }

  lemma MaskedLimbsAreClamped(t0: u32, t1: u32, t2: u32, t3: u32)
    ensures Value(MaskedLimbs(t0, t1, t2, t3)) == And(WordsValue(t0, t1, t2, t3), CLAMP)
  {
    hide And;
    hide Number;
    var l := [t0 % B, Straddle1(t0, t1) % B, Straddle2(t1, t2) % B, Straddle3(t2, t3) % B, Shr(t3, 8)];
    WordsToLimbs(t0, t1, t2, t3);
    FiveLimbs(l[0], l[1], l[2], l[3], l[4]);
    MaskedLimb(t0, MASK0);
    MaskedLimb(Straddle1(t0, t1), MASK1);
    MaskedLimb(Straddle2(t1, t2), MASK2);
    MaskedLimb(Straddle3(t2, t3), MASK3);
    ClampNumber();
    MaskLimbs(l, [MASK0, MASK1, MASK2, MASK3, MASK4], MaskedLimbs(t0, t1, t2, t3));
  }

  lemma ClampNumber()
    ensures Number([MASK0, MASK1, MASK2, MASK3, MASK4]) == CLAMP
  {
    FiveLimbs(MASK0, MASK1, MASK2, MASK3, MASK4);
  }

  lemma MaskLimbs(l: seq<nat>, m: seq<nat>, r: Limbs)
    requires |l| == |m| == 5 && forall i :: 0 <= i < 5 ==> l[i] < B && m[i] < B
    requires r.l0 == And(l[0], m[0]) && r.l1 == And(l[1], m[1]) && r.l2 == And(l[2], m[2])
    requires r.l3 == And(l[3], m[3]) && r.l4 == And(l[4], m[4])
    ensures And(Number(l), Number(m)) == Value(r)
  {
    MaskByLimbs(l, m);
    FiveLimbs(r.l0, r.l1, r.l2, r.l3, r.l4);
    assert Masked(l, m) == [r.l0, r.l1, r.l2, r.l3, r.l4];
  }

  /** Clamping limb by limb is clamping the 128-bit number, as section 2.5.1 of RFC 7539 has it. */
  lemma KeyLimbsAreClamped(key: seq<byte>)
    requires |key| == 32
    ensures Value(KeyLimbs(key)) == ClampedR(key)
  {
    var b := key[..16];
    BlockWords(b);
    MaskedLimbsAreClamped(Word(b, 0), Word(b, 1), Word(b, 2), Word(b, 3));
  }

  // ---------- adding a block ----------

  /** The 16 bytes loaded for the block at i: the message, or its rest with a 1 and zeros appended. */
  function Loaded(data: seq<byte>, i: nat): (x: seq<byte>)
    requires i < |data|
    ensures |x| == 16
  {
    if i + 16 > |data| then data[i..] + [1] + seq(16 - (|data| - i) - 1, _ => 0) else data[i..i + 16]
  }

  lemma {:induction false} Zeros(s: seq<byte>)
    requires forall k :: 0 <= k < |s| ==> s[k] == 0
    ensures LittleEndian(s) == 0
  {
    if s != [] { Zeros(s[1..]); }
  }

  lemma OneByte(b: byte)
    ensures LittleEndian([b]) == b
  {
    assert [b][1..] == [];
  }

  lemma LoadedValue(data: seq<byte>, i: nat)
    requires i < |data|
    ensures i + 16 > |data| ==> LittleEndian(Loaded(data, i)) == BlockValue(data[i..])
    ensures i + 16 <= |data| ==> LittleEndian(Loaded(data, i)) + 0x100_0000 * B4 == BlockValue(data[i..i + 16])
  {
    var x := Loaded(data, i);
    if i + 16 > |data| {
      var z := seq<byte>(16 - (|data| - i) - 1, _ => 0);
      LittleEndianAppend(data[i..] + [1], z);
      Zeros(z);
    } else {
      LittleEndianAppend(x, [1]);
      OneByte(1);
      Pow256Words();
    }
  }

  /** h += x */
  method AddBlock(h: Limbs, data: seq<byte>, i: nat) returns (g: Limbs)
    requires Loose(h) && i < |data|
    ensures Summed(g)
    ensures Value(g) == Value(h) + BlockValue(data[i..if i + 16 > |data| then |data| else i + 16])
  {
    var x := Loaded(data, i);
    var t0, t1, t2, t3 := Word(x, 0), Word(x, 1), Word(x, 2), Word(x, 3);
    BlockWords(x);
    WordsToLimbs(t0, t1, t2, t3);
    LowBits(t0);
    LowBits(Straddle1(t0, t1));
    LowBits(Straddle2(t1, t2));
    LowBits(Straddle3(t2, t3));
    LoadedValue(data, i);
    HighBit(Shr(t3, 8));
    g := Limbs(h.l0 + And(t0, 0x03ff_ffff), h.l1 + And(Straddle1(t0, t1), 0x03ff_ffff),
               h.l2 + And(Straddle2(t1, t2), 0x03ff_ffff), h.l3 + And(Straddle3(t2, t3), 0x03ff_ffff),
               h.l4 + Or(Shr(t3, 8), if i + 16 <= |data| then 0x100_0000 else 0));
    assert data[i..|data|] == data[i..];
  }

  lemma HighBit(x: nat)
    requires x < 0x100_0000
    ensures Or(x, 0x100_0000) == x + 0x100_0000 && Or(x, 0) == x
  {
    Constants();
    ShlOne(24);
    OrDisjoint(x, 1, 24);
  }

  // ---------- the final steps ----------

  method FullCarry(h: Limbs) returns (g: Limbs)
    requires Loose(h)
    ensures Tight(g) && Value(g) % P == Value(h) % P
  {
    var h2: u32 := h.l2 + h.l1 / B;
    var h3: u32 := h.l3 + h2 / B;
    var h4: u32 := h.l4 + h3 / B;
    var h0: u32 := h.l0 + h4 / B * 5;
    var h1: u32 := h.l1 % B + h0 / B;
    g := Limbs(h0 % B, h1, h2 % B, h3 % B, h4 % B);
    FullCarryValue(h, h2, h3, h4, h0, h1);
    ModPlusMultiple(Value(g), P, h4 / B);
  }

  lemma FullCarryValue(h: Limbs, h2: nat, h3: nat, h4: nat, h0: nat, h1: nat)
    requires Loose(h) && h2 == h.l2 + h.l1 / B && h3 == h.l3 + h2 / B && h4 == h.l4 + h3 / B
    requires h0 == h.l0 + h4 / B * 5 && h1 == h.l1 % B + h0 / B
    ensures h1 < B
    ensures h0 % B + h1 * B + h2 % B * B2 + h3 % B * B3 + h4 % B * B4 + P * (h4 / B) == Value(h)
  {
    assert h.l1 == h.l1 % B + h.l1 / B * B && h2 == h2 % B + h2 / B * B && h3 == h3 % B + h3 / B * B;
    assert h4 == h4 % B + h4 / B * B && h0 == h0 % B + h0 / B * B;
  }

  const ONES: nat := 0xffff_ffff

  /** (x & ~b) | (y & b), for b all ones or all zeros */
  function Select(b: u32, x: u32, y: u32): nat {
    Or(And(x, ONES - b), And(y, b))
  }

  lemma AndOnes(x: u32)
    ensures And(x, ONES) == x && And(x, 0) == 0
  {
    Pow2Words();
    AndMask(x, 32);
    ShrIsDivision(x, 32);
    AndZero(x);
  }

  lemma SelectPicks(x: u32, y: u32)
    ensures Select(0, x, y) == x && Select(ONES, x, y) == y
  {
    AndOnes(x);
    AndOnes(y);
    OrCommutes(x, 0);
  }

  method SelectLimbs(b: u32, h: Limbs, t: Limbs) returns (g: Limbs)
    requires b == 0 || b == ONES
    ensures g == if b == 0 then h else t
  {
    SelectPicks(h.l0, t.l0);
    SelectPicks(h.l1, t.l1);
    SelectPicks(h.l2, t.l2);
    SelectPicks(h.l3, t.l3);
    SelectPicks(h.l4, t.l4);
    g := Limbs(Select(b, h.l0, t.l0), Select(b, h.l1, t.l1), Select(b, h.l2, t.l2), Select(b, h.l3, t.l3), Select(b, h.l4, t.l4));
  }

  /** Subtracts P when that does not go below zero: t4 wraps exactly when it would. */
  method SubtractP(h: Limbs) returns (g: Limbs)
    requires Tight(h)
    ensures Tight(g) && Value(g) == Value(h) % P
  {
    var s0: u32 := h.l0 + 5;
    var s1: u32 := h.l1 + s0 / B;
    var s2: u32 := h.l2 + s1 / B;
    var s3: u32 := h.l3 + s2 / B;
    var t4: u32 := (h.l4 + s3 / B + W32 - B) % W32;
    var t0, t1, t2, t3 := s0 % B, s1 % B, s2 % B, s3 % B;
    var b: u32 := (Shr(t4, 31) + W32 - 1) % W32;
    SignBit(t4);
    SubtractedValue(h, s0, s1, s2, s3, h.l4 + s3 / B);
    g := SelectLimbs(b, h, Limbs(t0, t1, t2, t3, t4));
  }

  /** h + 5 carried through: it reaches 2^130 exactly when h reaches P. */
  lemma SubtractedValue(h: Limbs, s0: nat, s1: nat, s2: nat, s3: nat, s4: nat)
    requires Tight(h) && s0 == h.l0 + 5 && s1 == h.l1 + s0 / B && s2 == h.l2 + s1 / B && s3 == h.l3 + s2 / B
    requires s4 == h.l4 + s3 / B
    ensures s4 <= B
    ensures s4 < B ==> Value(h) % P == Value(h) && (s4 + W32 - B) % W32 >= 0x8000_0000
    ensures s4 == B ==> Value(h) % P == s0 % B + s1 % B * B + s2 % B * B2 + s3 % B * B3 && (s4 + W32 - B) % W32 == 0
  {
    var low := s0 % B + s1 % B * B + s2 % B * B2 + s3 % B * B3;
    assert Value(h) + 5 == low + s4 * B4;
    assert low < B4;
    if s4 < B {
      assert Value(h) < P;
    } else {
      assert Value(h) == P + low;
    }
  }

  lemma SignBit(t: u32)
    ensures Shr(t, 31) == if t >= 0x8000_0000 then 1 else 0
  {
    ShrIsDivision(t, 31);
    Pow2Words();
    assert Pow2(32) == 2 * Pow2(31);
  }

  /** h % 2^128 as four 32-bit words. */
  method Pack(h: Limbs) returns (w0: u32, w1: u32, w2: u32, w3: u32)
    requires Tight(h)
    ensures WordsValue(w0, w1, w2, w3) == Value(h) % W128
  {
    PackedWords(h);
    w0 := Or(h.l0, Shl32(h.l1, 26));
    w1 := Or(Shr(h.l1, 6), Shl32(h.l2, 20));
    w2 := Or(Shr(h.l2, 12), Shl32(h.l3, 14));
    w3 := Or(Shr(h.l3, 18), Shl32(h.l4, 8));
  }

  lemma PackedWords(h: Limbs)
    requires Tight(h)
    ensures Or(h.l0, Shl32(h.l1, 26)) == h.l0 + h.l1 % 0x40 * B < W32
    ensures Or(Shr(h.l1, 6), Shl32(h.l2, 20)) == h.l1 / 0x40 + h.l2 % 0x1000 * 0x10_0000 < W32
    ensures Or(Shr(h.l2, 12), Shl32(h.l3, 14)) == h.l2 / 0x1000 + h.l3 % 0x4_0000 * 0x4000 < W32
    ensures Or(Shr(h.l3, 18), Shl32(h.l4, 8)) == h.l3 / 0x4_0000 + h.l4 % 0x100_0000 * 0x100 < W32
    ensures WordsValue(h.l0 + h.l1 % 0x40 * B, h.l1 / 0x40 + h.l2 % 0x1000 * 0x10_0000,
                       h.l2 / 0x1000 + h.l3 % 0x4_0000 * 0x4000, h.l3 / 0x4_0000 + h.l4 % 0x100_0000 * 0x100) == Value(h) % W128
  {
    Constants();
    OrAbove(h.l0, h.l1, 26, 6);
    ShrIsDivision(h.l1, 6);
    OrAbove(h.l1 / 0x40, h.l2, 20, 12);
    ShrIsDivision(h.l2, 12);
    OrAbove(h.l2 / 0x1000, h.l3, 14, 18);
    ShrIsDivision(h.l3, 18);
    OrAbove(h.l3 / 0x4_0000, h.l4, 8, 24);
    PackedValue(h);
  }

  lemma OrAbove(a: nat, b: u32, k: nat, j: nat)
    requires k + j == 32 && a < Pow2(k)
    ensures Or(a, Shl32(b, k)) == a + b % Pow2(j) * Pow2(k) < W32
  {
    Shl32Drops(b, k);
    OrDisjoint(a, Low(b, j), k);
    ShlIsProduct(Low(b, j), k);
    ShrIsDivision(b, j);
    BelowNext(a, b, k, j);
    Pow2Words();
  }

  lemma PackedValue(h: Limbs)
    requires Tight(h)
    ensures (h.l0 + h.l1 % 0x40 * B) + (h.l1 / 0x40 + h.l2 % 0x1000 * 0x10_0000) * W32
            + (h.l2 / 0x1000 + h.l3 % 0x4_0000 * 0x4000) * (W32 * W32)
            + (h.l3 / 0x4_0000 + h.l4 % 0x100_0000 * 0x100) * (W32 * W32 * W32) == Value(h) % W128
  {
    var a1, b1, a2, b2, a3, b3 := h.l1 % 0x40, h.l1 / 0x40, h.l2 % 0x1000, h.l2 / 0x1000, h.l3 % 0x4_0000, h.l3 / 0x4_0000;
    var a4, b4 := h.l4 % 0x100_0000, h.l4 / 0x100_0000;
    var packed := (h.l0 + a1 * B) + (b1 + a2 * 0x10_0000) * W32 + (b2 + a3 * 0x4000) * (W32 * W32)
                  + (b3 + a4 * 0x100) * (W32 * W32 * W32);
    hide Value;
    SplitLimbs(h);
    PackedSum(h, a1, b1, a2, b2, a3, b3, a4, b4);
    PackedFits(h.l0, a1, b1, a2, b2, a3, b3, a4);
    QuotientUnique(Value(h), W128, b4, packed);
  }

  lemma SplitLimbs(h: Limbs)
    requires Tight(h)
    ensures h.l1 == h.l1 % 0x40 + 0x40 * (h.l1 / 0x40) && h.l1 / 0x40 < 0x10_0000
    ensures h.l2 == h.l2 % 0x1000 + 0x1000 * (h.l2 / 0x1000) && h.l2 / 0x1000 < 0x4000
    ensures h.l3 == h.l3 % 0x4_0000 + 0x4_0000 * (h.l3 / 0x4_0000) && h.l3 / 0x4_0000 < 0x100
    ensures h.l4 == h.l4 % 0x100_0000 + 0x100_0000 * (h.l4 / 0x100_0000)
  {
  }

  lemma PackedSum(h: Limbs, a1: nat, b1: nat, a2: nat, b2: nat, a3: nat, b3: nat, a4: nat, b4: nat)
    requires h.l1 == a1 + 0x40 * b1 && h.l2 == a2 + 0x1000 * b2 && h.l3 == a3 + 0x4_0000 * b3 && h.l4 == a4 + 0x100_0000 * b4
    ensures Value(h) == (h.l0 + a1 * B) + (b1 + a2 * 0x10_0000) * W32 + (b2 + a3 * 0x4000) * (W32 * W32)
                        + (b3 + a4 * 0x100) * (W32 * W32 * W32) + W128 * b4
  {
  }

  lemma PackedFits(l0: nat, a1: nat, b1: nat, a2: nat, b2: nat, a3: nat, b3: nat, a4: nat)
    requires l0 < B && a1 < 0x40 && b1 < 0x10_0000 && a2 < 0x1000 && b2 < 0x4000 && a3 < 0x4_0000 && b3 < 0x100 && a4 < 0x100_0000
    ensures (l0 + a1 * B) + (b1 + a2 * 0x10_0000) * W32 + (b2 + a3 * 0x4000) * (W32 * W32) + (b3 + a4 * 0x100) * (W32 * W32 * W32) < W128
  {
  }

  /** mac = (h + pad) % 2^128 */
  method AddPad(w0: u32, w1: u32, w2: u32, w3: u32, key: seq<byte>) returns (m0: u32, m1: u32, m2: u32, m3: u32)
    requires |key| == 32
    ensures WordsValue(m0, m1, m2, m3) == (WordsValue(w0, w1, w2, w3) + LittleEndian(key[16..])) % W128
  {
    var x := key[16..];
    BlockWords(x);
    var d0: u64 := w0 + Word(x, 0);
    var d1: u64 := w1 + Word(x, 1) + d0 / W32;
    var d2: u64 := w2 + Word(x, 2) + d1 / W32;
    var d3: u64 := w3 + Word(x, 3) + d2 / W32;
    m0, m1, m2, m3 := d0 % W32, d1 % W32, d2 % W32, d3 % W32;
    CarryThrough(w0, w1, w2, w3, Word(x, 0), Word(x, 1), Word(x, 2), Word(x, 3), d0, d1, d2, d3);
  }

  lemma CarryThrough(w0: u32, w1: u32, w2: u32, w3: u32, x0: u32, x1: u32, x2: u32, x3: u32, d0: nat, d1: nat, d2: nat, d3: nat)
    requires d0 == w0 + x0 && d1 == w1 + x1 + d0 / W32 && d2 == w2 + x2 + d1 / W32 && d3 == w3 + x3 + d2 / W32
    ensures WordsValue(d0 % W32, d1 % W32, d2 % W32, d3 % W32)
            == (WordsValue(w0, w1, w2, w3) + WordsValue(x0, x1, x2, x3)) % W128
  {
    CarrySum(w0 + x0, w1 + x1, w2 + x2, w3 + x3, d0, d1, d2, d3);
    NoWrap(d0 % W32, d1 % W32, d2 % W32, d3 % W32, d3 / W32);
  }

  lemma NoWrap(m0: u32, m1: u32, m2: u32, m3: u32, c: nat)
    ensures (WordsValue(m0, m1, m2, m3) + W128 * c) % W128 == WordsValue(m0, m1, m2, m3)
  {
    WordsBelow(m0, m1, m2, m3);
    ModPlusMultiple(WordsValue(m0, m1, m2, m3), W128, c);
  }

  lemma CarrySum(y0: nat, y1: nat, y2: nat, y3: nat, d0: nat, d1: nat, d2: nat, d3: nat)
    requires d0 == y0 && d1 == y1 + d0 / W32 && d2 == y2 + d1 / W32 && d3 == y3 + d2 / W32
    ensures y0 + y1 * W32 + y2 * (W32 * W32) + y3 * (W32 * W32 * W32)
            == WordsValue(d0 % W32, d1 % W32, d2 % W32, d3 % W32) + W128 * (d3 / W32)
  {
    assert d0 == d0 % W32 + d0 / W32 * W32 && d1 == d1 % W32 + d1 / W32 * W32;
    assert d2 == d2 % W32 + d2 / W32 * W32 && d3 == d3 % W32 + d3 / W32 * W32;
  }

  lemma WordsBelow(w0: u32, w1: u32, w2: u32, w3: u32)
    ensures WordsValue(w0, w1, w2, w3) < W128
  {
  }

  // ---------- _BRPoly1305Compress ----------

  function LimbsOf(h: seq<u32>): Limbs
    requires |h| == 5
  {
    Limbs(h[0], h[1], h[2], h[3], h[4])
  }

  function WordBytes(w0: u32, w1: u32, w2: u32, w3: u32): (b: seq<byte>)
    ensures |b| == 16
  {
    LittleEndianBytes(w0, 4) + LittleEndianBytes(w1, 4) + LittleEndianBytes(w2, 4) + LittleEndianBytes(w3, 4)
  }

  /** The first four words of h as 16 bytes. */
  function MacBytes(h: seq<u32>): (b: seq<byte>)
    requires |h| == 5
    ensures |b| == 16
  {
    WordBytes(h[0], h[1], h[2], h[3])
  }

  lemma FourParts(b0: seq<byte>, b1: seq<byte>, b2: seq<byte>, b3: seq<byte>)
    requires |b0| == |b1| == |b2| == |b3| == 4
    ensures var b := b0 + b1 + b2 + b3; b[0..4] == b0 && b[4..8] == b1 && b[8..12] == b2 && b[12..16] == b3
  {
  }

  lemma WordBytesValue(w0: u32, w1: u32, w2: u32, w3: u32)
    ensures WordBytes(w0, w1, w2, w3) == LittleEndianBytes(WordsValue(w0, w1, w2, w3), 16)
  {
    var b := WordBytes(w0, w1, w2, w3);
    Pow256Words();
    NumberOfBytes(w0, 4);
    NumberOfBytes(w1, 4);
    NumberOfBytes(w2, 4);
    NumberOfBytes(w3, 4);
    var b0, b1, b2, b3 := LittleEndianBytes(w0, 4), LittleEndianBytes(w1, 4), LittleEndianBytes(w2, 4), LittleEndianBytes(w3, 4);
    FourParts(b0, b1, b2, b3);
    BlockWords(b);
    BytesOfNumber(b);
  }

  /** What the code does after the last block. */
  method Finish(h: Limbs, key: seq<byte>) returns (w0: u32, w1: u32, w2: u32, w3: u32)
    requires Loose(h) && |key| == 32
    ensures WordBytes(w0, w1, w2, w3) == TagOf(Value(h) % P, key)
  {
    var g := FullCarry(h);
    g := SubtractP(g);
    var v0, v1, v2, v3 := Pack(g);
    w0, w1, w2, w3 := AddPad(v0, v1, v2, v3, key);
    WordBytesValue(w0, w1, w2, w3);
    ModInSum(Value(g), LittleEndian(key[16..]), W128);
  }

  lemma ModInSum(x: nat, y: nat, m: nat)
    requires m > 0
    ensures (x % m + y) % m == (x + y) % m
  {
    ModOfFactor(x, y, 1, m);
  }

  lemma AbsorbStep(v: nat, r: nat, data: seq<byte>, i: nat, n: nat)
    requires i < n <= |data| && n - i <= 16 && (n - i < 16 ==> n == |data|)
    ensures Absorb(v % P, r, data[i..]) == Absorb(((v + BlockValue(data[i..n])) * r) % P, r, data[n..])
  {
    var rest := data[i..];
    assert rest[..n - i] == data[i..n] && rest[n - i..] == data[n..];
    ModOfFactor(v, BlockValue(data[i..n]), r, P);
  }

  lemma AbsorbNothing(acc: nat, r: nat, data: seq<byte>)
    ensures data[0..] == data && Absorb(acc, r, data[|data|..]) == acc
  {
  }

  /** The loop over the blocks. */
  method AbsorbBlocks(h: Limbs, r: Limbs, data: seq<byte>) returns (g: Limbs)
    requires Loose(h) && Clamped(r)
    ensures Loose(g) && Value(g) % P == Absorb(Value(h) % P, Value(r), data)
  {
    hide Absorb;
    hide BlockValue;
    hide Value;
    hide Loose;
    hide Clamped;
    hide Summed;
    g := h;
    ghost var acc, rv := Value(h) % P, Value(r);
    var i := 0;
    AbsorbNothing(acc, rv, data);
    while i < |data|
      invariant Loose(g)
      invariant Absorb(acc, rv, data) == Absorb(Value(g) % P, rv, data[if i < |data| then i else |data|..])
    {
      ghost var n, v := if i + 16 > |data| then |data| else i + 16, Value(g);
      var sum := AddBlock(g, data, i);
      g := Multiply(sum, r);
      AbsorbStep(v, rv, data, i, n);
      i := i + 16;
    }
    AbsorbNothing(Value(g) % P, rv, data);
  }

  method Compress(h: array<u32>, key: seq<byte>, data: seq<byte>, final: bool)
    requires h.Length == 5 && |key| == 32
    requires Loose(LimbsOf(h[..]))
    modifies h
    ensures !final ==> Loose(LimbsOf(h[..]))
                       && Value(LimbsOf(h[..])) % P == Absorb(Value(LimbsOf(old(h[..]))) % P, ClampedR(key), data)
    ensures final ==> MacBytes(h[..]) == TagOf(Absorb(Value(LimbsOf(old(h[..]))) % P, ClampedR(key), data), key)
  {
    hide Absorb;
    hide ClampedR;
    hide TagOf;
    hide Value;
    KeyLimbsAreClamped(key);
    var g := AbsorbBlocks(LimbsOf(h[..]), KeyLimbs(key), data);
    if final {
      var w0, w1, w2, w3 := Finish(g, key);
      h[0], h[1], h[2], h[3] := w0, w1, w2, w3;
      assert MacBytes(h[..]) == WordBytes(w0, w1, w2, w3);
    } else {
      h[0], h[1], h[2], h[3], h[4] := g.l0, g.l1, g.l2, g.l3, g.l4;
      assert LimbsOf(h[..]) == g;
    }
  }

  /** BRPoly1305: the tag of section 2.5 of RFC 7539, for every key and every message. */
  method Poly1305(key: seq<byte>, data: seq<byte>) returns (mac: seq<byte>)
    requires |key| == 32
    ensures mac == Tag(key, data)
  {
    var h := new u32[5](_ => 0);
    assert LimbsOf(h[..]) == Limbs(0, 0, 0, 0, 0);
    Compress(h, key, data, true);
    mac := MacBytes(h[..]);
  }
}

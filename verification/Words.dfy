/** Fixed-width integers of the C sources, and the bitwise operators on them, over natural numbers. */
module Words {
  type byte = x: nat | x < 0x100
  type u32 = x: nat | x < 0x1_0000_0000
  type u64 = x: nat | x < 0x1_0000_0000_0000_0000

  /** The 32 bytes of a hash. */
  type Digest = s: seq<byte> | |s| == 32 witness seq(32, _ => 0)

  const W32: nat := 0x1_0000_0000
  const W64: nat := 0x1_0000_0000_0000_0000

  function Pow2(k: nat): (p: nat)
    ensures p > 0
  {
    if k == 0 then 1 else 2 * Pow2(k - 1)
  }

  /** x << k, in as many bits as it takes */
  function Shl(x: nat, k: nat): nat {
    if k == 0 then x else 2 * Shl(x, k - 1)
  }

  /** x >> k */
  function Shr(x: nat, k: nat): nat {
    if k == 0 then x else Shr(x / 2, k - 1)
  }

  /** The k low bits of x. */
  function Low(x: nat, k: nat): nat {
    if k == 0 then 0 else x % 2 + 2 * Low(x / 2, k - 1)
  }

  /** x << k in 32 bits */
  function Shl32(x: u32, k: nat): u32 {
    Shl(x, k) % W32
  }

  function And(x: nat, y: nat): nat {
    if x == 0 || y == 0 then 0 else 2 * And(x / 2, y / 2) + (if x % 2 == 1 && y % 2 == 1 then 1 else 0)
  }

  function Or(x: nat, y: nat): nat {
    if x == 0 then y else if y == 0 then x
    else 2 * Or(x / 2, y / 2) + (if x % 2 == 0 && y % 2 == 0 then 0 else 1)
  }

  function Xor(x: nat, y: nat): nat {
    if x == 0 then y else if y == 0 then x
    else 2 * Xor(x / 2, y / 2) + (if x % 2 == y % 2 then 0 else 1)
  }

  // ---------- powers of two and shifts ----------

  lemma {:induction false} Pow2Monotone(a: nat, b: nat)
    requires a <= b
    ensures Pow2(a) <= Pow2(b)
    decreases b
  {
    if a < b {
      Pow2Monotone(a, b - 1);
    }
  }

  lemma {:induction false} ShlIsProduct(x: nat, k: nat)
    ensures Shl(x, k) == x * Pow2(k)
  {
    if k > 0 {
      ShlIsProduct(x, k - 1);
      assert 2 * (x * Pow2(k - 1)) == x * (2 * Pow2(k - 1));
    }
  }

  lemma {:induction false} ShlOne(k: nat)
    ensures Shl(1, k) == Pow2(k) && Shl(0, k) == 0
  {
    if k > 0 { ShlOne(k - 1); }
  }

  lemma {:induction false} ShlSum(x: nat, y: nat, k: nat)
    ensures Shl(x + y, k) == Shl(x, k) + Shl(y, k)
  {
    if k > 0 { ShlSum(x, y, k - 1); }
  }

  lemma {:induction false} ShlShl(x: nat, j: nat, k: nat)
    ensures Shl(Shl(x, j), k) == Shl(x, j + k)
  {
    if k > 0 { ShlShl(x, j, k - 1); }
  }

  lemma {:induction false} ShlMonotone(x: nat, y: nat, k: nat)
    requires x <= y
    ensures Shl(x, k) <= Shl(y, k)
    ensures x < y ==> Shl(x, k) < Shl(y, k)
  {
    if k > 0 { ShlMonotone(x, y, k - 1); }
  }

  lemma Pow2Shl(a: nat, b: nat)
    ensures Pow2(a + b) == Shl(Pow2(a), b)
  {
    ShlOne(a);
    ShlShl(1, a, b);
    ShlOne(a + b);
  }

  lemma Pow2Add(a: nat, b: nat)
    ensures Pow2(a + b) == Pow2(a) * Pow2(b)
  {
    Pow2Shl(a, b);
    ShlIsProduct(Pow2(a), b);
  }

  lemma Pow2Words()
    ensures Pow2(8) == 0x100 && Pow2(16) == 0x1_0000 && Pow2(32) == W32 && Pow2(64) == W64
  {
    assert Pow2(8) == 0x100;
    Pow2Add(8, 8);
    Pow2Add(16, 16);
    Pow2Add(32, 32);
  }

  lemma ShlBound(x: nat, a: nat, k: nat)
    requires x < Pow2(a)
    ensures Shl(x, k) < Pow2(a + k)
  {
    ShlMonotone(x, Pow2(a), k);
    Pow2Shl(a, k);
  }

  lemma {:induction false} Cut(x: nat, k: nat)
    ensures x == Low(x, k) + Shl(Shr(x, k), k) && Low(x, k) < Pow2(k)
  {
    if k > 0 { Cut(x / 2, k - 1); }
  }

  /** Dividing by 2^k keeps what lies above bit k. */
  lemma ShrBound(x: nat, a: nat, k: nat)
    requires x < Pow2(a + k)
    ensures Shr(x, k) < Pow2(a)
  {
    Cut(x, k);
    Pow2Shl(a, k);
    if Pow2(a) <= Shr(x, k) {
      ShlMonotone(Pow2(a), Shr(x, k), k);
    }
  }

  lemma ShrIsDivision(x: nat, k: nat)
    ensures Shr(x, k) == x / Pow2(k) && Low(x, k) == x % Pow2(k)
  {
    Cut(x, k);
    ShlIsProduct(Shr(x, k), k);
    QuotientUnique(x, Pow2(k), Shr(x, k), Low(x, k));
  }

  // ---------- bitwise operators ----------

  lemma {:induction false} XorZero(x: nat)
    ensures Xor(x, x) == 0
  {
    if x != 0 {
      XorZero(x / 2);
    }
  }

  /** What makes a key stream its own inverse. */
  lemma {:induction false} XorCancels(x: nat, y: nat)
    ensures Xor(Xor(x, y), y) == x
    decreases x + y
  {
    if x == 0 {
      XorZero(y);
    } else if y != 0 {
      var h := Xor(x / 2, y / 2);
      XorCancels(x / 2, y / 2);
      var b := if x % 2 == y % 2 then 0 else 1;
      assert Xor(x, y) == 2 * h + b;
      assert (2 * h + b) / 2 == h && (2 * h + b) % 2 == b;
    }
  }

  lemma {:induction false} XorBound(x: nat, y: nat, k: nat)
    requires x < Pow2(k) && y < Pow2(k)
    ensures Xor(x, y) < Pow2(k)
    decreases k
  {
    if k > 0 && x != 0 && y != 0 {
      XorBound(x / 2, y / 2, k - 1);
    }
  }

  lemma {:induction false} AndBound(x: nat, y: nat)
    ensures And(x, y) <= x && And(x, y) <= y
  {
    if x != 0 && y != 0 {
      AndBound(x / 2, y / 2);
    }
  }

  lemma ModPlusMultiple(x: nat, m: nat, k: nat)
    requires m > 0
    ensures 0 <= m * k && (x + m * k) % m == x % m
  {
    assert 0 <= m * k;
    var q := x / m;
    assert x == m * q + x % m;
    assert m * q + m * k == m * (q + k);
    QuotientUnique(x + m * k, m, q + k, x % m);
  }

  /** x & (2^k - 1) */
  lemma {:induction false} AndMask(x: nat, k: nat)
    ensures And(x, Pow2(k) - 1) == Low(x, k)
  {
    if k > 0 {
      AndMask(x / 2, k - 1);
      if x == 0 { LowZero(k); }
    }
  }

  lemma {:induction false} LowZero(k: nat)
    ensures Low(0, k) == 0
  {
    if k > 0 { LowZero(k - 1); }
  }

  lemma MulAwayFromZero(m: int, d: int)
    requires m >= 0
    ensures d >= 1 ==> m * d >= m
    ensures d <= -1 ==> m * d <= -m
  {
  }

  lemma QuotientUnique(x: nat, m: nat, q: nat, r: nat)
    requires m > 0 && x == m * q + r && r < m
    ensures x / m == q && x % m == r
  {
    var d := x / m - q;
    assert x == m * (x / m) + x % m;
    assert m * d == m * (x / m) - m * q;
    MulAwayFromZero(m, d);
  }

  /** x & y, with both words cut at bit k */
  lemma {:induction false} AndSplit(x: nat, y: nat, a: nat, b: nat, c: nat, d: nat, k: nat)
    requires a < Pow2(k) && c < Pow2(k) && x == a + Shl(b, k) && y == c + Shl(d, k)
    ensures And(x, y) == And(a, c) + Shl(And(b, d), k)
    decreases k
  {
    if k > 0 {
      HalveSum(a, Shl(b, k - 1));
      HalveSum(c, Shl(d, k - 1));
      AndSplit(x / 2, y / 2, a / 2, b, c / 2, d, k - 1);
      AndGrow(x, y, a, c, Shl(And(b, d), k - 1));
    }
  }

  lemma HalveSum(a: nat, t: nat)
    ensures (a + 2 * t) / 2 == a / 2 + t && (a + 2 * t) % 2 == a % 2
  {
  }

  lemma AndGrow(x: nat, y: nat, a: nat, c: nat, t: nat)
    requires And(x / 2, y / 2) == And(a / 2, c / 2) + t && x % 2 == a % 2 && y % 2 == c % 2
    ensures And(x, y) == And(a, c) + 2 * t
  {
    AndStep(x, y);
    AndStep(a, c);
  }

  lemma AndStep(x: nat, y: nat)
    ensures And(x, y) == 2 * And(x / 2, y / 2) + (if x % 2 == 1 && y % 2 == 1 then 1 else 0)
  {
  }

  /** low | high, when the two do not overlap */
  lemma {:induction false} OrDisjoint(a: nat, b: nat, k: nat)
    requires a < Pow2(k)
    ensures Or(a, Shl(b, k)) == a + Shl(b, k)
    decreases k
  {
    if k > 0 {
      OrDisjoint(a / 2, b, k - 1);
      OrStep(a, Shl(b, k));
    }
  }

  lemma OrStep(x: nat, y: nat)
    ensures Or(x, y) == 2 * Or(x / 2, y / 2) + (if x % 2 == 0 && y % 2 == 0 then 0 else 1)
  {
    if x == 0 {
      assert Or(x / 2, y / 2) == y / 2;
    } else if y == 0 {
      assert Or(x / 2, y / 2) == x / 2;
    }
  }

  lemma {:induction false} OrCommutes(x: nat, y: nat)
    ensures Or(x, y) == Or(y, x)
  {
    if x != 0 && y != 0 {
      OrCommutes(x / 2, y / 2);
    }
  }

  lemma AndZero(x: nat)
    ensures And(x, 0) == 0
  {
  }

  /** A mask below 2^k sees only the low k bits. */
  lemma AndLow(x: nat, m: nat, k: nat)
    requires m < Pow2(k)
    ensures And(x, m) == And(Low(x, k), m)
  {
    Cut(x, k);
    ShlOne(k);
    AndSplit(x, m, Low(x, k), Shr(x, k), m, 0, k);
    AndZero(Shr(x, k));
  }

  // ---------- 32-bit shifts ----------

  lemma DropHigh(x: nat, lo: nat, hi: nat)
    requires x == lo + hi * W32 && lo < W32
    ensures x % W32 == lo
  {
  }

  /** A 32-bit left shift loses the high bits. */
  lemma Shl32Drops(x: u32, k: nat)
    requires k <= 32
    ensures Shl32(x, k) == Shl(Low(x, 32 - k), k)
  {
    var lo, hi := Low(x, 32 - k), Shr(x, 32 - k);
    Cut(x, 32 - k);
    ShlSum(lo, Shl(hi, 32 - k), k);
    ShlShl(hi, 32 - k, k);
    ShlIsProduct(hi, 32);
    Pow2Words();
    ShlBound(lo, 32 - k, k);
    DropHigh(Shl(x, k), Shl(lo, k), hi);
  }

  /** (a >> (32 - k)) | (b << k): the high bits of a below the low bits of b. */
  lemma FunnelShift(a: u32, b: u32, k: nat)
    requires k <= 32
    ensures Or(Shr(a, 32 - k), Shl32(b, k)) == Shr(a, 32 - k) + Shl(Low(b, 32 - k), k)
  {
    Pow2Words();
    ShrBound(a, k, 32 - k);
    Shl32Drops(b, k);
    OrDisjoint(Shr(a, 32 - k), Low(b, 32 - k), k);
  }

  /** The same with divisions. */
  lemma FunnelShiftDivided(a: u32, b: u32, k: nat)
    requires k <= 32
    ensures Or(Shr(a, 32 - k), Shl32(b, k)) == a / Pow2(32 - k) + b % Pow2(32 - k) * Pow2(k)
  {
    FunnelShift(a, b, k);
    ShrIsDivision(a, 32 - k);
    ShrIsDivision(b, 32 - k);
    ShlIsProduct(Low(b, 32 - k), k);
  }

  lemma BelowNext(a: nat, b: nat, k: nat, j: nat)
    requires a < Pow2(k)
    ensures a + Shl(Low(b, j), k) < Pow2(j + k)
  {
    Cut(b, j);
    ShlMonotone(Low(b, j) + 1, Pow2(j), k);
    ShlSum(Low(b, j), 1, k);
    ShlOne(k);
    Pow2Shl(j, k);
  }

  lemma XorFits(x: nat, y: nat)
    ensures x < 0x100 && y < 0x100 ==> Xor(x, y) < 0x100
    ensures x < W32 && y < W32 ==> Xor(x, y) < W32
  {
    Pow2Words();
    if x < 0x100 && y < 0x100 { XorBound(x, y, 8); }
    if x < W32 && y < W32 { XorBound(x, y, 32); }
  }

  lemma {:induction false} XorIsZero(x: nat, y: nat)
    ensures Xor(x, y) == 0 <==> x == y
  {
    if x != 0 && y != 0 { XorIsZero(x / 2, y / 2); }
  }

  lemma {:induction false} OrIsZero(x: nat, y: nat)
    ensures Or(x, y) == 0 <==> x == 0 && y == 0
  {
    if x != 0 && y != 0 { OrIsZero(x / 2, y / 2); }
  }

  /** A 32-bit word rotated left by k bits. */
  function Rol32(x: u32, k: nat): u32
    requires 0 < k < 32
  {
    RotationFits(x, k);
    Or(Shl32(x, k), Shr(x, 32 - k))
  }

  lemma RotationFits(x: u32, k: nat)
    requires 0 < k < 32
    ensures Or(Shl32(x, k), Shr(x, 32 - k)) < W32
  {
    OrCommutes(Shl32(x, k), Shr(x, 32 - k));
    FunnelShift(x, x, k);
    Pow2Words();
    ShrBound(x, k, 32 - k);
    BelowNext(Shr(x, 32 - k), x, k, 32 - k);
  }

  // ---------- little-endian numbers ----------

  /** The number a byte string stands for, least significant byte first. */
  function LittleEndian(s: seq<byte>): nat {
    if s == [] then 0 else s[0] + 256 * LittleEndian(s[1..])
  }

  /** The n least significant bytes of x. */
  function LittleEndianBytes(x: nat, n: nat): (s: seq<byte>)
    ensures |s| == n
  {
    if n == 0 then [] else [x % 256] + LittleEndianBytes(x / 256, n - 1)
  }

  function Pow256(n: nat): (p: nat)
    ensures p > 0
  {
    if n == 0 then 1 else 256 * Pow256(n - 1)
  }

  lemma Pow256Words()
    ensures Pow256(1) == 0x100 && Pow256(2) == 0x1_0000 && Pow256(4) == W32 && Pow256(8) == W64 && Pow256(16) == W64 * W64
  {
    assert Pow256(2) == 0x1_0000;
    assert Pow256(4) == 0x1_0000 * Pow256(2);
    assert Pow256(6) == 0x1_0000 * Pow256(4);
    assert Pow256(8) == 0x1_0000 * Pow256(6);
    assert Pow256(10) == 0x1_0000 * Pow256(8);
    assert Pow256(12) == 0x1_0000 * Pow256(10);
    assert Pow256(14) == 0x1_0000 * Pow256(12);
    assert Pow256(16) == 0x1_0000 * Pow256(14);
  }

  lemma {:induction false} LittleEndianBound(s: seq<byte>)
    ensures LittleEndian(s) < Pow256(|s|)
  {
    if s != [] {
      LittleEndianBound(s[1..]);
    }
  }

  lemma {:induction false} LittleEndianAppend(s: seq<byte>, t: seq<byte>)
    ensures LittleEndian(s + t) == LittleEndian(s) + Pow256(|s|) * LittleEndian(t)
  {
    if s == [] {
      assert s + t == t;
    } else {
      assert (s + t)[1..] == s[1..] + t;
      LittleEndianAppend(s[1..], t);
      assert 256 * (Pow256(|s| - 1) * LittleEndian(t)) == (256 * Pow256(|s| - 1)) * LittleEndian(t);
    }
  }

  lemma FirstDigit(b: byte, r: nat)
    ensures (b + 256 * r) % 256 == b && (b + 256 * r) / 256 == r
  {
  }

  lemma {:induction false} BytesOfNumber(s: seq<byte>)
    ensures LittleEndianBytes(LittleEndian(s), |s|) == s
  {
    if s != [] {
      BytesOfNumber(s[1..]);
      FirstDigit(s[0], LittleEndian(s[1..]));
    }
  }

  lemma {:induction false} NumberOfBytes(x: nat, n: nat)
    requires x < Pow256(n)
    ensures LittleEndian(LittleEndianBytes(x, n)) == x
  {
    if n > 0 {
      NumberOfBytes(x / 256, n - 1);
      var s := LittleEndianBytes(x, n);
      assert s[1..] == LittleEndianBytes(x / 256, n - 1);
    }
  }
}

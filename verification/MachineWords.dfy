/** The operators of 32-bit machine words, and what they do to the numbers that the words stand for. */
module MachineWords {
  import opened Words

  function Bit(b: bv32): nat {
    if b & 1 == 1 then 1 else 0
  }

  function Half(b: bv32): bv32 {
    b >> 1
  }

  /** The number in the low n bits of a machine word. */
  function Number(b: bv32, n: nat): (r: nat)
    ensures r < Pow2(n)
    decreases n
  {
    hide Half;
    if n == 0 then 0 else 2 * Number(Half(b), n - 1) + Bit(b)
  }

  /** The number that a machine word stands for. */
  function Word(b: bv32): u32 {
    Pow2Words();
    Number(b, 32)
  }

  /** The number in its lowest eight bits. */
  function LowByte(b: bv32): byte {
    Pow2Words();
    Number(b, 8)
  }

  lemma OneBit(b: bv32)
    ensures Bit(b) == 0 || Bit(b) == 1
  {
  }

  // ---------- exclusive or ----------

  function Mixed(a: bv32, b: bv32): bv32 {
    a ^ b
  }

  lemma MixedHalves(a: bv32, b: bv32)
    ensures Half(Mixed(a, b)) == Mixed(Half(a), Half(b))
    ensures Bit(Mixed(a, b)) == if Bit(a) == Bit(b) then 0 else 1
  {
  }

  lemma XorStep(x: nat, y: nat)
    ensures Xor(x, y) == 2 * Xor(x / 2, y / 2) + if x % 2 == y % 2 then 0 else 1
  {
  }

  lemma NumberStep(b: bv32, n: nat)
    requires n > 0
    ensures Number(b, n) / 2 == Number(Half(b), n - 1) && Number(b, n) % 2 == Bit(b)
  {
    hide Half;
    OneBit(b);
  }

  lemma {:induction false} MixedBits(a: bv32, b: bv32, n: nat)
    ensures Number(Mixed(a, b), n) == Xor(Number(a, n), Number(b, n))
    decreases n
  {
    hide Half;
    hide Bit;
    hide Xor;
    hide Number;
    hide Mixed;
    if n > 0 {
      MixedHalves(a, b);
      MixedBits(Half(a), Half(b), n - 1);
      XorStep(Number(a, n), Number(b, n));
      NumberStep(a, n);
      NumberStep(b, n);
      NumberStep(Mixed(a, b), n);
    } else {
      NoBits(a);
      NoBits(b);
      NoBits(Mixed(a, b));
      XorZero(0);
    }
  }

  lemma XorBits(a: bv32, b: bv32, n: nat)
    ensures Number(a ^ b, n) == Xor(Number(a, n), Number(b, n))
  {
    hide Xor;
    hide Number;
    MixedBits(a, b, n);
  }

  lemma NoBits(b: bv32)
    ensures Number(b, 0) == 0
  {
  }

  // ---------- the top bit ----------

  lemma Nibble(b: bv32, n: nat)
    requires b & 0xf == 0
    ensures Number(b, n + 4) == 16 * Number(b >> 4, n)
  {
    Even(b, n + 3);
    Even(b >> 1, n + 2);
    Even(b >> 2, n + 1);
    Even(b >> 3, n);
    hide Number;
    assert (b >> 1) >> 1 == b >> 2 && (b >> 2) >> 1 == b >> 3 && (b >> 3) >> 1 == b >> 4;
    assert b & 1 == 0 && (b >> 1) & 1 == 0 && (b >> 2) & 1 == 0 && (b >> 3) & 1 == 0;
  }

  lemma Even(b: bv32, n: nat)
    ensures b & 1 == 0 ==> Number(b, n + 1) == 2 * Number(b >> 1, n)
  {
  }

  lemma TopBit()
    ensures Number(0x8000_0000, 31) == 0
  {
    hide Number;
    Nibble(0x8000_0000, 27);
    Nibble(0x0800_0000, 23);
    Nibble(0x0080_0000, 19);
    Nibble(0x0008_0000, 15);
    Nibble(0x0000_8000, 11);
    Nibble(0x0000_0800, 7);
    Nibble(0x0000_0080, 3);
    Even(8, 2);
    Even(4, 1);
    Even(2, 0);
    NoBits(1);
  }

  lemma {:induction false} FewerBits(b: bv32, n: nat, k: nat)
    requires Number(b, n + k) == 0
    ensures Number(b, n) == 0
    decreases n
  {
    hide Half;
    if n > 0 {
      FewerBits(Half(b), n - 1, k);
    }
  }

  lemma NotSeen(b: bv32, n: nat)
    requires n <= 31
    ensures Number(b & 0x7fff_ffff, n) == Number(b, n)
  {
    hide Number;
    var t := b & 0x8000_0000;
    assert t == 0 || t == 0x8000_0000;
    TopBit();
    FewerBits(0x8000_0000, n, 31 - n);
    if t == 0 {
      assert b & 0x7fff_ffff == b;
    } else {
      assert b & 0x7fff_ffff == b ^ 0x8000_0000;
      XorBits(b, 0x8000_0000, n);
    }
  }

  // ---------- addition ----------

  /** The low n bits of a sum. */
  function NumberOfSum(a: bv32, b: bv32, n: nat): nat {
    Number(a + b, n)
  }

  /** The same with a carry. */
  function NumberOfCarried(a: bv32, b: bv32, n: nat): nat {
    Number(a + b + 1, n)
  }

  lemma Doubled(x: bv32, n: nat)
    requires n <= 31
    ensures Number(2 * x, n + 1) == 2 * Number(x, n)
    ensures Number(2 * x + 1, n + 1) == 2 * Number(x, n) + 1
  {
    hide Half;
    DoubledHalf(x);
    NotSeen(x, n);
  }

  lemma DoubledHalf(x: bv32)
    ensures Half(2 * x) == x & 0x7fff_ffff && Bit(2 * x) == 0
    ensures Half(2 * x + 1) == x & 0x7fff_ffff && Bit(2 * x + 1) == 1
  {
  }

  lemma DoubledSum0(x: bv32, y: bv32, n: nat)
    requires n <= 31
    ensures Number(2 * x + 2 * y, n + 1) == 2 * Number(x + y, n)
  {
    hide Number;
    Doubled(x + y, n);
  }

  lemma DoubledSum1(x: bv32, y: bv32, n: nat)
    requires n <= 31
    ensures Number(2 * x + 2 * y + 1, n + 1) == 2 * Number(x + y, n) + 1
  {
    hide Number;
    Doubled(x + y, n);
  }

  lemma DoubledSum2(x: bv32, y: bv32, n: nat)
    requires n <= 31
    ensures Number(2 * x + 2 * y + 2, n + 1) == 2 * Number(x + y + 1, n)
  {
    hide Number;
    Doubled(x + y + 1, n);
  }

  lemma DoubledSum3(x: bv32, y: bv32, n: nat)
    requires n <= 31
    ensures Number(2 * x + 2 * y + 3, n + 1) == 2 * Number(x + y + 1, n) + 1
  {
    hide Number;
    Doubled(x + y + 1, n);
  }

  lemma Flat000(x: bv32, y: bv32, n: nat)
    ensures NumberOfSum(2 * x, 2 * y, n) == Number(2 * x + 2 * y, n)
  {
    hide Number;
  }

  lemma Flat100(x: bv32, y: bv32, n: nat)
    ensures NumberOfSum(2 * x + 1, 2 * y, n) == Number(2 * x + 2 * y + 1, n)
  {
    hide Number;
  }

  lemma Flat010(x: bv32, y: bv32, n: nat)
    ensures NumberOfSum(2 * x, 2 * y + 1, n) == Number(2 * x + 2 * y + 1, n)
  {
    hide Number;
  }

  lemma Flat110(x: bv32, y: bv32, n: nat)
    ensures NumberOfSum(2 * x + 1, 2 * y + 1, n) == Number(2 * x + 2 * y + 2, n)
  {
    hide Number;
  }

  lemma Flat001(x: bv32, y: bv32, n: nat)
    ensures NumberOfCarried(2 * x, 2 * y, n) == Number(2 * x + 2 * y + 1, n)
  {
    hide Number;
  }

  lemma Flat101(x: bv32, y: bv32, n: nat)
    ensures NumberOfCarried(2 * x + 1, 2 * y, n) == Number(2 * x + 2 * y + 2, n)
  {
    hide Number;
  }

  lemma Flat011(x: bv32, y: bv32, n: nat)
    ensures NumberOfCarried(2 * x, 2 * y + 1, n) == Number(2 * x + 2 * y + 2, n)
  {
    hide Number;
  }

  lemma Flat111(x: bv32, y: bv32, n: nat)
    ensures NumberOfCarried(2 * x + 1, 2 * y + 1, n) == Number(2 * x + 2 * y + 3, n)
  {
    hide Number;
  }

  lemma Plain(x: bv32, y: bv32, n: nat)
    ensures NumberOfSum(x, y, n) == Number(x + y, n)
  {
    hide Number;
  }

  lemma PlainCarried(x: bv32, y: bv32, n: nat)
    ensures NumberOfCarried(x, y, n) == Number(x + y + 1, n)
  {
    hide Number;
  }

  /** A sum of doubled words, with a lowest bit in each and a carry. */
  lemma SumOfDoubled(x: bv32, y: bv32, n: nat)
    requires n <= 31
    ensures NumberOfSum(2 * x, 2 * y, n + 1) == 2 * NumberOfSum(x, y, n)
    ensures NumberOfSum(2 * x + 1, 2 * y, n + 1) == 2 * NumberOfSum(x, y, n) + 1
    ensures NumberOfSum(2 * x, 2 * y + 1, n + 1) == 2 * NumberOfSum(x, y, n) + 1
    ensures NumberOfSum(2 * x + 1, 2 * y + 1, n + 1) == 2 * NumberOfCarried(x, y, n)
    ensures NumberOfCarried(2 * x, 2 * y, n + 1) == 2 * NumberOfSum(x, y, n) + 1
    ensures NumberOfCarried(2 * x + 1, 2 * y, n + 1) == 2 * NumberOfCarried(x, y, n)
    ensures NumberOfCarried(2 * x, 2 * y + 1, n + 1) == 2 * NumberOfCarried(x, y, n)
    ensures NumberOfCarried(2 * x + 1, 2 * y + 1, n + 1) == 2 * NumberOfCarried(x, y, n) + 1
  {
    hide Number;
    hide NumberOfSum;
    hide NumberOfCarried;
    Plain(x, y, n);
    PlainCarried(x, y, n);
    DoubledSum0(x, y, n);
    DoubledSum1(x, y, n);
    DoubledSum2(x, y, n);
    DoubledSum3(x, y, n);
    Flat000(x, y, n + 1);
    Flat100(x, y, n + 1);
    Flat010(x, y, n + 1);
    Flat110(x, y, n + 1);
    Flat001(x, y, n + 1);
    Flat101(x, y, n + 1);
    Flat011(x, y, n + 1);
    Flat111(x, y, n + 1);
  }

  lemma Apart(b: bv32)
    ensures b == if Bit(b) == 1 then 2 * Half(b) + 1 else 2 * Half(b)
  {
  }

  lemma RemainderDoubled(m: nat, r: nat, p: nat)
    requires r < 2 && p > 0
    ensures (2 * m + r) % (2 * p) == 2 * (m % p) + r
  {
    assert m == p * (m / p) + m % p;
    assert 2 * m + r == (2 * p) * (m / p) + (2 * (m % p) + r);
    QuotientUnique(2 * m + r, 2 * p, m / p, 2 * (m % p) + r);
  }

  /** The lowest bit of a sum, and the sum of the halves with the carry from it. */
  lemma SumStep(a: bv32, b: bv32, n: nat)
    requires n <= 31
    ensures Bit(a) + Bit(b) == 0 ==> NumberOfSum(a, b, n + 1) == 2 * NumberOfSum(Half(a), Half(b), n)
    ensures Bit(a) + Bit(b) == 1 ==> NumberOfSum(a, b, n + 1) == 2 * NumberOfSum(Half(a), Half(b), n) + 1
    ensures Bit(a) + Bit(b) == 2 ==> NumberOfSum(a, b, n + 1) == 2 * NumberOfCarried(Half(a), Half(b), n)
  {
    hide Half;
    hide Bit;
    hide NumberOfSum;
    hide NumberOfCarried;
    var x, y := Half(a), Half(b);
    OneBit(a);
    OneBit(b);
    Apart(a);
    Apart(b);
    SumOfDoubled(x, y, n);
  }

  lemma CarriedStep(a: bv32, b: bv32, n: nat)
    requires n <= 31
    ensures Bit(a) + Bit(b) == 0 ==> NumberOfCarried(a, b, n + 1) == 2 * NumberOfSum(Half(a), Half(b), n) + 1
    ensures Bit(a) + Bit(b) == 1 ==> NumberOfCarried(a, b, n + 1) == 2 * NumberOfCarried(Half(a), Half(b), n)
    ensures Bit(a) + Bit(b) == 2 ==> NumberOfCarried(a, b, n + 1) == 2 * NumberOfCarried(Half(a), Half(b), n) + 1
  {
    hide Half;
    hide Bit;
    hide NumberOfSum;
    hide NumberOfCarried;
    var x, y := Half(a), Half(b);
    OneBit(a);
    OneBit(b);
    Apart(a);
    Apart(b);
    SumOfDoubled(x, y, n);
  }

  lemma NumberTwice(b: bv32, n: nat)
    requires n > 0
    ensures Number(b, n) == 2 * Number(Half(b), n - 1) + Bit(b)
  {
    hide Half;
    hide Bit;
  }

  /** The bits of a sum, with or without a carry, are those of the sum of the numbers. */
  lemma {:induction false} SumBits(a: bv32, b: bv32, n: nat)
    requires n <= 32
    ensures NumberOfSum(a, b, n) == (Number(a, n) + Number(b, n)) % Pow2(n)
    ensures NumberOfCarried(a, b, n) == (Number(a, n) + Number(b, n) + 1) % Pow2(n)
    decreases n
  {
    hide Half;
    hide Bit;
    hide NumberOfSum;
    hide NumberOfCarried;
    hide Number;
    if n > 0 {
      var x, y := Number(Half(a), n - 1), Number(Half(b), n - 1);
      OneBit(a);
      OneBit(b);
      NumberTwice(a, n);
      NumberTwice(b, n);
      SumStep(a, b, n - 1);
      CarriedStep(a, b, n - 1);
      SumBits(Half(a), Half(b), n - 1);
      RemaindersDoubled(x + y, Pow2(n - 1));
      RemaindersDoubled(x + y + 1, Pow2(n - 1));
    } else {
      NoSum(a, b);
    }
  }

  lemma RemaindersDoubled(m: nat, p: nat)
    requires p > 0
    ensures (2 * m) % (2 * p) == 2 * (m % p) && (2 * m + 1) % (2 * p) == 2 * (m % p) + 1
  {
    RemainderDoubled(m, 0, p);
    RemainderDoubled(m, 1, p);
  }

  lemma NoSum(a: bv32, b: bv32)
    ensures NumberOfSum(a, b, 0) == 0 == NumberOfCarried(a, b, 0)
    ensures Number(a, 0) == 0 == Number(b, 0)
  {
  }

  lemma WordOfSum(a: bv32, b: bv32)
    ensures Word(a + b) == (Word(a) + Word(b)) % 0x1_0000_0000
  {
    hide Number;
    hide NumberOfSum;
    hide NumberOfCarried;
    Pow2Words();
    Plain(a, b, 32);
    SumBits(a, b, 32);
  }

  lemma WordOfXor(a: bv32, b: bv32)
    ensures Word(a ^ b) == Xor(Word(a), Word(b))
  {
    hide Number;
    XorBits(a, b, 32);
  }

  // ---------- shifts and rotations ----------

  function Double(b: bv32): bv32 {
    b << 1
  }

  /** b, shifted right by one bit k times. */
  function Halves(b: bv32, k: nat): bv32
    decreases k
  {
    if k == 0 then b else Halves(Half(b), k - 1)
  }

  /** b, shifted left by one bit k times. */
  function Doubles(b: bv32, k: nat): bv32
    decreases k
  {
    if k == 0 then b else Doubles(Double(b), k - 1)
  }

  lemma {:induction false} HalvesAdd(b: bv32, m: nat, n: nat)
    ensures Halves(b, m + n) == Halves(Halves(b, m), n)
    decreases m
  {
    hide Half;
    if m > 0 {
      HalvesAdd(Half(b), m - 1, n);
    }
  }

  lemma {:induction false} DoublesAdd(b: bv32, m: nat, n: nat)
    ensures Doubles(b, m + n) == Doubles(Doubles(b, m), n)
    decreases m
  {
    hide Double;
    if m > 0 {
      DoublesAdd(Double(b), m - 1, n);
    }
  }

  lemma Shifted1()
    ensures forall b :: Halves(b, 1) == b >> 1
    ensures forall b :: Doubles(b, 1) == b << 1
  {
    forall b
      ensures Halves(b, 1) == b >> 1 && Doubles(b, 1) == b << 1
    {
      assert Halves(Half(b), 0) == b >> 1 && Doubles(Double(b), 0) == b << 1;
    }
  }

  lemma Shifted2()
    ensures forall b :: Halves(b, 2) == b >> 2
    ensures forall b :: Doubles(b, 2) == b << 2
  {
    hide Halves;
    hide Doubles;
    Shifted1();
    forall b
      ensures Halves(b, 2) == b >> 2
    {
      HalvesAdd(b, 1, 1);
    }
    forall b
      ensures Doubles(b, 2) == b << 2
    {
      DoublesAdd(b, 1, 1);
    }
  }

  lemma Shifted4()
    ensures forall b :: Halves(b, 4) == b >> 4
    ensures forall b :: Doubles(b, 4) == b << 4
  {
    hide Halves;
    hide Doubles;
    Shifted2();
    forall b
      ensures Halves(b, 4) == b >> 4
    {
      HalvesAdd(b, 2, 2);
    }
    forall b
      ensures Doubles(b, 4) == b << 4
    {
      DoublesAdd(b, 2, 2);
    }
  }

  lemma Shifted8()
    ensures forall b :: Halves(b, 8) == b >> 8
    ensures forall b :: Doubles(b, 8) == b << 8
  {
    hide Halves;
    hide Doubles;
    Shifted4();
    forall b
      ensures Halves(b, 8) == b >> 8
    {
      HalvesAdd(b, 4, 4);
    }
    forall b
      ensures Doubles(b, 8) == b << 8
    {
      DoublesAdd(b, 4, 4);
    }
  }

  lemma Shifted16()
    ensures forall b :: Halves(b, 16) == b >> 16
    ensures forall b :: Doubles(b, 16) == b << 16
  {
    hide Halves;
    hide Doubles;
    Shifted8();
    forall b
      ensures Halves(b, 16) == b >> 16
    {
      HalvesAdd(b, 8, 8);
    }
    forall b
      ensures Doubles(b, 16) == b << 16
    {
      DoublesAdd(b, 8, 8);
    }
  }

  lemma Shifted12()
    ensures forall b :: Halves(b, 12) == b >> 12
    ensures forall b :: Doubles(b, 12) == b << 12
  {
    hide Halves;
    hide Doubles;
    Shifted8();
    Shifted4();
    forall b
      ensures Halves(b, 12) == b >> 12
    {
      HalvesAdd(b, 8, 4);
    }
    forall b
      ensures Doubles(b, 12) == b << 12
    {
      DoublesAdd(b, 8, 4);
    }
  }

  lemma Shifted20()
    ensures forall b :: Halves(b, 20) == b >> 20
    ensures forall b :: Doubles(b, 20) == b << 20
  {
    hide Halves;
    hide Doubles;
    Shifted16();
    Shifted4();
    forall b
      ensures Halves(b, 20) == b >> 20
    {
      HalvesAdd(b, 16, 4);
    }
    forall b
      ensures Doubles(b, 20) == b << 20
    {
      DoublesAdd(b, 16, 4);
    }
  }

  lemma Shifted24()
    ensures forall b :: Halves(b, 24) == b >> 24
    ensures forall b :: Doubles(b, 24) == b << 24
  {
    hide Halves;
    hide Doubles;
    Shifted16();
    Shifted8();
    forall b
      ensures Halves(b, 24) == b >> 24
    {
      HalvesAdd(b, 16, 8);
    }
    forall b
      ensures Doubles(b, 24) == b << 24
    {
      DoublesAdd(b, 16, 8);
    }
  }

  lemma Shifted28()
    ensures forall b :: Halves(b, 28) == b >> 28
    ensures forall b :: Doubles(b, 28) == b << 28
  {
    hide Halves;
    hide Doubles;
    Shifted24();
    Shifted4();
    forall b
      ensures Halves(b, 28) == b >> 28
    {
      HalvesAdd(b, 24, 4);
    }
    forall b
      ensures Doubles(b, 28) == b << 28
    {
      DoublesAdd(b, 24, 4);
    }
  }

  lemma Shifted6()
    ensures forall b :: Halves(b, 6) == b >> 6
    ensures forall b :: Doubles(b, 6) == b << 6
  {
    hide Halves;
    hide Doubles;
    Shifted4();
    Shifted2();
    forall b
      ensures Halves(b, 6) == b >> 6
    {
      HalvesAdd(b, 4, 2);
    }
    forall b
      ensures Doubles(b, 6) == b << 6
    {
      DoublesAdd(b, 4, 2);
    }
  }

  lemma Shifted7()
    ensures forall b :: Halves(b, 7) == b >> 7
    ensures forall b :: Doubles(b, 7) == b << 7
  {
    hide Halves;
    hide Doubles;
    Shifted6();
    Shifted1();
    forall b
      ensures Halves(b, 7) == b >> 7
    {
      HalvesAdd(b, 6, 1);
    }
    forall b
      ensures Doubles(b, 7) == b << 7
    {
      DoublesAdd(b, 6, 1);
    }
  }

  lemma Shifted25()
    ensures forall b :: Halves(b, 25) == b >> 25
    ensures forall b :: Doubles(b, 25) == b << 25
  {
    hide Halves;
    hide Doubles;
    Shifted24();
    Shifted1();
    forall b
      ensures Halves(b, 25) == b >> 25
    {
      HalvesAdd(b, 24, 1);
    }
    forall b
      ensures Doubles(b, 25) == b << 25
    {
      DoublesAdd(b, 24, 1);
    }
  }

  /** The upper bits of a word are those of the shifted word. */
  lemma {:induction false} UpperBits(b: bv32, m: nat, n: nat)
    ensures Number(b, m + n) == Number(b, m) + Pow2(m) * Number(Halves(b, m), n)
    decreases m
  {
    hide Half;
    hide Bit;
    if m > 0 {
      UpperBits(Half(b), m - 1, n);
      TwiceProduct(Pow2(m - 1), Number(Halves(b, m), n));
    }
  }

  lemma TwiceProduct(p: nat, x: nat)
    ensures 2 * (p * x) == (2 * p) * x
  {
  }

  lemma {:induction false} BitsOfDoubles(b: bv32, n: nat, k: nat)
    requires n + k <= 32
    ensures Number(Doubles(b, k), n + k) == Pow2(k) * Number(b, n)
    decreases k
  {
    hide Double;
    hide Number;
    if k > 0 {
      BitsOfDoubles(Double(b), n + 1, k - 1);
      DoubledOnce(b, n);
      FactorOut(Pow2(k - 1), Number(b, n));
    }
  }

  lemma FactorOut(p: nat, x: nat)
    ensures p * (2 * x) == (2 * p) * x
  {
  }

  lemma DoubledOnce(b: bv32, n: nat)
    requires n <= 31
    ensures Number(Double(b), n + 1) == 2 * Number(b, n)
  {
    hide Number;
    Doubled(b, n);
    assert Double(b) == 2 * b;
  }

  /** Words that agree in their n lowest bits. */
  lemma LowerBits(x: bv32, y: bv32, n: nat, k: nat)
    requires n + k <= 32 && Doubles(x, k) == Doubles(y, k)
    ensures Number(x, n) == Number(y, n)
  {
    hide Number;
    hide Doubles;
    BitsOfDoubles(x, n, k);
    BitsOfDoubles(y, n, k);
    SameFactor(Pow2(k), Number(x, n), Number(y, n));
  }

  lemma SameFactor(p: nat, x: nat, y: nat)
    requires p > 0 && p * x == p * y
    ensures x == y
  {
  }

  /** r has the upper k bits of b below its other bits. */
  lemma Rotated(b: bv32, r: bv32, k: nat)
    requires 0 < k < 32
    requires Doubles(r, 32 - k) == Doubles(Halves(b, 32 - k), 32 - k)
    requires Doubles(Halves(r, k), k) == Doubles(b, k)
    ensures Word(r) == Rol32(Word(b), k)
  {
    hide Number;
    hide Doubles;
    hide Halves;
    hide Pow2;
    hide Or;
    var low, high := Number(b, 32 - k), Number(Halves(b, 32 - k), k);
    UpperBits(r, k, 32 - k);
    LowerBits(Halves(r, k), b, 32 - k, k);
    LowerBits(r, Halves(b, 32 - k), k, 32 - k);
    UpperBits(b, 32 - k, k);
    RotationIs(Word(b), low, high, k);
  }

  lemma RotationIs(x: u32, low: nat, high: nat, k: nat)
    requires 0 < k < 32 && low < Pow2(32 - k) && x == low + Pow2(32 - k) * high
    ensures Rol32(x, k) == high + Pow2(k) * low
  {
    hide Pow2;
    hide Or;
    QuotientUnique(x, Pow2(32 - k), high, low);
    FunnelShiftDivided(x, x, k);
    OrCommutes(Shl32(x, k), Shr(x, 32 - k));
    ProductCommutes(low, Pow2(k));
  }

  lemma ProductCommutes(x: nat, y: nat)
    ensures x * y == y * x
  {
  }

  lemma Rotated16(b: bv32)
    ensures Word((b << 16) | (b >> 16)) == Rol32(Word(b), 16)
  {
    hide Halves;
    hide Doubles;
    hide Word;
    Shifted16();
    Rotated(b, (b << 16) | (b >> 16), 16);
  }

  lemma Rotated12(b: bv32)
    ensures Word((b << 12) | (b >> 20)) == Rol32(Word(b), 12)
  {
    hide Halves;
    hide Doubles;
    hide Word;
    Shifted12();
    Shifted20();
    Rotated(b, (b << 12) | (b >> 20), 12);
  }

  lemma Rotated8(b: bv32)
    ensures Word((b << 8) | (b >> 24)) == Rol32(Word(b), 8)
  {
    hide Halves;
    hide Doubles;
    hide Word;
    Shifted8();
    Shifted24();
    Rotated(b, (b << 8) | (b >> 24), 8);
  }

  lemma Rotated7(b: bv32)
    ensures Word((b << 7) | (b >> 25)) == Rol32(Word(b), 7)
  {
    hide Halves;
    hide Doubles;
    hide Word;
    Shifted7();
    Shifted25();
    Rotated(b, (b << 7) | (b >> 25), 7);
  }

  // ---------- hexadecimal digits ----------

  /** The lowest hexadecimal digit. */
  function Digit(b: bv32): nat {
    8 * Bit(Half(Half(Half(b)))) + 4 * Bit(Half(Half(b))) + 2 * Bit(Half(b)) + Bit(b)
  }

  lemma DigitStep(b: bv32, n: nat)
    ensures Number(b, n + 4) == 16 * Number(Halves(b, 4), n) + Digit(b)
  {
    hide Half;
    hide Bit;
    assert Number(b, n + 4) == 2 * Number(Half(b), n + 3) + Bit(b);
    assert Number(Half(b), n + 3) == 2 * Number(Half(Half(b)), n + 2) + Bit(Half(b));
    assert Halves(b, 4) == Halves(Half(Half(b)), 2);
  }

  lemma {:induction false} ByDigits(b: bv32, n: nat)
    ensures Number(b, 4 * n) == SumOfDigits(b, n)
    decreases n
  {
    hide Digit;
    hide Halves;
    if n > 0 {
      ByDigits(Halves(b, 4), n - 1);
      DigitStep(b, 4 * (n - 1));
    } else {
      NoBits(b);
    }
  }

  function SumOfDigits(b: bv32, n: nat): nat
    decreases n
  {
    if n == 0 then 0 else 16 * SumOfDigits(Halves(b, 4), n - 1) + Digit(b)
  }

  lemma FourDigits(b: bv32, n: nat)
    ensures SumOfDigits(b, n + 4)
            == Digit(b) + 0x10 * Digit(Halves(b, 4)) + 0x100 * Digit(Halves(b, 8)) + 0x1000 * Digit(Halves(b, 12))
               + 0x1_0000 * SumOfDigits(Halves(b, 16), n)
  {
    hide Digit;
    hide Halves;
    HalvesAdd(b, 4, 4);
    HalvesAdd(b, 8, 4);
    HalvesAdd(b, 12, 4);
    assert SumOfDigits(b, n + 4) == 16 * SumOfDigits(Halves(b, 4), n + 3) + Digit(b);
    assert SumOfDigits(Halves(b, 4), n + 3) == 16 * SumOfDigits(Halves(b, 8), n + 2) + Digit(Halves(b, 4));
    assert SumOfDigits(Halves(b, 8), n + 2) == 16 * SumOfDigits(Halves(b, 12), n + 1) + Digit(Halves(b, 8));
  }

  lemma NoDigits(b: bv32)
    ensures SumOfDigits(b, 0) == 0
  {
  }

  lemma EightDigits(b: bv32)
    ensures Word(b)
            == Digit(b) + 0x10 * Digit(Halves(b, 4)) + 0x100 * Digit(Halves(b, 8)) + 0x1000 * Digit(Halves(b, 12))
               + 0x1_0000 * Digit(Halves(b, 16)) + 0x10_0000 * Digit(Halves(b, 20)) + 0x100_0000 * Digit(Halves(b, 24))
               + 0x1000_0000 * Digit(Halves(b, 28))
  {
    hide Number;
    hide Digit;
    hide Halves;
    hide SumOfDigits;
    hide Pow2;
    ByDigits(b, 8);
    FourDigits(b, 4);
    FourDigits(Halves(b, 16), 0);
    HalvesAdd(b, 16, 4);
    HalvesAdd(b, 16, 8);
    HalvesAdd(b, 16, 12);
    NoDigits(Halves(Halves(b, 16), 16));
  }

  /** A machine word, digit by digit. */
  lemma WordByDigits(b: bv32)
    ensures Word(b) == Digit(b) + 0x10 * Digit(b >> 4) + 0x100 * Digit(b >> 8) + 0x1000 * Digit(b >> 12) + 0x1_0000 * Digit(b >> 16)
                       + 0x10_0000 * Digit(b >> 20) + 0x100_0000 * Digit(b >> 24) + 0x1000_0000 * Digit(b >> 28)
  {
    hide Word;
    hide Digit;
    hide Halves;
    EightDigits(b);
    Shifted4();
    Shifted8();
    Shifted12();
    Shifted16();
    Shifted20();
    Shifted24();
    Shifted28();
  }
}

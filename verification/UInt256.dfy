/** BRInt.h: 256-bit unsigned arithmetic over the 32- and 64-bit views of one union, on a little-endian host. */
module Int256 {
  import opened Words

  type UInt256 = s: seq<u32> | |s| == 8 witness seq(8, _ => 0)
  type Words64 = s: seq<u64> | |s| == 4 witness seq(4, _ => 0)

  // ---------- numbers in words of w bits, least significant first ----------

  function Number(w: nat, s: seq<nat>): nat {
    if s == [] then 0 else s[0] + Shl(Number(w, s[1..]), w)
  }

  function Value(a: UInt256): nat {
    Number(32, a)
  }

  ghost predicate InWords(w: nat, s: seq<nat>) {
    forall i :: 0 <= i < |s| ==> s[i] < Pow2(w)
  }

  lemma {:induction false} NumberAppend(w: nat, s: seq<nat>, x: nat)
    ensures Number(w, s + [x]) == Number(w, s) + Shl(x, w * |s|)
  {
    if s == [] {
      assert [x][1..] == [];
      ShlOne(w);
    } else {
      NumberAppend(w, s[1..], x);
      assert (s + [x])[1..] == s[1..] + [x];
      ShlSum(Number(w, s[1..]), Shl(x, w * (|s| - 1)), w);
      ShlShl(x, w * (|s| - 1), w);
      assert w * (|s| - 1) + w == w * |s|;
    }
  }

  lemma NumberPrefix(w: nat, s: seq<nat>, i: nat)
    requires i < |s|
    ensures Number(w, s[..i + 1]) == Number(w, s[..i]) + Shl(s[i], w * i)
  {
    assert s[..i + 1] == s[..i] + [s[i]];
    NumberAppend(w, s[..i], s[i]);
  }

  lemma {:induction false} NumberBound(w: nat, s: seq<nat>)
    requires InWords(w, s)
    ensures Number(w, s) < Pow2(w * |s|)
  {
    if s == [] {
      assert w * 0 == 0;
    } else {
      NumberBound(w, s[1..]);
      var rest, n := Number(w, s[1..]), w * (|s| - 1);
      ShlMonotone(rest + 1, Pow2(n), w);
      ShlSum(rest, 1, w);
      ShlOne(w);
      Pow2Shl(n, w);
      assert n + w == w * |s|;
    }
  }

  /** Adding d to word j. */
  lemma {:induction false} NumberUpdate(w: nat, s: seq<nat>, j: nat, d: nat)
    requires j < |s|
    ensures Number(w, s[j := s[j] + d]) == Number(w, s) + Shl(d, w * j)
  {
    var t := s[j := s[j] + d];
    if j == 0 {
      assert t[1..] == s[1..];
      assert w * 0 == 0;
    } else {
      NumberUpdate(w, s[1..], j - 1, d);
      assert t[1..] == s[1..][j - 1 := s[1..][j - 1] + d];
      ShlSum(Number(w, s[1..]), Shl(d, w * (j - 1)), w);
      ShlShl(d, w * (j - 1), w);
      assert w * (j - 1) + w == w * j;
    }
  }

  lemma {:induction false} NumberOfZeros(w: nat, s: seq<nat>)
    requires forall i :: 0 <= i < |s| ==> s[i] == 0
    ensures Number(w, s) == 0
  {
    if s != [] {
      NumberOfZeros(w, s[1..]);
      ShlOne(w);
    }
  }

  // ---------- numbers modulo 2^256 ----------

  function Wrap(x: nat): nat {
    x % Pow2(256)
  }

  lemma WrapIs(r: nat, x: nat, dropped: nat)
    requires r < Pow2(256) && x == r + Shl(dropped, 256)
    ensures Wrap(x) == r
  {
    hide Pow2;
    ShlIsProduct(dropped, 256);
    QuotientUnique(x, Pow2(256), dropped, r);
  }

  lemma ValueFits(a: UInt256)
    ensures Value(a) < Pow2(256)
  {
    Pow2Words();
    NumberBound(32, a);
  }

  // ---------- the 64-bit view ----------

  function To64(a: UInt256): Words64 {
    [a[0] + W32 * a[1], a[2] + W32 * a[3], a[4] + W32 * a[5], a[6] + W32 * a[7]]
  }

  function To32(w: Words64): UInt256 {
    [w[0] % W32, w[0] / W32, w[1] % W32, w[1] / W32, w[2] % W32, w[2] / W32, w[3] % W32, w[3] / W32]
  }

  function Value64(w: Words64): nat {
    Number(64, w)
  }

  lemma PairOfWords(a: u32, b: u32, s: seq<u32>)
    ensures Number(32, [a, b] + s) == a + W32 * b + Shl(Number(32, s), 64)
  {
    hide Shl;
    var n := Number(32, s);
    assert ([a, b] + s)[1..][1..] == s;
    assert Number(32, ([a, b] + s)[1..]) == b + Shl(n, 32);
    ShlSum(b, Shl(n, 32), 32);
    ShlShl(n, 32, 32);
    ShlIsProduct(b, 32);
    Pow2Words();
  }

  /** Both views of the union are the same number. */
  lemma ViewsAgree(a: UInt256)
    ensures Value64(To64(a)) == Value(a)
  {
    hide Shl;
    PairOfWords(a[0], a[1], a[2..]);
    assert [a[0], a[1]] + a[2..] == a;
    PairOfWords(a[2], a[3], a[4..]);
    assert [a[2], a[3]] + a[4..] == a[2..];
    PairOfWords(a[4], a[5], a[6..]);
    assert [a[4], a[5]] + a[6..] == a[4..];
    PairOfWords(a[6], a[7], []);
    assert [a[6], a[7]] + [] == a[6..];
    var w := To64(a);
    FourWords(w);
  }

  lemma FourWords(w: Words64)
    ensures Number(64, w) == w[0] + Shl(w[1] + Shl(w[2] + Shl(w[3] + Shl(0, 64), 64), 64), 64)
  {
    hide Shl;
    assert w[1..][1..] == w[2..] && w[2..][1..] == w[3..] && w[3..][1..] == [];
    assert Number(64, w[3..]) == w[3] + Shl(0, 64);
    assert Number(64, w[2..]) == w[2] + Shl(Number(64, w[3..]), 64);
    assert Number(64, w[1..]) == w[1] + Shl(Number(64, w[2..]), 64);
  }

  lemma ViewBack(w: Words64)
    ensures To64(To32(w)) == w && Value(To32(w)) == Value64(w)
  {
    hide Number;
    assert To64(To32(w)) == w;
    ViewsAgree(To32(w));
  }

  // ---------- sums and differences ----------

  /** The first i words of a + b, with the carry. */
  ghost predicate Adding(a: seq<u32>, b: seq<u32>, r: seq<u32>, i: nat, carry: nat) {
    && i <= |a| == |b| == |r| && carry < W32
    && Number(32, a[..i]) + Number(32, b[..i]) == Number(32, r[..i]) + Shl(carry, 32 * i)
  }

  lemma AddingWord(a: seq<u32>, b: seq<u32>, r: seq<u32>, i: nat, carry: nat, sum: nat)
    requires i < |a| && Adding(a, b, r, i, carry) && sum == a[i] + b[i] + carry < W32 * W32
    ensures Adding(a, b, r[i := sum % W32], i + 1, sum / W32)
  {
    hide Shl;
    hide Number;
    var n, t := 32 * i, r[i := sum % W32];
    NumberPrefix(32, a, i);
    NumberPrefix(32, b, i);
    NumberPrefix(32, t, i);
    assert t[..i] == r[..i];
    var x: nat, y: nat := a[i], b[i];
    ShlSum(x, y, n);
    ShlSum(x + y, carry, n);
    WordAndCarry(sum, n);
  }

  /** A sum at bit n is its low word there and its carry 32 bits further up. */
  lemma WordAndCarry(sum: nat, n: nat)
    ensures Shl(sum, n) == Shl(sum % W32, n) + Shl(sum / W32, n + 32)
  {
    hide Shl;
    var lo, hi := sum % W32, sum / W32;
    Pow2Words();
    ShlIsProduct(hi, 32);
    assert sum == lo + Shl(hi, 32);
    ShlSum(lo, Shl(hi, 32), n);
    ShlShl(hi, 32, n);
  }

  method Add(a: UInt256, b: UInt256) returns (r: UInt256)
    ensures Value(r) == Wrap(Value(a) + Value(b))
  {
    hide Adding;
    hide Wrap;
    var carry: u64 := 0;
    r := seq(8, _ => 0);
    AddingStarts(a, b, r);
    var i := 0;
    while i < 8
      invariant i <= 8 && carry < 2 && Adding(a, b, r, i, carry)
    {
      var sum: u64 := a[i] + b[i] + carry;
      AddingWord(a, b, r, i, carry, sum);
      r := r[i := sum % W32];
      carry := sum / W32;
      i := i + 1;
    }
    AddingEnds(a, b, r, carry);
  }

  lemma AddingStarts(a: UInt256, b: UInt256, r: UInt256)
    ensures Adding(a, b, r, 0, 0)
  {
  }

  lemma AddingEnds(a: UInt256, b: UInt256, r: UInt256, carry: nat)
    requires Adding(a, b, r, 8, carry)
    ensures Value(r) == Wrap(Value(a) + Value(b))
  {
    hide Shl;
    hide Number;
    hide Pow2;
    hide Wrap;
    assert a[..8] == a && b[..8] == b && r[..8] == r;
    ValueFits(r);
    WrapIs(Value(r), Value(a) + Value(b), carry);
  }

  function OfWord(n: u32): UInt256 {
    [n, 0, 0, 0, 0, 0, 0, 0]
  }

  lemma ValueOfWord(n: u32)
    ensures Value(OfWord(n)) == n
  {
    var s := OfWord(n);
    NumberOfZeros(32, s[1..]);
    ShlOne(32);
  }

  method AddOne(a: UInt256) returns (r: UInt256)
    ensures Value(r) == Wrap(Value(a) + 1)
  {
    ValueOfWord(1);
    r := Add(a, OfWord(1));
  }

  /** The first i words of a complement. */
  ghost predicate Complementing(a: Words64, r: Words64, i: nat) {
    i <= 4 && Number(64, a[..i]) + Number(64, r[..i]) + 1 == Pow2(64 * i)
  }

  lemma ComplementWord(a: Words64, r: Words64, i: nat)
    requires i < 4 && Complementing(a, r, i)
    ensures Complementing(a, r[i := W64 - 1 - a[i]], i + 1)
  {
    hide Number;
    hide Shl;
    hide Pow2;
    var n, t := 64 * i, r[i := W64 - 1 - a[i]];
    NumberPrefix(64, a, i);
    NumberPrefix(64, t, i);
    assert t[..i] == r[..i];
    ShlSum(a[i], t[i], n);
    ShlSum(W64 - 1, 1, n);
    ShlOne(n);
    Pow2Words();
    Pow2Shl(64, n);
  }

  lemma ComplementStarts(a: Words64, r: Words64)
    ensures Complementing(a, r, 0)
  {
  }

  lemma ComplementEnds(a: Words64, r: Words64)
    requires Complementing(a, r, 4)
    ensures Value64(a) + Value64(r) + 1 == Pow2(256)
  {
    hide Number;
    hide Pow2;
    assert a[..4] == a && r[..4] == r;
  }

  /** neg: the bitwise complement. */
  method Neg(a: UInt256) returns (r: UInt256)
    ensures Value(a) + Value(r) + 1 == Pow2(256)
  {
    hide Complementing;
    hide Number;
    hide Pow2;
    var u, w: Words64 := To64(a), [0, 0, 0, 0];
    ComplementStarts(u, w);
    var i := 0;
    while i < 4
      invariant i <= 4 && Complementing(u, w, i)
    {
      ComplementWord(u, w, i);
      w := w[i := W64 - 1 - u[i]];
      i := i + 1;
    }
    ComplementEnds(u, w);
    r := To32(w);
    ViewsAgree(a);
    ViewBack(w);
  }

  lemma WrapAdds(x: nat, y: nat)
    ensures Wrap(x + Wrap(y)) == Wrap(x + y)
  {
    hide Pow2;
    var m, k := Pow2(256), y / Pow2(256);
    assert y == m * k + y % m;
    assert x + y == (x + y % m) + m * k;
    ModPlusMultiple(x + y % m, m, k);
  }

  lemma WrapSmall(x: nat)
    ensures x < Pow2(256) ==> Wrap(x) == x
    ensures Wrap(x + Pow2(256)) == Wrap(x)
  {
    hide Pow2;
    ModPlusMultiple(x, Pow2(256), 1);
  }

  /** subtract: a - b, wrapping around below zero. */
  method Subtract(a: UInt256, b: UInt256) returns (r: UInt256)
    ensures Value(r) == if Value(a) >= Value(b) then Value(a) - Value(b) else Value(a) + Pow2(256) - Value(b)
  {
    hide Pow2;
    hide Wrap;
    hide Number;
    var n := Neg(b);
    var m := AddOne(n);
    r := Add(a, m);
    ValueFits(a);
    ValueFits(b);
    WrapAdds(Value(a), Value(n) + 1);
    if Value(a) >= Value(b) {
      WrapSmall(Value(a) - Value(b));
    } else {
      WrapSmall(Value(a) + Pow2(256) - Value(b));
    }
  }

  // ---------- order ----------

  /** UInt256SupEq, by 64-bit words from the top. */
  function SupEq(a: UInt256, b: UInt256): bool {
    var x, y := To64(a), To64(b);
    x[3] > y[3] || (x[3] == y[3] && (x[2] > y[2] || (x[2] == y[2] && (x[1] > y[1] || (x[1] == y[1] && x[0] >= y[0])))))
  }

  lemma TopDecides(lo: nat, hi: nat, lo': nat, hi': nat)
    requires lo < W64 && lo' < W64
    ensures hi > hi' ==> lo + Shl(hi, 64) > lo' + Shl(hi', 64)
  {
    hide Shl;
    if hi > hi' {
      ShlMonotone(hi' + 1, hi, 64);
      ShlSum(hi', 1, 64);
      ShlOne(64);
      Pow2Words();
    }
  }

  /** The comparison of words is the comparison of numbers. */
  lemma SupEqCompares(a: UInt256, b: UInt256)
    ensures SupEq(a, b) <==> Value(a) >= Value(b)
  {
    hide Shl;
    hide To64;
    hide Number;
    var x, y := To64(a), To64(b);
    ViewsAgree(a);
    ViewsAgree(b);
    FourWords(x);
    FourWords(y);
    ShlOne(64);
    var x3, y3 := x[3] + Shl(0, 64), y[3] + Shl(0, 64);
    var x2, y2 := x[2] + Shl(x3, 64), y[2] + Shl(y3, 64);
    var x1, y1 := x[1] + Shl(x2, 64), y[1] + Shl(y2, 64);
    Compare(x[2], x3, y[2], y3);
    Compare(x[1], x2, y[1], y2);
    Compare(x[0], x1, y[0], y1);
  }

  lemma Compare(lo: u64, hi: nat, lo': u64, hi': nat)
    ensures lo + Shl(hi, 64) > lo' + Shl(hi', 64) <==> hi > hi' || (hi == hi' && lo > lo')
    ensures lo + Shl(hi, 64) == lo' + Shl(hi', 64) <==> hi == hi' && lo == lo'
  {
    hide Shl;
    TopDecides(lo, hi, lo', hi');
    TopDecides(lo', hi', lo, hi);
  }

  // ---------- shifts ----------

  function Shl64(x: u64, k: nat): u64 {
    Shl(x, k) % W64
  }

  function Shr64(x: u64, k: nat): u64 {
    ShrFits(x, k);
    Shr(x, k)
  }

  lemma {:induction false} ShrFits(x: nat, k: nat)
    ensures Shr(x, k) <= x
  {
    if k > 0 {
      ShrFits(x / 2, k - 1);
    }
  }

  function Or64(x: u64, y: u64): u64 {
    Pow2Words();
    OrFits(x, y, 64);
    Or(x, y)
  }

  lemma {:induction false} OrFits(x: nat, y: nat, k: nat)
    requires x < Pow2(k) && y < Pow2(k)
    ensures Or(x, y) < Pow2(k)
    decreases k
  {
    if k > 0 && x > 0 && y > 0 {
      OrFits(x / 2, y / 2, k - 1);
    }
  }

  lemma OrWithNothing(x: u64)
    ensures Or64(0, x) == x
  {
  }

  lemma MultipleOfW64(x: nat, lo: nat, hi: nat)
    requires x == lo + hi * W64 && lo < W64
    ensures x % W64 == lo
  {
  }

  /** The low 64 - k bits of x stay in the word; the high k bits leave it. */
  lemma Shl64Drops(x: u64, k: nat)
    requires k <= 64
    ensures Shl64(x, k) == Shl(Low(x, 64 - k), k)
    ensures Shr64(x, 64 - k) < Pow2(k) && x == Low(x, 64 - k) + Shl(Shr64(x, 64 - k), 64 - k)
  {
    hide Shl;
    hide Shr;
    hide Low;
    hide Pow2;
    var lo, hi := Low(x, 64 - k), Shr(x, 64 - k);
    Cut(x, 64 - k);
    ShlSum(lo, Shl(hi, 64 - k), k);
    ShlShl(hi, 64 - k, k);
    ShlIsProduct(hi, 64);
    Pow2Words();
    ShrBound(x, k, 64 - k);
    ShlBound(lo, 64 - k, k);
    MultipleOfW64(Shl(x, k), Shl(lo, k), hi);
  }

  /** Bits below k or-ed with a word shifted up by k. */
  lemma OrBelow(y: u64, x: u64, k: nat)
    requires k <= 64 && y < Pow2(k)
    ensures Or64(y, Shl64(x, k)) == y + Shl(Low(x, 64 - k), k)
  {
    hide Shl;
    hide Low;
    Shl64Drops(x, k);
    OrDisjoint(y, Low(x, 64 - k), k);
  }

  /** The first i words of a, shifted up by k words and b bits, are in r and, above 2^256, in dropped. */
  ghost predicate ShiftingUp(a: Words64, r: Words64, k: nat, b: nat, i: nat, dropped: nat) {
    && k < 4 && b < 64 && i <= 4
    && Shl(Number(64, a[..i]), 64 * k + b) == Number(64, r) + Shl(dropped, 256)
    && (i + k < 4 ==> r[i + k] < Pow2(b))
    && (forall j :: i + k < j < 4 ==> r[j] == 0)
  }

  /** What one iteration does to the words. */
  function ShiftUpWord(a: Words64, r: Words64, k: nat, b: nat, i: nat): Words64
    requires i < 4 && b < 64
  {
    var t := if i + k + 1 < 4 && b != 0 then r[i + k + 1 := Or64(r[i + k + 1], Shr64(a[i], 64 - b))] else r;
    if i + k < 4 then t[i + k := Or64(t[i + k], Shl64(a[i], b))] else t
  }

  lemma ShiftUpStep(a: Words64, r: Words64, k: nat, b: nat, i: nat, dropped: nat) returns (dropped': nat)
    requires i < 4 && ShiftingUp(a, r, k, b, i, dropped)
    ensures ShiftingUp(a, ShiftUpWord(a, r, k, b, i), k, b, i + 1, dropped')
  {
    hide Number;
    hide Shl;
    hide Low;
    hide Shr;
    hide Pow2;
    hide Or64;
    hide Shl64;
    hide Shr64;
    var n := 64 * k + b;
    var lo, hi := Low(a[i], 64 - b), Shr64(a[i], 64 - b);
    Shl64Drops(a[i], b);
    NumberPrefix(64, a, i);
    ShlSum(Number(64, a[..i]), Shl(a[i], 64 * i), n);
    ShlShl(a[i], 64 * i, n);
    WordShiftedUp(a[i], lo, hi, b, 64 * (i + k));
    assert 64 * i + n == b + 64 * (i + k);
    ShiftUpPlaces(a, r, k, b, i, lo, hi);
    dropped' := dropped + (if i + k < 4 then 0 else Shl(Shl(lo, b), 64 * (i + k - 4)))
    + (if i + k + 1 < 4 then 0 else Shl(hi, 64 * (i + k - 3)));
    if i + k >= 4 {
      ShlShl(Shl(lo, b), 64 * (i + k - 4), 256);
      ShlSum(dropped, Shl(Shl(lo, b), 64 * (i + k - 4)), 256);
    }
    if i + k + 1 >= 4 {
      ShlShl(hi, 64 * (i + k - 3), 256);
      ShlSum(dropped + (if i + k < 4 then 0 else Shl(Shl(lo, b), 64 * (i + k - 4))), Shl(hi, 64 * (i + k - 3)), 256);
    }
  }

  /** x at bit b + m, as its part inside the word at m and its part in the next word. */
  lemma WordShiftedUp(x: nat, lo: nat, hi: nat, b: nat, m: nat)
    requires b < 64 && x == lo + Shl(hi, 64 - b)
    ensures Shl(x, b + m) == Shl(Shl(lo, b), m) + Shl(hi, 64 + m)
  {
    hide Shl;
    ShlSum(lo, Shl(hi, 64 - b), b + m);
    ShlShl(lo, b, m);
    ShlShl(hi, 64 - b, b + m);
  }

  lemma ShiftUpPlaces(a: Words64, r: Words64, k: nat, b: nat, i: nat, lo: nat, hi: nat)
    requires i < 4 && k < 4 && b < 64
    requires lo == Low(a[i], 64 - b) && hi == Shr64(a[i], 64 - b) < Pow2(b)
    requires (i + k < 4 ==> r[i + k] < Pow2(b)) && (forall j :: i + k < j < 4 ==> r[j] == 0)
    ensures var t := ShiftUpWord(a, r, k, b, i);
            && Number(64, t) == Number(64, r) + (if i + k < 4 then Shl(Shl(lo, b), 64 * (i + k)) else 0)
                              + (if i + k + 1 < 4 then Shl(hi, 64 * (i + k + 1)) else 0)
            && (i + 1 + k < 4 ==> t[i + 1 + k] < Pow2(b))
            && (forall j :: i + 1 + k < j < 4 ==> t[j] == 0)
  {
    hide Number;
    hide Shl;
    hide Low;
    hide Shr;
    hide Or64;
    hide Shl64;
    hide Shr64;
    var t := r;
    if i + k + 1 < 4 {
      if b == 0 {
        ShlOne(64 * (i + k + 1));
      } else {
        OrWithNothing(hi);
        NumberUpdate(64, r, i + k + 1, hi);
        t := r[i + k + 1 := hi];
      }
    }
    if i + k < 4 {
      OrBelow(t[i + k], a[i], b);
      NumberUpdate(64, t, i + k, Shl(lo, b));
    }
  }

  lemma ShiftUpStarts(a: Words64, k: nat, b: nat)
    requires k < 4 && b < 64
    ensures ShiftingUp(a, [0, 0, 0, 0], k, b, 0, 0)
  {
    hide Shl;
    NumberOfZeros(64, [0, 0, 0, 0]);
    ShlOne(64 * k + b);
    ShlOne(256);
  }

  lemma ShiftUpEnds(a: Words64, r: Words64, k: nat, b: nat, dropped: nat)
    requires ShiftingUp(a, r, k, b, 4, dropped)
    ensures Value64(r) == Wrap(Shl(Value64(a), 64 * k + b))
  {
    hide Number;
    hide Shl;
    hide Wrap;
    hide Pow2;
    assert a[..4] == a;
    Pow2Words();
    NumberBound(64, r);
    WrapIs(Value64(r), Shl(Value64(a), 64 * k + b), dropped);
  }

  method ShiftLeft(a: UInt256, bits: byte) returns (r: UInt256)
    ensures Value(r) == Wrap(Shl(Value(a), bits))
  {
    hide Number;
    hide Wrap;
    hide Shl;
    hide Or64;
    hide Shl64;
    hide Shr64;
    hide ShiftingUp;
    var u, w: Words64 := To64(a), [0, 0, 0, 0];
    var k, b := bits / 64, bits % 64;
    ghost var dropped := 0;
    ShiftUpStarts(u, k, b);
    var i := 0;
    while i < 4
      invariant i <= 4 && ShiftingUp(u, w, k, b, i, dropped)
    {
      dropped := ShiftUpStep(u, w, k, b, i, dropped);
      ghost var next := ShiftUpWord(u, w, k, b, i);
      if i + k + 1 < 4 && b != 0 {
        w := w[i + k + 1 := Or64(w[i + k + 1], Shr64(u[i], 64 - b))];
      }
      if i + k < 4 {
        w := w[i + k := Or64(w[i + k], Shl64(u[i], b))];
      }
      assert w == next;
      i := i + 1;
    }
    ShiftUpEnds(u, w, k, b, dropped);
    r := To32(w);
    ViewsAgree(a);
    ViewBack(w);
  }

  /** The first i words of a are r shifted up by k words and b bits, and rem below. */
  ghost predicate ShiftingDown(a: Words64, r: Words64, k: nat, b: nat, i: nat, rem: nat) {
    && k < 4 && b < 64 && i <= 4
    && Number(64, a[..i]) == rem + Shl(Number(64, r), 64 * k + b)
    && rem < Pow2(if i <= k then 64 * i else 64 * k + b)
    && (forall j :: 0 <= j < 4 && i <= j + k ==> r[j] == 0)
    && (i > k ==> r[i - k - 1] < Pow2(64 - b))
  }

  function ShiftDownWord(a: Words64, r: Words64, k: nat, b: nat, i: nat): Words64
    requires i < 4 && b < 64
  {
    var t := if i - k - 1 >= 0 && b != 0 then r[i - k - 1 := Or64(r[i - k - 1], Shl64(a[i], 64 - b))] else r;
    if i - k >= 0 then t[i - k := Or64(t[i - k], Shr64(a[i], b))] else t
  }

  lemma ShiftDownStep(a: Words64, r: Words64, k: nat, b: nat, i: nat, rem: nat) returns (rem': nat)
    requires i < 4 && ShiftingDown(a, r, k, b, i, rem)
    ensures ShiftingDown(a, ShiftDownWord(a, r, k, b, i), k, b, i + 1, rem')
  {
    hide Number;
    hide Shl;
    hide Low;
    hide Shr;
    hide Pow2;
    hide Or64;
    hide Shl64;
    hide Shr64;
    NumberPrefix(64, a, i);
    if i < k {
      rem' := rem + Shl(a[i], 64 * i);
      Below(rem, a[i], 64 * i);
    } else {
      var lo, hi := Low(a[i], b), Shr64(a[i], b);
      CutWord(a[i], b);
      WordCut(a[i], lo, hi, b, 64 * i);
      if i == k {
        rem' := rem + Shl(lo, 64 * i);
        BelowNext(rem, a[i], 64 * i, b);
        FirstPlace(a, r, k, b);
      } else {
        rem' := rem;
        LaterPlace(a, r, k, b, i);
      }
    }
  }

  lemma Below(rem: nat, x: u64, n: nat)
    requires rem < Pow2(n)
    ensures rem + Shl(x, n) < Pow2(n + 64)
  {
    hide Shl;
    Pow2Words();
    ShlMonotone(x + 1, Pow2(64), n);
    ShlSum(x, 1, n);
    ShlOne(n);
    Pow2Shl(64, n);
  }

  lemma CutWord(x: u64, b: nat)
    requires b < 64
    ensures x == Low(x, b) + Shl(Shr64(x, b), b) && Shr64(x, b) < Pow2(64 - b) && Low(x, b) < Pow2(b)
  {
    Cut(x, b);
    Pow2Words();
    ShrBound(x, 64 - b, b);
  }

  lemma WordCut(x: nat, lo: nat, hi: nat, b: nat, m: nat)
    requires x == lo + Shl(hi, b)
    ensures Shl(x, m) == Shl(lo, m) + Shl(hi, m + b)
  {
    hide Shl;
    ShlSum(lo, Shl(hi, b), m);
    ShlShl(hi, b, m);
  }

  /** The first word that is not shifted out altogether. */
  lemma FirstPlace(a: Words64, r: Words64, k: nat, b: nat)
    requires k < 4 && b < 64 && forall j :: 0 <= j < 4 ==> r[j] == 0
    requires Shr64(a[k], b) < Pow2(64 - b)
    ensures var t := ShiftDownWord(a, r, k, b, k);
            && Shl(Number(64, t), 64 * k + b) == Shl(Number(64, r), 64 * k + b) + Shl(Shr64(a[k], b), 64 * k + b)
            && t[0] < Pow2(64 - b) && forall j :: 1 <= j < 4 ==> t[j] == 0
  {
    hide Number;
    hide Shl;
    hide Or64;
    hide Shr64;
    var hi := Shr64(a[k], b);
    OrWithNothing(hi);
    NumberUpdate(64, r, 0, hi);
    ShlZeroBits(hi);
    ShlSum(Number(64, r), hi, 64 * k + b);
  }

  lemma ShlZeroBits(x: nat)
    ensures Shl(x, 64 * 0) == x
  {
  }

  lemma LaterPlace(a: Words64, r: Words64, k: nat, b: nat, i: nat)
    requires k < i < 4 && b < 64 && (forall j :: 0 <= j < 4 && i <= j + k ==> r[j] == 0) && r[i - k - 1] < Pow2(64 - b)
    requires Shr64(a[i], b) < Pow2(64 - b)
    ensures var t := ShiftDownWord(a, r, k, b, i);
            && Shl(Number(64, t), 64 * k + b)
               == Shl(Number(64, r), 64 * k + b) + Shl(Low(a[i], b), 64 * i) + Shl(Shr64(a[i], b), 64 * i + b)
            && t[i - k] < Pow2(64 - b) && forall j :: 0 <= j < 4 && i < j + k ==> t[j] == 0
  {
    hide Number;
    hide Shl;
    hide Low;
    hide Or64;
    hide Shl64;
    hide Shr64;
    var lo, hi, n, m := Low(a[i], b), Shr64(a[i], b), 64 * k + b, 64 * (i - k - 1);
    var t := r;
    if b == 0 {
      LowNothing(a[i], 64 * i);
    } else {
      OrBelow(r[i - k - 1], a[i], 64 - b);
      NumberUpdate(64, r, i - k - 1, Shl(lo, 64 - b));
      t := r[i - k - 1 := r[i - k - 1] + Shl(lo, 64 - b)];
      ShlSum(Number(64, r), Shl(Shl(lo, 64 - b), m), n);
      ShlShl(Shl(lo, 64 - b), m, n);
      ShlShl(lo, 64 - b, m + n);
      assert 64 - b + (m + n) == 64 * i;
    }
    OrWithNothing(hi);
    NumberUpdate(64, t, i - k, hi);
    ShlSum(Number(64, t), Shl(hi, 64 * (i - k)), n);
    ShlShl(hi, 64 * (i - k), n);
    assert 64 * (i - k) + n == 64 * i + b;
  }

  lemma LowNothing(x: nat, m: nat)
    ensures Shl(Low(x, 0), m) == 0
  {
    ShlOne(m);
  }

  lemma ShiftDownStarts(a: Words64, k: nat, b: nat)
    requires k < 4 && b < 64
    ensures ShiftingDown(a, [0, 0, 0, 0], k, b, 0, 0)
  {
    hide Shl;
    NumberOfZeros(64, [0, 0, 0, 0]);
    ShlOne(64 * k + b);
  }

  lemma ShiftDownEnds(a: Words64, r: Words64, k: nat, b: nat, rem: nat)
    requires ShiftingDown(a, r, k, b, 4, rem)
    ensures Value64(r) == Value64(a) / Pow2(64 * k + b)
  {
    hide Number;
    hide Shl;
    hide Pow2;
    assert a[..4] == a;
    ShlIsProduct(Value64(r), 64 * k + b);
    QuotientUnique(Value64(a), Pow2(64 * k + b), Value64(r), rem);
  }

  method ShiftRight(a: UInt256, bits: byte) returns (r: UInt256)
    ensures Value(r) == Value(a) / Pow2(bits)
  {
    hide Number;
    hide Pow2;
    hide Or64;
    hide Shl64;
    hide Shr64;
    hide ShiftingDown;
    var u, w: Words64 := To64(a), [0, 0, 0, 0];
    var k, b := bits / 64, bits % 64;
    ghost var rem := 0;
    ShiftDownStarts(u, k, b);
    var i := 0;
    while i < 4
      invariant i <= 4 && ShiftingDown(u, w, k, b, i, rem)
    {
      rem := ShiftDownStep(u, w, k, b, i, rem);
      ghost var next := ShiftDownWord(u, w, k, b, i);
      if i - k - 1 >= 0 && b != 0 {
        w := w[i - k - 1 := Or64(w[i - k - 1], Shl64(u[i], 64 - b))];
      }
      if i - k >= 0 {
        w := w[i - k := Or64(w[i - k], Shr64(u[i], b))];
      }
      assert w == next;
      i := i + 1;
    }
    ShiftDownEnds(u, w, k, b, rem);
    r := To32(w);
    ViewsAgree(a);
    ViewBack(w);
  }

  // ---------- bit lengths ----------

  function BitLength(n: nat): nat {
    if n == 0 then 0 else 1 + BitLength(n / 2)
  }

  lemma {:induction false} BitLengthBounds(n: nat)
    ensures n < Pow2(BitLength(n))
    ensures n > 0 ==> BitLength(n) > 0 && Pow2(BitLength(n) - 1) <= n
  {
    if n > 0 {
      BitLengthBounds(n / 2);
    }
  }

  /** n has l bits if it lies between the powers of two around it. */
  lemma BitLengthIs(n: nat, l: nat)
    requires l > 0 && Pow2(l - 1) <= n < Pow2(l)
    ensures BitLength(n) == l
  {
    hide BitLength;
    BitLengthBounds(n);
    var m := BitLength(n);
    if m < l {
      Pow2Monotone(m, l - 1);
    } else if m > l {
      Pow2Monotone(l, m - 1);
    }
  }

  lemma BitLengthFits(n: nat, k: nat)
    ensures BitLength(n) <= k <==> n < Pow2(k)
  {
    hide BitLength;
    NoBits();
    BitLengthBounds(n);
    var m := BitLength(n);
    if m <= k {
      Pow2Monotone(m, k);
    } else {
      Pow2Monotone(k, m - 1);
    }
  }

  /** Testing bit n of a number below 2^(n+1) compares it with 2^n. */
  lemma {:induction false} TopBit(x: nat, n: nat)
    requires x < Pow2(n + 1)
    ensures And(x, Pow2(n)) != 0 <==> x >= Pow2(n)
  {
    if n == 0 {
      AndStep(x, 1);
      AndZero(x / 2);
    } else {
      TopBit(x / 2, n - 1);
      AndStep(x, Pow2(n));
    }
  }

  /** bits, for one word that is not zero. */
  method WordBits(x: u32) returns (n: nat)
    requires x != 0
    ensures n == BitLength(x)
  {
    hide Pow2;
    Pow2Words();
    n := 31;
    while n > 0
      invariant 0 <= n <= 31 && x < Pow2(n + 1)
    {
      TopBit(x, n);
      if And(x, Pow2(n)) != 0 {
        BitLengthIs(x, n + 1);
        return n + 1;
      }
      n := n - 1;
    }
    Pow2Zero();
    assert n + 1 == 1;
    BitLengthIs(x, 1);
    n := 1;
  }

  lemma Pow2Zero()
    ensures Pow2(0) == 1 && Pow2(1) == 2
  {
  }

  lemma {:induction false} NumberWithoutTop(w: nat, s: seq<nat>, i: nat)
    requires i <= |s| && forall j :: i <= j < |s| ==> s[j] == 0
    ensures Number(w, s) == Number(w, s[..i])
    decreases |s| - i
  {
    if i == |s| {
      assert s[..i] == s;
    } else {
      NumberWithoutTop(w, s, i + 1);
      NumberPrefix(w, s, i);
      ShlOne(w * i);
    }
  }

  /** The bits of a number whose highest word that is not zero is word i. */
  lemma BitsAtWord(a: UInt256, i: nat, l: nat)
    requires i < 8 && a[i] != 0 && (forall j :: i < j < 8 ==> a[j] == 0) && l == BitLength(a[i])
    ensures BitLength(Value(a)) == 32 * i + l
  {
    hide Number;
    hide Shl;
    hide Pow2;
    hide BitLength;
    Pow2Words();
    NumberWithoutTop(32, a, i + 1);
    NumberPrefix(32, a, i);
    NumberBound(32, a[..i]);
    BitLengthBounds(a[i]);
    var x, m := a[i] as nat, 32 * i;
    ShlMonotone(Pow2(l - 1), x, m);
    Pow2Shl(l - 1, m);
    ShlMonotone(x + 1, Pow2(l), m);
    ShlSum(x, 1, m);
    ShlOne(m);
    Pow2Shl(l, m);
    BitLengthIs(Value(a), m + l);
  }

  /** bits: the bit length, in the eight bits of its result, so that 256 comes out as 0. */
  method Bits(a: UInt256) returns (r: byte)
    ensures r == BitLength(Value(a)) % 256
  {
    hide BitLength;
    hide Number;
    var pos := 7;
    while pos >= 0
      invariant -1 <= pos <= 7
      invariant forall j :: pos < j < 8 ==> a[j] == 0
    {
      if a[pos] != 0 {
        var n := WordBits(a[pos]);
        BitsAtWord(a, pos, n);
        return (32 * pos + n) % 256;
      }
      pos := pos - 1;
    }
    NumberOfZeros(32, a);
    NoBits();
    r := 0;
  }

  lemma NoBits()
    ensures BitLength(0) == 0
  {
  }

  // ---------- division ----------

  /** r |= 1 << shift, as divide writes it. */
  function WithBit(r: UInt256, shift: nat): UInt256
    requires shift < 256
  {
    Pow2Words();
    Pow2Monotone(shift % 32 + 1, 32);
    OrFits(r[shift / 32], Pow2(shift % 32), 32);
    r[shift / 32 := Or(r[shift / 32], Pow2(shift % 32))]
  }

  /** The n low bits of r are zero. */
  ghost predicate LowBitsClear(r: UInt256, n: nat) {
    forall j :: 0 <= j < 8 ==> (32 * j + 32 <= n ==> r[j] == 0) && (32 * j <= n < 32 * j + 32 ==> Low(r[j], n % 32) == 0)
  }

  lemma {:induction false} LowOfMore(x: nat, m: nat)
    requires Low(x, m + 1) == 0
    ensures Low(x, m) == 0
  {
    if m > 0 {
      LowOfMore(x / 2, m - 1);
    }
  }

  lemma LowOfZero(m: nat)
    ensures Low(0, m) == 0
  {
    if m > 0 {
      LowOfZero(m - 1);
    }
  }

  lemma {:induction false} LowOfPower(y: nat, m: nat)
    ensures Low(Pow2(m) + Shl(y, m), m) == 0
  {
    if m > 0 {
      LowOfPower(y, m - 1);
    }
  }

  /** Setting bit m of a word whose m + 1 low bits are zero adds 2^m and leaves m low bits zero. */
  lemma BitAdded(x: u32, m: nat)
    requires m < 32 && Low(x, m + 1) == 0
    ensures Or(x, Pow2(m)) == x + Pow2(m) && Low(Or(x, Pow2(m)), m) == 0
  {
    hide Shl;
    hide Low;
    hide Pow2;
    hide Or;
    var y := Shr(x, m + 1);
    Cut(x, m + 1);
    Pow2Less(m);
    OrDisjoint(Pow2(m), y, m + 1);
    OrCommutes(x, Pow2(m));
    ShlShl(y, 1, m);
    LowOfPower(Shl(y, 1), m);
  }

  lemma Pow2Less(m: nat)
    ensures Pow2(m) < Pow2(m + 1)
  {
  }

  lemma ClearBelow(r: UInt256, shift: nat)
    requires shift < 256 && LowBitsClear(r, shift + 1)
    ensures LowBitsClear(r, shift) && Low(r[shift / 32], shift % 32 + 1) == 0
  {
    hide Low;
    var j, m := shift / 32, shift % 32;
    if m == 31 {
      assert 32 * j + 32 <= shift + 1;
      LowOfZero(31);
      LowOfZero(32);
    } else {
      assert (shift + 1) % 32 == m + 1 && 32 * j <= shift + 1 < 32 * j + 32;
      LowOfMore(r[j], m);
    }
  }

  lemma BitSet(r: UInt256, shift: nat)
    requires shift < 256 && LowBitsClear(r, shift + 1)
    ensures LowBitsClear(WithBit(r, shift), shift)
    ensures Value(WithBit(r, shift)) == Value(r) + Pow2(shift)
  {
    hide Number;
    hide Low;
    hide Or;
    hide Pow2;
    var j, m := shift / 32, shift % 32;
    ClearBelow(r, shift);
    BitAdded(r[j], m);
    NumberUpdate(32, r, j, Pow2(m));
    Pow2Shl(m, 32 * j);
    assert m + 32 * j == shift;
  }

  /** Before a quotient bit is tried: n = q d + num, the divisor is shifted up, and the quotient has no lower bits. */
  ghost predicate Dividing(n: nat, d: nat, num: nat, div: nat, q: nat, shift: int) {
    && shift >= -1 && n == q * d + num && num < d * Pow2(shift + 1)
    && (shift >= 0 ==> div == d * Pow2(shift))
  }

  lemma DividingStarts(n: nat, d: nat, div: nat)
    requires 0 < d < Pow2(255) && n < Pow2(255) && BitLength(d) <= BitLength(n)
    requires div == Wrap(Shl(d, BitLength(n) - BitLength(d)))
    ensures Dividing(n, d, n, div, 0, BitLength(n) - BitLength(d))
  {
    hide Pow2;
    hide BitLength;
    hide Shl;
    var s := BitLength(n) - BitLength(d);
    BitLengthBounds(d);
    BitLengthBounds(n);
    ShlIsProduct(d, s);
    ShlIsProduct(d, s + 1);
    ShlMonotone(d, Pow2(BitLength(d)), s);
    Pow2Shl(BitLength(d), s);
    BitLengthFits(n, 255);
    Pow2Monotone(BitLength(n), 255);
    Pow2Less(255);
    ShlMonotone(Pow2(BitLength(d) - 1), d, s + 1);
    Pow2Shl(BitLength(d) - 1, s + 1);
    WrapSmall(Shl(d, s));
  }

  lemma BitTaken(n: nat, d: nat, num: nat, div: nat, q: nat, shift: nat)
    requires Dividing(n, d, num, div, q, shift) && num >= div
    ensures n == (q + Pow2(shift)) * d + (num - div) && num - div < d * Pow2(shift)
  {
    hide Pow2;
    var p := Pow2(shift);
    assert Pow2(shift + 1) == 2 * p by { PowDoubles(shift); }
    assert d * (2 * p) == d * p + d * p;
    assert (q + p) * d == q * d + d * p;
  }

  lemma PowDoubles(k: nat)
    ensures Pow2(k + 1) == 2 * Pow2(k)
  {
  }

  lemma HalfOfShifted(d: nat, shift: nat)
    ensures shift > 0 ==> d * Pow2(shift) / Pow2(1) == d * Pow2(shift - 1)
  {
    Pow2Zero();
    if shift > 0 {
      assert d * Pow2(shift) == 2 * (d * Pow2(shift - 1));
    }
  }

  lemma DividingEnds(n: nat, d: nat, num: nat, div: nat, q: nat)
    requires d > 0 && Dividing(n, d, num, div, q, -1)
    ensures q == n / d
  {
    Pow2Zero();
    QuotientUnique(n, d, q, num);
  }

  lemma QuotientIsZero(n: nat, d: nat)
    requires n < d
    ensures n / d == 0
  {
  }

  lemma QuotientIsPositive(n: nat, d: nat)
    requires n >= d > 0
    ensures n / d > 0
  {
  }

  /**
   * divide: by shifting and subtracting. The bit lengths are taken modulo 256, so a dividend with its top bit set
   * counts as zero: the quotient is right exactly when the dividend is below 2^255.
   */
  method Divide(a: UInt256, b: UInt256) returns (r: UInt256)
    requires 0 < Value(b) < Pow2(255)
    ensures Value(r) == Value(a) / Value(b) <==> Value(a) < Pow2(255)
    ensures Value(a) >= Pow2(255) ==> Value(r) == 0
  {
    hide Pow2;
    hide Number;
    hide BitLength;
    hide Dividing;
    hide LowBitsClear;
    hide WithBit;
    hide Wrap;
    hide SupEq;
    var div, num := b, a;
    ghost var n, d := Value(a), Value(b);
    r := seq(8, _ => 0);
    NumberOfZeros(32, r);
    var numBits := Bits(num);
    var divBits := Bits(div);
    ValueFits(a);
    LengthsInEightBits(n, d, numBits, divBits);
    if divBits > numBits {
      if n < Pow2(255) {
        QuotientIsZero(n, d);
      } else {
        QuotientIsPositive(n, d);
      }
      return;
    }
    var shift: int := numBits - divBits;
    div := ShiftLeft(div, shift);
    DividingStarts(n, d, Value(div));
    ClearAtFirst(r, shift + 1);
    while shift >= 0
      invariant -1 <= shift < 255 && Dividing(n, d, Value(num), Value(div), Value(r), shift) && LowBitsClear(r, shift + 1)
    {
      num, div, r := DivideStep(n, d, num, div, r, shift);
      shift := shift - 1;
    }
    DividingEnds(n, d, Value(num), Value(div), Value(r));
  }

  lemma LengthsInEightBits(n: nat, d: nat, numBits: nat, divBits: nat)
    requires n < Pow2(256) && 0 < d < Pow2(255) && numBits == BitLength(n) % 256 && divBits == BitLength(d) % 256
    ensures divBits == BitLength(d) > 0
    ensures n < Pow2(255) ==> numBits == BitLength(n) && (divBits > numBits ==> n < d)
    ensures n >= Pow2(255) ==> numBits == 0 && n >= d
  {
    hide Pow2;
    hide BitLength;
    BitLengthFits(n, 255);
    BitLengthFits(n, 256);
    BitLengthFits(d, 255);
    BitLengthBounds(d);
    BitLengthBounds(n);
    if BitLength(d) > BitLength(n) {
      Pow2Monotone(BitLength(n), BitLength(d) - 1);
    }
  }

  lemma ClearAtFirst(r: UInt256, n: nat)
    requires forall j :: 0 <= j < 8 ==> r[j] == 0
    ensures LowBitsClear(r, n)
  {
    LowOfZero(n % 32);
  }

  method DivideStep(ghost n: nat, ghost d: nat, num: UInt256, div: UInt256, r: UInt256, shift: nat)
    returns (num': UInt256, div': UInt256, r': UInt256)
    requires shift < 255 && Dividing(n, d, Value(num), Value(div), Value(r), shift) && LowBitsClear(r, shift + 1)
    ensures Dividing(n, d, Value(num'), Value(div'), Value(r'), shift - 1) && LowBitsClear(r', shift)
  {
    hide Pow2;
    hide Number;
    hide LowBitsClear;
    hide WithBit;
    hide SupEq;
    num', r' := num, r;
    SupEqCompares(num, div);
    if SupEq(num, div) {
      BitTaken(n, d, Value(num), Value(div), Value(r), shift);
      BitSet(r, shift);
      num' := Subtract(num, div);
      r' := WithBit(r, shift);
    } else {
      ClearBelow(r, shift);
    }
    HalfOfShifted(d, shift);
    div' := ShiftRight(div, 1);
  }

  // ---------- multiplication by a word ----------

  /** The first i words of a b, with the carry. */
  ghost predicate Multiplying(a: seq<u32>, b: nat, r: seq<u32>, i: nat, carry: nat) {
    && i <= |a| == |r|
    && Number(32, a[..i]) * b == Number(32, r[..i]) + Shl(carry, 32 * i)
  }

  lemma MultiplyingWord(a: seq<u32>, b: nat, r: seq<u32>, i: nat, carry: nat, n: nat)
    requires i < |a| && Multiplying(a, b, r, i, carry) && n == carry + b * a[i]
    ensures Multiplying(a, b, r[i := n % W32], i + 1, n / W32)
  {
    hide Shl;
    hide Number;
    var m, t := 32 * i, r[i := n % W32];
    NumberPrefix(32, a, i);
    NumberPrefix(32, t, i);
    assert t[..i] == r[..i];
    ProductAtBit(Number(32, a[..i]), a[i], b, m);
    ShlSum(carry, b * a[i], m);
    WordAndCarry(n, m);
  }

  lemma ProductAtBit(x: nat, y: nat, b: nat, m: nat)
    ensures (x + Shl(y, m)) * b == x * b + Shl(b * y, m)
  {
    hide Shl;
    var p := Pow2(m);
    ShlIsProduct(y, m);
    ShlIsProduct(b * y, m);
    assert (x + y * p) * b == x * b + (y * p) * b;
    assert (y * p) * b == (b * y) * p;
  }

  lemma ProductFits(x: u32, y: u32, carry: u32)
    ensures carry + y * x < W64 && (carry + y * x) / W32 < W32
  {
    var p: nat, q: nat := W32 - 1 - x, y;
    AtMost(q, x, p);
  }

  lemma AtMost(y: nat, x: nat, p: nat)
    requires y < W32 && x + p == W32 - 1
    ensures y * x <= (W32 - 1) * (W32 - 1)
  {
    assert y * (x + p) == y * x + y * p;
  }

  method MultiplyThis32(a: UInt256, b: u32) returns (r: UInt256)
    ensures Value(r) == Wrap(Value(a) * b)
  {
    hide Multiplying;
    hide Wrap;
    var carry: u32 := 0;
    r := a;
    MultiplyingStarts(a, b, r);
    var i := 0;
    while i < 8
      invariant i <= 8 && r[i..] == a[i..] && Multiplying(a, b, r, i, carry)
    {
      assert r[i] == a[i] by { assert r[i..][0] == a[i..][0]; }
      ProductFits(r[i], b, carry);
      var n: u64 := carry + b * r[i];
      MultiplyingWord(a, b, r, i, carry, n);
      r := r[i := n % W32];
      carry := n / W32;
      i := i + 1;
    }
    MultiplyingEnds(a, b, r, carry);
  }

  lemma MultiplyingStarts(a: UInt256, b: nat, r: UInt256)
    ensures Multiplying(a, b, r, 0, 0)
  {
  }

  lemma MultiplyingEnds(a: UInt256, b: nat, r: UInt256, carry: nat)
    requires Multiplying(a, b, r, 8, carry)
    ensures Value(r) == Wrap(Value(a) * b)
  {
    hide Shl;
    hide Number;
    hide Pow2;
    hide Wrap;
    assert a[..8] == a && r[..8] == r;
    ValueFits(r);
    WrapIs(Value(r), Value(a) * b, carry);
  }

  // ---------- compact targets ----------

  type i32 = x: int | -0x8000_0000 <= x < 0x8000_0000

  const MANTISSA: nat := 0x80_0000
  const EXPONENT: nat := 0x100_0000

  /** The number a compact target stands for, with the shift distances cut to the eight bits of their parameter. */
  function Expanded(c: i32): nat {
    hide Pow2;
    hide Shl;
    hide Wrap;
    var size, word := c / EXPONENT, c % MANTISSA;
    if size <= 3 then word / Pow2(8 * (3 - size) % 256) else Wrap(Shl(word, 8 * (size - 3) % 256))
  }

  method SetCompact(nCompact: i32) returns (r: UInt256)
    ensures Value(r) == Expanded(nCompact)
  {
    hide Wrap;
    hide Shl;
    hide Pow2;
    hide Value;
    var nSize := nCompact / EXPONENT;
    var nWord := OfWord(nCompact % MANTISSA);
    ValueOfWord(nCompact % MANTISSA);
    if nSize <= 3 {
      r := ShiftRight(nWord, 8 * (3 - nSize) % 256);
    } else {
      r := ShiftLeft(nWord, 8 * (nSize - 3) % 256);
    }
  }

  /** The whole part of n 256^3 / 256^e. */
  function Scaled(n: nat, e: nat): nat {
    hide Pow2;
    if e <= 3 then n * Pow2(8 * (3 - e)) else n / Pow2(8 * (e - 3))
  }

  /** The exponent is one more than the whole bytes of n, so that the mantissa never reaches its sign bit. */
  function Exponent(n: nat): nat {
    if n == 0 then 0 else BitLength(n) / 8 + 1
  }

  function Compacted(n: nat): nat {
    Exponent(n) * EXPONENT + Scaled(n, Exponent(n))
  }

  lemma BytePowers()
    ensures Pow2(0) == 1 && Pow2(8) == 0x100 && Pow2(16) == 0x1_0000 && Pow2(24) == EXPONENT && Pow2(23) == MANTISSA
  {
    Pow2Words();
    Pow2Add(16, 8);
    Pow2Add(23, 1);
  }

  lemma DivideTwice(n: nat, p: nat, q: nat)
    requires p > 0 && q > 0
    ensures p * q > 0 && n / (p * q) == n / p / q
  {
    var x := n / p;
    var r, y, s := n % p, x / q, x % q;
    QuotientOfProduct(n, p, q, x, r, y, s);
  }

  lemma QuotientOfProduct(n: nat, p: nat, q: nat, x: nat, r: nat, y: nat, s: nat)
    requires p > 0 && q > 0 && n == p * x + r && r < p && x == q * y + s && s < q
    ensures p * q > 0 && n / (p * q) == y
  {
    Distribute(p, q, y, s);
    RemainderFits(p, q, s, r);
    QuotientUnique(n, p * q, y, p * s + r);
  }

  lemma Distribute(p: nat, q: nat, y: nat, s: nat)
    ensures p * (q * y + s) == (p * q) * y + p * s
  {
  }

  lemma RemainderFits(p: nat, q: nat, s: nat, r: nat)
    requires s < q && r < p
    ensures p * s + r < p * q
  {
    assert p * (s + 1) <= p * q;
  }

  lemma ScaledNext(n: nat, e: nat)
    ensures Scaled(n, e + 1) == Scaled(n, e) / 0x100
  {
    hide Pow2;
    BytePowers();
    if e < 3 {
      var m := 8 * (2 - e);
      Pow2Add(m, 8);
      assert 8 * (3 - e) == m + 8;
      assert n * (Pow2(m) * 0x100) == (n * Pow2(m)) * 0x100;
      QuotientUnique(n * (Pow2(m) * 0x100), 0x100, n * Pow2(m), 0);
    } else {
      var m := 8 * (e - 3);
      Pow2Add(m, 8);
      assert 8 * (e + 1 - 3) == m + 8;
      DivideTwice(n, Pow2(m), 0x100);
    }
  }

  /** n < 2^(8e - 24 + k) says that the mantissa has k bits. */
  lemma ScaledBound(n: nat, e: nat, k: nat)
    requires k <= 24 <= 8 * e + k
    ensures n < Pow2(8 * e + k - 24) <==> Scaled(n, e) < Pow2(k)
  {
    hide Pow2;
    if e <= 3 {
      var m := 8 * (3 - e);
      Pow2Add(8 * e + k - 24, m);
      ScalesOrder(n, Pow2(8 * e + k - 24), Pow2(m));
    } else {
      var m := 8 * (e - 3);
      Pow2Add(k, m);
      assert 8 * e + k - 24 == k + m;
      QuotientOrder(n, Pow2(k), Pow2(m));
    }
  }

  lemma ScalesOrder(x: nat, y: nat, p: nat)
    requires p > 0
    ensures x < y <==> x * p < y * p
  {
    if x < y {
      assert (x + 1) * p <= y * p;
    } else {
      assert y * p <= x * p;
    }
  }

  lemma QuotientOrder(n: nat, y: nat, p: nat)
    requires p > 0
    ensures n < y * p <==> n / p < y
  {
    var q := n / p;
    assert n == p * q + n % p;
    if q < y {
      assert (q + 1) * p <= y * p;
    } else {
      assert y * p <= q * p;
    }
  }

  /** The exponent of a number above zero: 8e has between one and eight bits more than n. */
  lemma ExponentBounds(n: nat)
    requires n > 0
    ensures Exponent(n) > 0 && Pow2(8 * Exponent(n) - 8) / 2 <= n < Pow2(8 * Exponent(n) - 1)
  {
    hide Pow2;
    hide BitLength;
    var l, e := BitLength(n), Exponent(n);
    BitLengthBounds(n);
    Pow2Monotone(l, 8 * e - 1);
    if e > 1 {
      PowDoubles(8 * e - 9);
      Pow2Monotone(8 * e - 9, l - 1);
    } else {
      BytePowers();
    }
  }

  lemma MantissaFits(n: nat)
    ensures Scaled(n, Exponent(n)) < MANTISSA
    ensures n < Pow2(255) ==> Exponent(n) <= 32 && Compacted(n) < 0x8000_0000
  {
    hide Pow2;
    hide BitLength;
    BytePowers();
    if n > 0 {
      ExponentBounds(n);
      ScaledBound(n, Exponent(n), 23);
    }
    BitLengthFits(n, 255);
  }

  /**
   * Expanding a compacted number loses less than one unit of the mantissa, and nothing at all up to three bytes.
   */
  lemma ExpandCompacted(n: nat)
    requires n < Pow2(255)
    ensures Compacted(n) < 0x8000_0000 && Expanded(Compacted(n)) <= n
    ensures Exponent(n) <= 3 ==> Expanded(Compacted(n)) == n
    ensures Exponent(n) > 3 ==> n < Expanded(Compacted(n)) + Pow2(8 * (Exponent(n) - 3))
  {
    hide Pow2;
    hide Exponent;
    hide Shl;
    hide Wrap;
    MantissaFits(n);
    var e, word := Exponent(n), Scaled(n, Exponent(n));
    TakeApart(Compacted(n), e, word);
    if e <= 3 {
      var p := Pow2(8 * (3 - e));
      QuotientUnique(n * p, p, n, 0);
    } else {
      var p := Pow2(8 * (e - 3));
      assert n == p * word + n % p;
      ShlIsProduct(word, 8 * (e - 3));
      Pow2Monotone(255, 256);
      WrapSmall(word * p);
    }
  }

  lemma TakeApart(c: nat, e: nat, word: nat)
    requires c == e * EXPONENT + word && word < MANTISSA
    ensures c / EXPONENT == e && c % MANTISSA == word
  {
    assert c == EXPONENT * e + word && c == MANTISSA * (2 * e) + word;
  }

  /** A compact form is a byte count and a mantissa of 15 to 23 bits, which a number between its multiples has as well. */
  lemma CompactForm(size: nat, word: nat, rest: nat)
    requires 3 <= size <= 32 && 0x8000 <= word < 0x80_0000 && rest < Pow2(8 * (size - 3))
    ensures Expanded(size * 0x100_0000 + word) == word * Pow2(8 * (size - 3))
    ensures Compacted(word * Pow2(8 * (size - 3)) + rest) == size * 0x100_0000 + word
  {
    hide Pow2;
    hide BitLength;
    hide Wrap;
    var m := 8 * (size - 3);
    var p := Pow2(m);
    var n := word * p + rest;
    BytePowers();
    TakeApart(size * EXPONENT + word, size, word);
    MantissaBits(m, word, rest);
    BitLengthFits(n, m + 15);
    BitLengthFits(n, m + 23);
    assert Exponent(n) == size;
    QuotientUnique(n, p, word, rest);
    ShlIsProduct(word, m);
    Pow2Monotone(m + 23, 256);
    assert word * p < Pow2(256);
    WrapSmall(word * p);
  }

  lemma MantissaBits(m: nat, word: nat, rest: nat)
    requires 0x8000 <= word < 0x80_0000 && rest < Pow2(m)
    ensures Pow2(m + 15) <= word * Pow2(m) + rest < Pow2(m + 23)
  {
    hide Pow2;
    BytePowers();
    PowDoubles(15);
    Pow2Add(m, 15);
    Pow2Add(m, 23);
    var p := Pow2(m);
    assert word * p >= 0x8000 * p;
    assert (word + 1) * p <= 0x80_0000 * p;
  }

  /** Compacting keeps the order of targets. */
  lemma CompactedMonotone(m: nat, n: nat)
    requires m <= n
    ensures Compacted(m) <= Compacted(n)
  {
    hide Pow2;
    hide Scaled;
    hide BitLength;
    MantissaFits(m);
    MantissaFits(n);
    BitLengthMonotone(m, n);
    if Exponent(m) == Exponent(n) {
      ScaledMonotone(m, n, Exponent(m));
    }
  }

  lemma {:induction false} BitLengthMonotone(m: nat, n: nat)
    requires m <= n
    ensures BitLength(m) <= BitLength(n)
  {
    if m > 0 {
      BitLengthMonotone(m / 2, n / 2);
    }
  }

  lemma ScaledMonotone(m: nat, n: nat, e: nat)
    requires m <= n
    ensures Scaled(m, e) <= Scaled(n, e)
  {
    hide Pow2;
    if e <= 3 {
      assert m * Pow2(8 * (3 - e)) <= n * Pow2(8 * (3 - e));
    } else {
      var p := Pow2(8 * (e - 3));
      QuotientOrder(m, n / p + 1, p);
      QuotientOrder(n, n / p + 1, p);
    }
  }

  lemma LowWord(a: UInt256)
    ensures Value(a) < W32 ==> a[0] == Value(a)
    ensures a[0] == Value(a) % W32
  {
    hide Shl;
    var n := Number(32, a[1..]);
    ShlIsProduct(n, 32);
    Pow2Words();
    QuotientUnique(Value(a), W32, n, a[0]);
  }

  /** What getCompact computes before it looks at the sign bit. */
  lemma BeforeSignBit(n: nat, size: nat)
    requires n < Pow2(255) && size == (BitLength(n) + 7) / 8
    ensures size <= 32 && Scaled(n, size) < EXPONENT
    ensures Exponent(n) == if Scaled(n, size) >= MANTISSA then size + 1 else size
    ensures size <= 3 ==> n < EXPONENT
  {
    hide Pow2;
    hide Scaled;
    hide BitLength;
    BytePowers();
    NoBits();
    BitLengthBounds(n);
    BitLengthFits(n, 255);
    BitLengthFits(n, 8 * size);
    ScaledBound(n, size, 24);
    if size > 0 {
      BitLengthFits(n, 8 * size - 1);
      ScaledBound(n, size, 23);
    } else {
      ScaledZero(size);
    }
    if size <= 3 {
      Pow2Monotone(8 * size, 24);
    }
  }

  lemma ScaledZero(e: nat)
    ensures Scaled(0, e) == 0
  {
  }

  /** nCompact | nSize << 24, with the mantissa below its sign bit */
  lemma OrExponent(word: nat, size: nat)
    requires size <= 33
    ensures word < MANTISSA ==> Or(word, Shl32(size, 24)) == size * EXPONENT + word
    ensures size == 0 ==> Or(word, Shl32(size, 24)) == word
  {
    hide Shl;
    hide Or;
    hide Pow2;
    BytePowers();
    ShlIsProduct(size, 24);
    if word < MANTISSA {
      OrDisjoint(word, size, 24);
    }
    if size == 0 {
      OrCommutes(word, 0);
      NoOr(word);
    }
  }

  lemma NoOr(x: nat)
    ensures Or(0, x) == x
  {
  }

  /** The three leading bytes of a number, scaled to three bytes. */
  method LeadingBytes(number: UInt256, nSize: nat) returns (nCompact: u32)
    requires nSize <= 32
    ensures var n := Value(number);
            && (n < Pow2(255) && nSize == (BitLength(n) + 7) / 8 ==> nCompact == Scaled(n, nSize))
            && (nSize == 0 ==> nCompact == Shl32(number[0], 24))
  {
    hide Pow2;
    hide Value;
    hide Scaled;
    hide BitLength;
    hide Exponent;
    hide Shl32;
    ghost var n := Value(number);
    ghost var exact := n < Pow2(255) && nSize == (BitLength(n) + 7) / 8;
    if exact {
      BeforeSignBit(n, nSize);
    }
    if nSize <= 3 {
      nCompact := Shl32(number[0], 8 * (3 - nSize));
      if exact {
        LowWord(number);
        ScaledUp(n, nSize);
      }
    } else {
      var bn := ShiftRight(number, 8 * (nSize - 3));
      ScaledDown(n, nSize);
      LowWord(bn);
      nCompact := bn[0];
    }
  }

  /** The sign bit moved out of the mantissa, and the exponent put above it. */
  method Assemble(word: u32, size: nat, ghost n: nat) returns (nCompact: u32)
    requires size <= 32
    ensures n < Pow2(255) && size == (BitLength(n) + 7) / 8 && word == Scaled(n, size) ==> nCompact == Compacted(n)
    ensures size == 0 && word % EXPONENT == 0 ==> nCompact == word
  {
    hide Pow2;
    hide Scaled;
    hide BitLength;
    hide Exponent;
    hide Or;
    hide And;
    hide Shl32;
    ghost var exact := n < Pow2(255) && size == (BitLength(n) + 7) / 8 && word == Scaled(n, size);
    var nCompact', nSize := word, size;
    if exact {
      BeforeSignBit(n, size);
      ScaledNext(n, size);
    }
    SignBit(word);
    if And(word, 0x80_0000) != 0 {
      nCompact' := word / 0x100;
      nSize := size + 1;
    }
    OrExponent(nCompact', nSize);
    OrFits32(nCompact', Shl32(nSize, 24));
    nCompact := Or(nCompact', Shl32(nSize, 24));
  }

  lemma OrFits32(x: u32, y: u32)
    ensures Or(x, y) < W32
  {
    hide Or;
    hide Pow2;
    Pow2Words();
    OrFits(x, y, 32);
  }

  lemma SignBit(word: u32)
    ensures word < EXPONENT ==> (And(word, 0x80_0000) != 0 <==> word >= MANTISSA)
    ensures word % EXPONENT == 0 ==> And(word, 0x80_0000) == 0
  {
    hide And;
    hide Pow2;
    BytePowers();
    if word < EXPONENT {
      TopBit(word, 23);
    }
    if word % EXPONENT == 0 {
      AndLow(word, 0x80_0000, 24);
      ShrIsDivision(word, 24);
      NoAnd(0x80_0000);
    }
  }

  lemma NoAnd(m: nat)
    ensures And(0, m) == 0
  {
  }

  /** getCompact; a number with its top bit set counts as one of no bits. */
  method GetCompact(number: UInt256) returns (nCompact: u32)
    ensures Value(number) < Pow2(255) ==> nCompact == Compacted(Value(number))
    ensures Value(number) >= Pow2(255) ==> nCompact == Shl32(number[0], 24)
  {
    hide Pow2;
    hide Value;
    hide Scaled;
    hide BitLength;
    hide Shl32;
    hide Compacted;
    ghost var n := Value(number);
    ValueFits(number);
    var length: nat := Bits(number);
    BitLengthFits(n, 255);
    BitLengthFits(n, 256);
    var nSize: nat := (length + 7) / 8;
    var word := LeadingBytes(number, nSize);
    HighByte(number[0]);
    nCompact := Assemble(word, nSize, n);
  }

  lemma HighByte(x: u32)
    ensures Shl32(x, 24) % EXPONENT == 0
  {
    hide Shl;
    BytePowers();
    Shl32Drops(x, 24);
    ShlIsProduct(Low(x, 8), 24);
    QuotientUnique(Low(x, 8) * EXPONENT, EXPONENT, Low(x, 8), 0);
  }

  lemma ScaledUp(n: nat, e: nat)
    requires e <= 3 && n < EXPONENT && Scaled(n, e) < EXPONENT
    ensures Shl32(n, 8 * (3 - e)) == Scaled(n, e)
  {
    hide Pow2;
    hide Shl;
    ShlIsProduct(n, 8 * (3 - e));
  }

  lemma ScaledDown(n: nat, e: nat)
    requires e > 3
    ensures Scaled(n, e) == n / Pow2(8 * (e - 3))
  {
  }
}

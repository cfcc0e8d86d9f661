/** BRBase58.c: Base58 and Base58Check. */
module Base58 {
  import opened Words

  // Positional numbers, most significant digit first

  function Pow(b: nat, n: nat): (p: nat)
    ensures b > 0 ==> p > 0
  {
    if n == 0 then 1 else b * Pow(b, n - 1)
  }

  function Number(b: nat, s: seq<byte>): nat {
    if s == [] then 0 else s[0] * Pow(b, |s| - 1) + Number(b, s[1..])
  }

  ghost predicate AreDigits(b: nat, s: seq<byte>) {
    forall i :: 0 <= i < |s| ==> s[i] < b
  }

  /** The digits of n, without leading zeros. */
  function Digits(b: nat, n: nat): (s: seq<byte>)
    requires 2 <= b <= 0x100
    ensures forall i :: 0 <= i < |s| ==> s[i] < b
    ensures s != [] ==> s[0] != 0
  {
    if n == 0 then [] else Digits(b, n / b) + [n % b]
  }

  lemma {:induction false} NumberAppend(b: nat, s: seq<byte>, d: byte)
    ensures Number(b, s + [d]) == Number(b, s) * b + d
  {
    if s == [] {
      assert [d][1..] == [];
    } else {
      NumberAppend(b, s[1..], d);
      assert (s + [d])[1..] == s[1..] + [d];
      FirstDigitMoves(s[0], Pow(b, |s| - 1), Number(b, s[1..]), b, d);
    }
  }

  lemma FirstDigitMoves(x: nat, p: nat, n: nat, b: nat, d: nat)
    ensures x * (b * p) + (n * b + d) == (x * p + n) * b + d
  {
  }

  lemma {:induction false} NumberBound(b: nat, s: seq<byte>)
    requires b > 0 && AreDigits(b, s)
    ensures Number(b, s) < Pow(b, |s|)
  {
    if s != [] {
      assert AreDigits(b, s[1..]);
      NumberBound(b, s[1..]);
      DigitTimes(s[0], b, Pow(b, |s| - 1));
    }
  }

  lemma DigitTimes(d: nat, b: nat, p: nat)
    requires d < b
    ensures d * p + p <= b * p
  {
    assert (d + 1) * p <= b * p;
  }

  lemma {:induction false} DigitsHaveNumber(b: nat, n: nat)
    requires 2 <= b <= 0x100
    ensures Number(b, Digits(b, n)) == n
  {
    hide Digits;
    hide Number;
    if n == 0 {
      NoDigits(b);
    } else {
      var q, d := n / b, n % b;
      DivisionStep(n, b);
      DigitsHaveNumber(b, q);
      NumberAppend(b, Digits(b, q), d);
      DigitsStep(b, n, q, d);
    }
  }

  lemma DivisionStep(n: nat, b: nat)
    requires b >= 2 && n > 0
    ensures n / b * b + n % b == n && n / b < n
  {
  }

  lemma DigitsStep(b: nat, n: nat, q: nat, d: nat)
    requires 2 <= b <= 0x100 && d < b && n == q * b + d && n > 0
    ensures d < 0x100 && Digits(b, n) == Digits(b, q) + [d]
  {
    QuotientUnique(n, b, q, d);
  }

  lemma PositiveSum(q: nat, b: nat, d: nat)
    requires b > 0 && (q > 0 || d > 0)
    ensures q * b + d > 0
  {
  }

  lemma {:induction false} NumberHasDigits(b: nat, s: seq<byte>)
    requires 2 <= b <= 0x100 && AreDigits(b, s) && (s == [] || s[0] != 0)
    ensures Digits(b, Number(b, s)) == s
  {
    hide Number;
    if s == [] {
      NoDigits(b);
    } else {
      var t, d := s[..|s| - 1], s[|s| - 1];
      assert s == t + [d];
      NumberAppend(b, t, d);
      if t == [] {
        NoDigits(b);
      } else {
        NonZeroNumber(b, t);
      }
      NumberHasDigits(b, t);
      PositiveSum(Number(b, t), b, d);
      DigitsStep(b, Number(b, s), Number(b, t), d);
    }
  }

  lemma NoDigits(b: nat)
    ensures Number(b, []) == 0
    ensures 2 <= b <= 0x100 ==> Digits(b, 0) == []
  {
  }

  lemma NonZeroNumber(b: nat, t: seq<byte>)
    requires b > 0 && t != [] && t[0] != 0
    ensures Number(b, t) > 0
  {
    assert t[0] * Pow(b, |t| - 1) >= Pow(b, |t| - 1);
  }

  lemma {:induction false} NumberSkipsZeros(b: nat, s: seq<byte>, i: nat)
    requires i <= |s| && forall k :: 0 <= k < i ==> s[k] == 0
    ensures Number(b, s) == Number(b, s[i..])
  {
    if i == 0 {
      assert s[0..] == s;
    } else {
      NumberSkipsZeros(b, s[1..], i - 1);
      assert s[1..][i - 1..] == s[i..];
    }
  }

  // Buffer sizes

  lemma {:induction false} PowAdd(b: nat, m: nat, n: nat)
    ensures Pow(b, m + n) == Pow(b, m) * Pow(b, n)
  {
    if m > 0 {
      PowAdd(b, m - 1, n);
      assert Pow(b, m + n) == b * Pow(b, m - 1 + n);
      Regroup(b, Pow(b, m - 1), Pow(b, n));
    }
  }

  lemma Regroup(x: nat, y: nat, z: nat)
    ensures x * (y * z) == (x * y) * z
  {
  }

  lemma {:induction false} PowTimes(b: nat, m: nat, n: nat)
    ensures Pow(b, m * n) == Pow(Pow(b, m), n)
  {
    if n > 0 {
      PowTimes(b, m, n - 1);
      PowAdd(b, m, m * (n - 1));
      assert m * n == m + m * (n - 1);
    }
  }

  lemma {:induction false} PowBaseMonotone(a: nat, b: nat, n: nat)
    requires a <= b
    ensures Pow(a, n) <= Pow(b, n)
  {
    if n > 0 {
      PowBaseMonotone(a, b, n - 1);
      Products(a, b, Pow(a, n - 1), Pow(b, n - 1));
    }
  }

  lemma {:induction false} PowBaseStrict(a: nat, b: nat, n: nat)
    requires a < b && n > 0
    ensures Pow(a, n) < Pow(b, n)
  {
    PowBaseMonotone(a, b, n - 1);
    Products(a, b, Pow(a, n - 1), Pow(b, n - 1));
  }

  lemma Products(a: nat, b: nat, x: nat, y: nat)
    requires a <= b && x <= y
    ensures a * x <= b * y
    ensures a < b && y > 0 ==> a * x < b * y
  {
    assert a * x <= a * y;
    assert b * y == a * y + (b - a) * y;
    if a < b && y > 0 {
      assert (b - a) * y > 0;
    }
  }

  lemma {:induction false} PowExponentMonotone(b: nat, m: nat, n: nat)
    requires b > 0 && m <= n
    ensures Pow(b, m) <= Pow(b, n)
  {
    PowAdd(b, m, n - m);
    Products(1, Pow(b, n - m), Pow(b, m), Pow(b, m));
  }

  /** If p digits of base a fit in q digits of base b, then m digits fit in l whenever l/m >= q/p. */
  lemma {:induction false} DigitsFit(a: nat, b: nat, p: nat, q: nat, m: nat, l: nat)
    requires a > 0 && b > 0 && p > 0
    requires Pow(a, p) <= Pow(b, q) && q * m <= l * p
    ensures Pow(a, m) <= Pow(b, l)
  {
    PowTimes(a, m, p);
    PowTimes(a, p, m);
    PowTimes(b, q, m);
    PowTimes(b, l, p);
    PowBaseMonotone(Pow(a, p), Pow(b, q), m);
    PowExponentMonotone(b, q * m, l * p);
    assert m * p == p * m;
    if Pow(a, m) > Pow(b, l) {
      PowBaseStrict(Pow(b, l), Pow(a, m), p);
      assert false;
    }
  }

  lemma EightBytesFit()
    ensures Pow(256, 8) <= Pow(58, 11)
  {
    assert Pow(256, 8) == 256 * 256 * 256 * 256 * 256 * 256 * 256 * 256;
    assert Pow(58, 11) == 58 * 58 * 58 * 58 * 58 * 58 * 58 * 58 * 58 * 58 * 58;
  }

  lemma SeventyOneDigitsFit()
    ensures Pow(58, 71) <= Pow(256, 52)
  {
    Power58();
    Power256();
  }

  lemma Power58()
    ensures Pow(58, 71) == 159730386663078066345306447337161584696769904898410078913243029577507397293846405390982563136983769384625594118558891106107392
  {
    assert Pow(58, 1) == 58;
    PowAdd(58, 1, 1);
    assert Pow(58, 2) == 3364;
    PowAdd(58, 2, 2);
    assert Pow(58, 4) == 11316496;
    PowAdd(58, 4, 4);
    assert Pow(58, 8) == 128063081718016;
    PowAdd(58, 8, 8);
    assert Pow(58, 16) == 16400152899115243850138976256;
    PowAdd(58, 16, 16);
    assert Pow(58, 32) == 268965015114358137726910587140455987105619365599731777536;
    PowAdd(58, 32, 32);
    assert Pow(58, 64) == 72342179355466901471258927612150153907721848234316445933056526044582001260898145151856420451025374266490194231296;
    PowAdd(58, 64, 4);
    assert Pow(58, 68) == 818659983307423768631895769287186768096118664656249123135650444757408038940948816018402574608346843785239217057684258816;
    PowAdd(58, 68, 2);
    assert Pow(58, 70) == 2753972183846173557677697367882096287875343187903622050228328096163920642997351817085906260982478782493544726182049846657024;
    PowAdd(58, 70, 1);
    assert Pow(58, 71) == 159730386663078066345306447337161584696769904898410078913243029577507397293846405390982563136983769384625594118558891106107392;
  }

  lemma Power256()
    ensures Pow(256, 52) == 169230328010303641331690318856389386196071598838855992136870091590247882556495704531248437872567112920983350278405979725889536
  {
    assert Pow(256, 1) == 256;
    PowAdd(256, 1, 1);
    assert Pow(256, 2) == 65536;
    PowAdd(256, 2, 2);
    assert Pow(256, 4) == 4294967296;
    PowAdd(256, 4, 4);
    assert Pow(256, 8) == 18446744073709551616;
    PowAdd(256, 8, 8);
    assert Pow(256, 16) == 340282366920938463463374607431768211456;
    PowAdd(256, 16, 16);
    assert Pow(256, 32) == 115792089237316195423570985008687907853269984665640564039457584007913129639936;
    PowAdd(256, 32, 16);
    assert Pow(256, 48) == 39402006196394479212279040100143613805079739270465446667948293404245721771497210611414266254884915640806627990306816;
    PowAdd(256, 48, 4);
    assert Pow(256, 52) == 169230328010303641331690318856389386196071598838855992136870091590247882556495704531248437872567112920983350278405979725889536;
  }

  /** The buffer of the encoder, 138/100 digits a byte, always holds the number. */
  lemma EncoderRoom(m: nat)
    ensures Pow(256, m) <= Pow(58, m * 138 / 100 + 1)
  {
    EightBytesFit();
    DigitsFit(256, 58, 8, 11, m, m * 138 / 100 + 1);
  }

  /** The buffer of the decoder, 733/1000 bytes a digit, always holds the number. */
  lemma DecoderRoom(m: nat)
    ensures Pow(58, m) <= Pow(256, m * 733 / 1000 + 1)
  {
    SeventyOneDigitsFit();
    DigitsFit(58, 256, 71, 52, m, m * 733 / 1000 + 1);
  }

  // The alphabet

  const BASE58_CHARS: string :=
    "123456789" + "ABCDEFGH" + "JKLMN" + "PQRSTUVWXYZ" + "abcdefghijk" + "mnopqrstuvwxyz"

  /** The digit of a character, or 0xffffffff for a character outside the alphabet. */
  function DigitOf(c: char): u32 {
    if '1' <= c <= '9' then c as int - '1' as int
    else if 'A' <= c <= 'H' then c as int + 9 - 'A' as int
    else if 'J' <= c <= 'N' then c as int + 17 - 'J' as int
    else if 'P' <= c <= 'Z' then c as int + 22 - 'P' as int
    else if 'a' <= c <= 'k' then c as int + 33 - 'a' as int
    else if 'm' <= c <= 'z' then c as int + 44 - 'm' as int
    else 0xffff_ffff
  }

  predicate IsBase58(c: char) {
    DigitOf(c) < 58
  }

  function Digit(c: char): byte
    requires IsBase58(c)
  {
    DigitOf(c)
  }

  /** The encoder's table, segment by segment. */
  lemma TableSegments(d: nat)
    requires d < 58
    ensures BASE58_CHARS[d] == if d < 9 then "123456789"[d] else if d < 17 then "ABCDEFGH"[d - 9]
                               else if d < 22 then "JKLMN"[d - 17] else if d < 33 then "PQRSTUVWXYZ"[d - 22]
                               else if d < 44 then "abcdefghijk"[d - 33] else "mnopqrstuvwxyz"[d - 44]
  {
  }

  lemma SegmentDigits(d: nat)
    ensures d < 9 ==> DigitOf("123456789"[d]) == d
    ensures d < 8 ==> DigitOf("ABCDEFGH"[d]) == d + 9
    ensures d < 5 ==> DigitOf("JKLMN"[d]) == d + 17
    ensures d < 11 ==> DigitOf("PQRSTUVWXYZ"[d]) == d + 22
    ensures d < 11 ==> DigitOf("abcdefghijk"[d]) == d + 33
    ensures d < 14 ==> DigitOf("mnopqrstuvwxyz"[d]) == d + 44
  {
  }

  /** The encoder's table and the decoder's switch are inverse to each other. */
  lemma DigitsOfChars(d: nat)
    requires d < 58
    ensures DigitOf(BASE58_CHARS[d]) == d
  {
    hide DigitOf;
    TableSegments(d);
    SegmentDigits(if d < 9 then d else if d < 17 then d - 9 else if d < 22 then d - 17 else if d < 33 then d - 22
                  else if d < 44 then d - 33 else d - 44);
  }

  lemma CharsOfDigits(c: char)
    requires IsBase58(c)
    ensures BASE58_CHARS[DigitOf(c)] == c
  {
    DigitsOfChars(DigitOf(c));
  }

  lemma CharOfZero(d: nat)
    requires d < 58
    ensures BASE58_CHARS[d] == '1' <==> d == 0
  {
    DigitsOfChars(d);
    DigitsOfChars(0);
  }

  // The encoding

  /** The number of x's that s starts with. */
  function Leading<T(==)>(s: seq<T>, x: T): (n: nat)
    ensures n <= |s| && (forall i :: 0 <= i < n ==> s[i] == x) && (n < |s| ==> s[n] != x)
  {
    if s == [] || s[0] != x then 0
    else
      var n := Leading(s[1..], x);
      assert forall i :: 1 <= i < n + 1 ==> s[i] == s[1..][i - 1];
      n + 1
  }

  lemma {:induction false} LeadingIs<T>(s: seq<T>, x: T, n: nat)
    requires n <= |s| && (forall i :: 0 <= i < n ==> s[i] == x) && (n < |s| ==> s[n] != x)
    ensures Leading(s, x) == n
  {
    if n > 0 {
      assert s[0] == x;
      LeadingIs(s[1..], x, n - 1);
    }
  }

  function Repeat<T>(x: T, n: nat): seq<T> {
    seq(n, _ => x)
  }

  function Characters(ds: seq<byte>): (s: string)
    requires forall i :: 0 <= i < |ds| ==> ds[i] < 58
    ensures |s| == |ds|
  {
    seq(|ds|, i requires 0 <= i < |ds| => BASE58_CHARS[ds[i]])
  }

  function DigitsIn(s: string): (ds: seq<byte>)
    requires forall i :: 0 <= i < |s| ==> IsBase58(s[i])
    ensures |ds| == |s| && forall i :: 0 <= i < |ds| ==> ds[i] < 58
  {
    seq(|s|, i requires 0 <= i < |s| => Digit(s[i]))
  }

  /** One '1' for each leading zero byte, then the number that the other bytes spell, in base 58. */
  function Text(data: seq<byte>): string {
    var z := Leading(data, 0);
    Repeat('1', z) + Characters(Digits(58, Number(256, data[z..])))
  }

  /** A known text, with digits from four parts of the alphabet. */
  lemma KnownText()
    ensures Text([0x00, 0x62, 0x62, 0x62]) == "1a3gV"
  {
    var data: seq<byte> := [0x00, 0x62, 0x62, 0x62];
    assert data[1..] == [0x62, 0x62, 0x62] && Leading(data, 0) == 1;
    KnownNumber();
    KnownDigits();
    assert Repeat('1', 1) == "1";
    assert Characters([33, 2, 39, 28]) == "a3gV";
  }

  lemma KnownNumber()
    ensures Number(256, [0x62, 0x62, 0x62]) == 6447714
  {
    assert [0x62, 0x62, 0x62][..2] == [0x62, 0x62] && [0x62, 0x62][..1] == [0x62] && [0x62][..0] == [];
  }

  lemma KnownDigits()
    ensures Digits(58, 6447714) == [33, 2, 39, 28]
  {
    assert Digits(58, 33) == [33];
    assert Digits(58, 1916) == [33, 2];
    assert Digits(58, 111167) == [33, 2, 39];
  }

  /** The part of s before the first character outside the alphabet. */
  function ValidPrefix(s: string): (p: string)
    ensures p <= s && (forall i :: 0 <= i < |p| ==> IsBase58(p[i]))
    ensures |p| < |s| ==> !IsBase58(s[|p|])
  {
    if s == [] || !IsBase58(s[0]) then []
    else [s[0]] + ValidPrefix(s[1..])
  }

  /** One zero byte for each leading '1', then the number that the other digits spell, in base 256. */
  function Bytes(s: string): seq<byte> {
    var z := Leading(s, '1');
    Repeat(0, z) + Digits(256, Number(58, DigitsIn(ValidPrefix(s[z..]))))
  }

  lemma {:induction false} ValidPrefixIs(s: string, n: nat)
    requires n <= |s| && (forall i :: 0 <= i < n ==> IsBase58(s[i])) && (n < |s| ==> !IsBase58(s[n]))
    ensures ValidPrefix(s) == s[..n]
  {
    hide IsBase58;
    if n > 0 {
      assert IsBase58(s[0]);
      ValidPrefixIs(s[1..], n - 1);
      assert s[..n] == [s[0]] + s[1..][..n - 1];
    }
  }

  /** Decoding an encoding gives back every byte string. */
  lemma DecodeEncoded(data: seq<byte>)
    ensures Bytes(Text(data)) == data
  {
    hide Digits;
    hide Number;
    hide Leading;
    hide ValidPrefix;
    hide DigitOf;
    var z := Leading(data, 0);
    var ds := Digits(58, Number(256, data[z..]));
    var s := Text(data);
    assert s[z..] == Characters(ds);
    forall i | 0 <= i < |ds|
      ensures DigitOf(s[z..][i]) == ds[i] && (i == 0 ==> s[z..][i] != '1')
    {
      DigitsOfChars(ds[i]);
      CharOfZero(ds[i]);
    }
    if z < |s| {
      assert s[z] == s[z..][0];
    }
    LeadingIs(s, '1', z);
    ValidPrefixIs(s[z..], |s| - z);
    assert s[z..][..|s| - z] == s[z..];
    assert DigitsIn(s[z..]) == ds;
    DigitsHaveNumber(58, Number(256, data[z..]));
    NumberHasDigits(256, data[z..]);
    assert data == Repeat(0, z) + data[z..];
  }

  lemma CharactersOfDigitsIn(p: string)
    requires forall i :: 0 <= i < |p| ==> IsBase58(p[i])
    ensures Characters(DigitsIn(p)) == p
  {
    hide DigitOf;
    forall i | 0 <= i < |p|
      ensures BASE58_CHARS[DigitOf(p[i])] == p[i]
    {
      CharsOfDigits(p[i]);
    }
  }

  lemma FirstDigitIsNotZero(p: string)
    requires forall i :: 0 <= i < |p| ==> IsBase58(p[i])
    requires p != [] && p[0] != '1'
    ensures DigitsIn(p)[0] != 0
  {
    CharsOfDigits(p[0]);
    CharOfZero(DigitOf(p[0]));
  }

  /** Encoding what was decoded gives back the string, up to its first character outside the alphabet. */
  lemma EncodeDecoded(s: string)
    ensures Text(Bytes(s)) == ValidPrefix(s)
    ensures Text(Bytes(s)) == s <==> forall i :: 0 <= i < |s| ==> IsBase58(s[i])
  {
    hide Digits;
    hide Number;
    hide Leading;
    hide ValidPrefix;
    hide DigitOf;
    hide Characters;
    hide DigitsIn;
    var z := Leading(s, '1');
    var p := ValidPrefix(s[z..]);
    var ds := DigitsIn(p);
    var data := Bytes(s);
    assert data[z..] == Digits(256, Number(58, ds));
    if z < |data| {
      assert data[z] == data[z..][0];
    }
    LeadingIs(data, 0, z);
    DigitsHaveNumber(256, Number(58, ds));
    CharactersOfDigitsIn(p);
    if p != [] {
      assert p[0] == s[z];
      FirstDigitIsNotZero(p);
    }
    NumberHasDigits(58, ds);
    assert Text(data) == Repeat('1', z) + p;
    PrefixWithOnes(s, z);
    assert s[..z] == Repeat('1', z);
    WholeWhenValid(s);
  }

  lemma OneIsValid()
    ensures IsBase58('1')
  {
  }

  lemma ValidPrefixStep(s: string)
    requires s != [] && IsBase58(s[0])
    ensures ValidPrefix(s) == [s[0]] + ValidPrefix(s[1..])
  {
  }

  lemma {:induction false} PrefixWithOnes(s: string, z: nat)
    requires z <= |s| && (forall i :: 0 <= i < z ==> s[i] == '1')
    ensures ValidPrefix(s) == s[..z] + ValidPrefix(s[z..])
  {
    hide IsBase58;
    hide ValidPrefix;
    if z == 0 {
      assert s[0..] == s;
    } else {
      OneIsValid();
      assert s[0] == '1';
      ValidPrefixStep(s);
      var t := s[1..];
      PrefixWithOnes(t, z - 1);
      assert t[z - 1..] == s[z..];
      assert s[..z] == [s[0]] + t[..z - 1];
    }
  }

  lemma WholeWhenValid(s: string)
    ensures ValidPrefix(s) == s <==> forall i :: 0 <= i < |s| ==> IsBase58(s[i])
  {
    hide ValidPrefix;
    hide IsBase58;
    var p := ValidPrefix(s);
    assert p == s[..|p|];
  }

  // The conversion loops

  /** A digit buffer holding n. */
  ghost predicate Holds(b: nat, s: seq<byte>, n: nat) {
    AreDigits(b, s) && Number(b, s) == n
  }

  lemma CarryStep(c: nat, d: nat, m: nat, b: nat, p: nat, rest: nat, restWas: nat, carry: nat, q: nat, r: nat)
    requires rest + carry * p == restWas * m + c
    requires carry + d * m == q * b + r
    ensures (r * p + rest) + q * (b * p) == (d * p + restWas) * m + c
  {
    assert (carry + d * m) * p == (q * b + r) * p;
    assert q * (b * p) == (q * b) * p;
    assert (d * p + restWas) * m == (d * m) * p + restWas * m;
  }

  /** What is left to do once the digits from j on are multiplied. */
  ghost predicate Carrying(b: nat, m: nat, c: nat, was: seq<byte>, now: seq<byte>, j: nat, carry: nat) {
    && |was| == |now| && j <= |now| && carry < m
    && AreDigits(b, now) && AreDigits(b, was) && now[..j] == was[..j]
    && Number(b, now[j..]) + carry * Pow(b, |now| - j) == Number(b, was[j..]) * m + c
  }

  lemma Carried(b: nat, m: nat, c: nat, was: seq<byte>, now: seq<byte>, j: nat, carry: nat, q: nat, r: byte)
    requires 0 < j && Carrying(b, m, c, was, now, j, carry)
    requires carry + was[j - 1] * m == q * b + r && r < b && q < m
    ensures Carrying(b, m, c, was, now[j - 1 := r], j - 1, q)
  {
    var next := now[j - 1 := r];
    assert next[j - 1..][1..] == now[j..];
    assert was[j - 1..][1..] == was[j..];
    CarryStep(c, was[j - 1], m, b, Pow(b, |now| - j), Number(b, now[j..]), Number(b, was[j..]), carry, q, r);
  }

  lemma NothingCarried(b: nat, m: nat, c: nat, was: seq<byte>, now: seq<byte>, carry: nat)
    requires b > 0 && Carrying(b, m, c, was, now, 0, carry)
    requires Number(b, was) * m + c < Pow(b, |was|)
    ensures carry == 0 && Holds(b, now, Number(b, was) * m + c)
  {
    assert now[0..] == now && was[0..] == was;
    TooSmallToCarry(carry, Pow(b, |now|), Number(b, now));
  }

  lemma TooSmallToCarry(carry: nat, p: nat, x: nat)
    requires x + carry * p < p
    ensures carry == 0
  {
  }

  lemma DigitCarry(b: nat, m: nat, t: nat, d: nat, carry: nat)
    requires (b == 58 && m == 256) || (b == 256 && m == 58)
    requires d < b && carry < m && t == carry + d * m
    ensures t < W32 && t / b < m && t % b < 0x100 && t == t / b * b + t % b
  {
    if b == 58 {
      assert t / 58 < 256;
    } else {
      assert t / 256 < 58;
    }
  }

  /** The inner loop of both directions: multiply the buffer by m and add c, with no carry left at the end. */
  method MultiplyAdd(buf: array<byte>, b: nat, m: nat, c: nat, ghost n: nat)
    requires (b == 58 && m == 256) || (b == 256 && m == 58)
    requires c < m && Holds(b, buf[..], n) && n * m + c < Pow(b, buf.Length)
    modifies buf
    ensures Holds(b, buf[..], n * m + c)
  {
    hide Carrying;
    hide Number;
    ghost var was := buf[..];
    var carry: u32 := c;
    var j := buf.Length;
    CarryStarts(b, m, c, was);
    while j > 0
      invariant 0 <= j <= buf.Length
      invariant Carrying(b, m, c, was, buf[..], j, carry)
    {
      carry, j := MultiplyDigit(buf, b, m, c, was, j, carry);
    }
    NothingCarried(b, m, c, was, buf[..], carry);
  }

  lemma CarryStarts(b: nat, m: nat, c: nat, was: seq<byte>)
    requires c < m && AreDigits(b, was)
    ensures Carrying(b, m, c, was, was, |was|, c)
  {
  }

  method MultiplyDigit(buf: array<byte>, b: nat, m: nat, ghost c: nat, ghost was: seq<byte>, j: nat, carry: u32)
    returns (carry': u32, j': nat)
    requires (b == 58 && m == 256) || (b == 256 && m == 58)
    requires 0 < j && Carrying(b, m, c, was, buf[..], j, carry)
    modifies buf
    ensures j' == j - 1 && Carrying(b, m, c, was, buf[..], j', carry')
  {
    hide Number;
    assert buf[j - 1] == was[j - 1] by {
      assert buf[..][..j][j - 1] == was[..j][j - 1];
    }
    DigitCarry(b, m, carry + buf[j - 1] * m, buf[j - 1], carry);
    var t: u32 := carry + buf[j - 1] * m;
    Carried(b, m, c, was, buf[..], j, carry, t / b, t % b);
    ghost var next := buf[..][j - 1 := t % b];
    buf[j - 1] := t % b;
    assert buf[..] == next;
    carry' := t / b;
    j' := j - 1;
  }

  /** A zeroed buffer. */
  method Zeros(n: nat) returns (buf: array<byte>)
    ensures fresh(buf) && buf.Length == n && Number(58, buf[..]) == Number(256, buf[..]) == 0
    ensures forall i :: 0 <= i < n ==> buf[i] == 0
  {
    buf := new byte[n](_ => 0);
    NumberSkipsZeros(58, buf[..], n);
    NumberSkipsZeros(256, buf[..], n);
    assert buf[..][n..] == [];
  }

  method SkipLeading<T(==)>(s: seq<T>, x: T) returns (i: nat)
    ensures i == Leading(s, x)
  {
    i := 0;
    while i < |s| && s[i] == x
      invariant i <= |s| && forall k :: 0 <= k < i ==> s[k] == x
    {
      i := i + 1;
    }
    LeadingIs(s, x, i);
  }

  lemma StillRoom(a: nat, b: nat, s: seq<byte>, i: nat, size: nat)
    requires 0 < a <= 0x100 && AreDigits(a, s) && i < |s| && Pow(a, |s|) <= Pow(b, size)
    ensures Number(a, s[..i + 1]) == Number(a, s[..i]) * a + s[i] < Pow(b, size)
  {
    assert s[..i + 1] == s[..i] + [s[i]];
    NumberAppend(a, s[..i], s[i]);
    NumberBound(a, s[..i + 1]);
    PowExponentMonotone(a, i + 1, |s|);
  }

  /** The base 58 digits of the bytes in data. */
  method ToBase58(data: seq<byte>) returns (buf: array<byte>)
    ensures fresh(buf) && Holds(58, buf[..], Number(256, data))
  {
    hide Number;
    hide Pow;
    buf := Zeros(|data| * 138 / 100 + 1);
    EncoderRoom(|data|);
    NoDigits(256);
    var i := 0;
    while i < |data|
      invariant i <= |data| && Holds(58, buf[..], Number(256, data[..i]))
    {
      StillRoom(256, 58, data, i, buf.Length);
      MultiplyAdd(buf, 58, 256, data[i], Number(256, data[..i]));
      i := i + 1;
    }
    assert data[..i] == data;
  }

  lemma PrefixGrows(s: string, i: nat)
    requires i < |s| && ValidPrefix(s[..i]) == s[..i] && IsBase58(s[i])
    ensures ValidPrefix(s[..i + 1]) == s[..i + 1]
    ensures DigitsIn(s[..i + 1]) == DigitsIn(s[..i]) + [Digit(s[i])]
  {
    hide IsBase58;
    hide Digit;
    hide ValidPrefix;
    var t := s[..i + 1];
    assert forall k :: 0 <= k < i ==> t[k] == s[..i][k];
    WholeWhenValid(s[..i]);
    WholeWhenValid(t);
  }

  lemma DigitsInRoom(s: string, i: nat, size: nat)
    requires i < |s| && ValidPrefix(s[..i + 1]) == s[..i + 1]
    requires Pow(58, |s|) <= Pow(256, size)
    ensures Number(58, DigitsIn(s[..i + 1])) < Pow(256, size)
  {
    NumberBound(58, DigitsIn(s[..i + 1]));
    PowExponentMonotone(58, i + 1, |s|);
  }

  /** The bytes of the digits in s, up to the first character outside the alphabet. */
  method FromBase58(s: string) returns (buf: array<byte>)
    ensures fresh(buf) && Holds(256, buf[..], Number(58, DigitsIn(ValidPrefix(s))))
  {
    hide Number;
    hide Pow;
    hide DigitOf;
    hide DigitsIn;
    hide ValidPrefix;
    buf := Zeros(|s| * 733 / 1000 + 1);
    DecoderRoom(|s|);
    NoDigits(58);
    var i := 0;
    while i < |s|
      invariant i <= |s| && ValidPrefix(s[..i]) == s[..i]
      invariant Holds(256, buf[..], Number(58, DigitsIn(s[..i])))
    {
      var carry := DigitOf(s[i]);
      if carry >= 58 {
        ValidPrefixIs(s, i);
        return;
      }
      PrefixGrows(s, i);
      NumberAppend(58, DigitsIn(s[..i]), carry);
      DigitsInRoom(s, i, buf.Length);
      MultiplyAdd(buf, 256, 58, carry, Number(58, DigitsIn(s[..i])));
      i := i + 1;
    }
    assert s[..i] == s;
  }

  // Encode and decode

  lemma DigitsAfterZeros(b: nat, s: seq<byte>, n: nat)
    requires 2 <= b <= 0x100 && Holds(b, s, n)
    ensures s[Leading(s, 0)..] == Digits(b, n)
  {
    hide Number;
    hide Digits;
    var i := Leading(s, 0);
    NumberSkipsZeros(b, s, i);
    NumberHasDigits(b, s[i..]);
  }

  /** dst so far: done has been written, the rest is still as it was. */
  ghost predicate Written<T>(dst: seq<T>, done: seq<T>, was: seq<T>) {
    |done| <= |was| == |dst| && dst == done + was[|done|..]
  }

  method Write<T>(dst: array<T>, off: nat, s: seq<T>, ghost done: seq<T>, ghost was: seq<T>)
    requires off == |done| && off + |s| <= dst.Length && Written(dst[..], done, was)
    modifies dst
    ensures Written(dst[..], done + s, was)
  {
    forall i | 0 <= i < |s| {
      dst[off + i] := s[i];
    }
  }

  method WriteText(str: array<char>, zcount: nat, ds: seq<byte>)
    requires zcount + |ds| < str.Length && forall i :: 0 <= i < |ds| ==> ds[i] < 58
    modifies str
    ensures Written(str[..], Repeat('1', zcount) + Characters(ds) + ['\0'], old(str[..]))
  {
    hide Characters;
    hide Repeat;
    hide Written;
    ghost var was := str[..];
    RepeatLength('1', zcount);
    NothingWritten(was);
    Write(str, 0, Repeat('1', zcount), [], was);
    assert [] + Repeat('1', zcount) == Repeat('1', zcount);
    Write(str, zcount, Characters(ds), Repeat('1', zcount), was);
    Write(str, zcount + |ds|, ['\0'], Repeat('1', zcount) + Characters(ds), was);
  }

  lemma NothingWritten<T>(s: seq<T>)
    ensures Written(s, [], s)
  {
  }

  lemma RepeatLength<T>(x: T, n: nat)
    ensures |Repeat(x, n)| == n
  {
  }

  /** BRBase58Encode: the length with the terminator, or 0 if the buffer is too short and then left alone. */
  method Encode(str: array?<char>, data: seq<byte>) returns (len: nat)
    modifies if str == null then {} else {str}
    ensures len == if str == null || |Text(data)| + 1 <= str.Length then |Text(data)| + 1 else 0
    ensures str != null ==> if len == 0 then str[..] == old(str[..]) else Written(str[..], Text(data) + ['\0'], old(str[..]))
  {
    hide Digits;
    hide Number;
    hide Leading;
    var zcount := SkipLeading(data, 0);
    var buf := ToBase58(data[zcount..]);
    var i := SkipLeading(buf[..], 0);
    DigitsAfterZeros(58, buf[..], Number(256, data[zcount..]));
    len := zcount + buf.Length - i + 1;
    if str != null {
      if len <= str.Length {
        WriteText(str, zcount, buf[i..]);
      } else {
        len := 0;
      }
    }
  }

  /** BRBase58Decode: the length of the data, or 0 if the buffer is too short and then left alone. */
  method Decode(data: array?<byte>, str: string) returns (len: nat)
    modifies if data == null then {} else {data}
    ensures len == if data == null || |Bytes(str)| <= data.Length then |Bytes(str)| else 0
    ensures data != null ==> if |Bytes(str)| <= data.Length then Written(data[..], Bytes(str), old(data[..])) else data[..] == old(data[..])
  {
    hide Digits;
    hide Number;
    hide Leading;
    hide DigitsIn;
    hide ValidPrefix;
    var zcount := SkipLeading(str, '1');
    var buf := FromBase58(str[zcount..]);
    var i := SkipLeading(buf[..], 0);
    DigitsAfterZeros(256, buf[..], Number(58, DigitsIn(ValidPrefix(str[zcount..]))));
    len := zcount + buf.Length - i;
    if data != null {
      if len <= data.Length {
        ghost var was := data[..];
        Write(data, 0, Repeat(0, zcount), [], was);
        assert [] + Repeat<byte>(0, zcount) == Repeat<byte>(0, zcount);
        Write(data, zcount, buf[i..], Repeat(0, zcount), was);
      } else {
        len := 0;
      }
    }
  }

  // Base58Check: four bytes of a double hash behind the data

  function CheckText(sha2: seq<byte> -> Digest, data: seq<byte>): string {
    Text(data + sha2(data)[..4])
  }

  /** The data, or nothing at all if the checksum is wrong or missing. */
  function CheckBytes(sha2: seq<byte> -> Digest, str: string): seq<byte> {
    var b := Bytes(str);
    var n := |b| - 4;
    if n >= 0 && b[n..] == sha2(b[..n])[..4] then b[..n] else []
  }

  lemma CheckDecodeEncoded(sha2: seq<byte> -> Digest, data: seq<byte>)
    ensures CheckBytes(sha2, CheckText(sha2, data)) == data
  {
    hide Bytes;
    hide Text;
    var b := data + sha2(data)[..4];
    DecodeEncoded(b);
    assert b[..|data|] == data && b[|data|..] == sha2(data)[..4];
  }

  /** Only the encoding of non-empty data decodes to it. */
  lemma CheckDecodedOnly(sha2: seq<byte> -> Digest, str: string, data: seq<byte>)
    requires data != [] && forall i :: 0 <= i < |str| ==> IsBase58(str[i])
    ensures CheckBytes(sha2, str) == data <==> str == CheckText(sha2, data)
  {
    hide Bytes;
    hide Text;
    hide IsBase58;
    CheckDecodeEncoded(sha2, data);
    if CheckBytes(sha2, str) == data {
      var b := Bytes(str);
      EncodeDecoded(str);
      assert b == data + sha2(data)[..4];
    }
  }

  method CheckEncode(sha2: seq<byte> -> Digest, str: array?<char>, data: seq<byte>) returns (len: nat)
    modifies if str == null then {} else {str}
    ensures var text := CheckText(sha2, data);
            && (len == if str == null || |text| + 1 <= str.Length then |text| + 1 else 0)
            && (str != null ==> if len == 0 then str[..] == old(str[..]) else Written(str[..], text + ['\0'], old(str[..])))
  {
    hide Text;
    var buf := data + sha2(data);
    assert buf[..|data| + 4] == data + sha2(data)[..4];
    len := Encode(str, buf[..|data| + 4]);
  }

  lemma {:induction false} FewDigits(b: nat, n: nat, k: nat)
    requires 2 <= b <= 0x100 && n < Pow(b, k)
    ensures |Digits(b, n)| <= k
  {
    hide Digits;
    if n == 0 {
      NoDigits(b);
    } else {
      var q, d := n / b, n % b;
      DivisionStep(n, b);
      QuotientBelow(q, b, d, Pow(b, k - 1));
      DigitsStep(b, n, q, d);
      FewDigits(b, q, k - 1);
    }
  }

  lemma QuotientBelow(q: nat, b: nat, d: nat, p: nat)
    requires b > 0 && q * b + d < b * p
    ensures q < p
  {
    assert q >= p ==> q * b >= p * b;
  }

  /** A string never decodes to more bytes than it has characters. */
  lemma DecodedFits(str: string)
    ensures |Bytes(str)| <= |str|
  {
    var z := Leading(str, '1');
    var ds := DigitsIn(ValidPrefix(str[z..]));
    NumberBound(58, ds);
    PowBaseMonotone(58, 256, |ds|);
    FewDigits(256, Number(58, ds), |ds|);
  }

  /** The encoding never has more characters than the digit buffer would for all the data. */
  lemma TextFits(data: seq<byte>)
    ensures |Text(data)| <= |data| * 138 / 100 + 1
  {
    hide Number;
    hide Digits;
    hide Pow;
    var z := Leading(data, 0);
    NumberBound(256, data[z..]);
    EncoderRoom(|data| - z);
    FewDigits(58, Number(256, data[z..]), (|data| - z) * 138 / 100 + 1);
  }

  method CheckDecode(sha2: seq<byte> -> Digest, data: array?<byte>, str: string) returns (len: nat)
    modifies if data == null then {} else {data}
    ensures var payload := CheckBytes(sha2, str);
            && (len == if data == null || |payload| <= data.Length then |payload| else 0)
            && (data != null ==> if |payload| <= data.Length then Written(data[..], payload, old(data[..]))
                                 else data[..] == old(data[..]))
  {
    hide Bytes;
    var buf := new byte[|str|];
    DecodedFits(str);
    len := Decode(buf, str);
    assert buf[..len] == Bytes(str);
    if len >= 4 {
      len := len - 4;
      var md := sha2(buf[..len]);
      assert buf[..len] == Bytes(str)[..len] && buf[len..len + 4] == Bytes(str)[len..];
      if buf[len..len + 4] != md[..4] {
        len := 0;
      }
      if data != null && len <= data.Length {
        NothingWritten(data[..]);
        Write(data, 0, buf[..len], [], data[..]);
        assert [] + buf[..len] == buf[..len];
      }
    } else {
      len := 0;
    }
    if data != null {
      if len > data.Length {
        len := 0;
      }
    }
  }
}

/**
 The block cipher of Modules/core/BRBIP38Key.c: AES-256 in place, with the key schedule expanded along
 the way by the encryption, and expanded in full and then unwound by the decryption.  The specification
 is FIPS 197.
 */
module Aes256 {

  // ---------- the two tables ----------

  /** The table sbox, 16 entries to a line. */
  function SboxLine(line: bv8): bv128 {
    match line
    case 0 => 0x637c777b_f26b6fc5_3001672b_fed7ab76
    case 1 => 0xca82c97d_fa5947f0_add4a2af_9ca472c0
    case 2 => 0xb7fd9326_363ff7cc_34a5e5f1_71d83115
    case 3 => 0x04c723c3_1896059a_071280e2_eb27b275
    case 4 => 0x09832c1a_1b6e5aa0_523bd6b3_29e32f84
    case 5 => 0x53d100ed_20fcb15b_6acbbe39_4a4c58cf
    case 6 => 0xd0efaafb_434d3385_45f9027f_503c9fa8
    case 7 => 0x51a3408f_929d38f5_bcb6da21_10fff3d2
    case 8 => 0xcd0c13ec_5f974417_c4a77e3d_645d1973
    case 9 => 0x60814fdc_222a9088_46eeb814_de5e0bdb
    case 10 => 0xe0323a0a_4906245c_c2d3ac62_9195e479
    case 11 => 0xe7c8376d_8dd54ea9_6c56f4ea_657aae08
    case 12 => 0xba78252e_1ca6b4c6_e8dd741f_4bbd8b8a
    case 13 => 0x703eb566_4803f60e_613557b9_86c11d9e
    case 14 => 0xe1f89811_69d98e94_9b1e87e9_ce5528df
    case _ => 0x8ca1890d_bfe64268_41992d0f_b054bb16
  }

  /** The table sboxi, 16 entries to a line. */
  function SboxInverseLine(line: bv8): bv128 {
    match line
    case 0 => 0x52096ad5_3036a538_bf40a39e_81f3d7fb
    case 1 => 0x7ce33982_9b2fff87_348e4344_c4dee9cb
    case 2 => 0x547b9432_a6c2233d_ee4c950b_42fac34e
    case 3 => 0x082ea166_28d924b2_765ba249_6d8bd125
    case 4 => 0x72f8f664_86689816_d4a45ccc_5d65b692
    case 5 => 0x6c704850_fdedb9da_5e154657_a78d9d84
    case 6 => 0x90d8ab00_8cbcd30a_f7e45805_b8b34506
    case 7 => 0xd02c1e8f_ca3f0f02_c1afbd03_01138a6b
    case 8 => 0x3a911141_4f67dcea_97f2cfce_f0b4e673
    case 9 => 0x96ac7422_e7ad3585_e2f937e8_1c75df6e
    case 10 => 0x47f11a71_1d29c589_6fb7620e_aa18be1b
    case 11 => 0xfc563e4b_c6d27920_9adbc0fe_78cd5af4
    case 12 => 0x1fdda833_8807c731_b1121059_2780ec5f
    case 13 => 0x60517fa9_19b54a0d_2de57a9f_93c99cef
    case 14 => 0xa0e03b4d_ae2af5b0_c8ebbb3c_83539961
    case _ => 0x172b047e_ba77d626_e1691463_55210c7d
  }

  /** Entry x & 15 of a line. */
  function Entry(line: bv128, x: bv8): bv8 {
    ((line >> ((15 - (x & 0xf)) * 8)) & 0xff) as bv8
  }

  function Sbox(x: bv8): bv8 {
    Entry(SboxLine(x >> 4), x)
  }

  function SboxInverse(x: bv8): bv8 {
    Entry(SboxInverseLine(x >> 4), x)
  }

  lemma TablesInverse(x: bv8)
    ensures SboxInverse(Sbox(x)) == x
  {
    if x < 0x80 { TablesInverseLow(x); } else { TablesInverseHigh(x); }
  }

  lemma TablesInverseLow(x: bv8)
    requires x < 0x80
    ensures SboxInverse(Sbox(x)) == x
  {
  }

  lemma TablesInverseHigh(x: bv8)
    requires 0x80 <= x
    ensures SboxInverse(Sbox(x)) == x
  {
  }

  /** Multiplication by 2 in the field of section 4.2 of FIPS 197: the macro xt. */
  function Xt(x: bv8): bv8 {
    (x << 1) ^ (((x >> 7) & 1) * 0x1b)
  }

  /** Division by 2 in the same field. */
  function Untx(x: bv8): bv8 {
    (x >> 1) ^ ((x & 1) * 0x8d)
  }

  lemma XtUndone(x: bv8)
    ensures Untx(Xt(x)) == x
  {
  }

  /** Multiplication in the field. */
  function Times(x: bv8, y: bv8): bv8 {
    var x1 := Xt(x);
    var x2 := Xt(x1);
    var x3 := Xt(x2);
    var x4 := Xt(x3);
    var x5 := Xt(x4);
    var x6 := Xt(x5);
    var x7 := Xt(x6);
    Part(y, 0, x) ^ Part(y, 1, x1) ^ Part(y, 2, x2) ^ Part(y, 3, x3) ^ Part(y, 4, x4) ^ Part(y, 5, x5) ^ Part(y, 6, x6) ^ Part(y, 7, x7)
  }

  function Part(y: bv8, k: int, x: bv8): bv8
    requires 0 <= k < 8
  {
    if (y >> k) & 1 == 1 then x else 0
  }

  function Rotl(x: bv8, k: int): bv8
    requires 0 < k < 8
  {
    (x << k) | (x >> (8 - k))
  }

  /** The affine transformation of section 5.1.1 of FIPS 197, and the one that undoes it. */
  function Affine(x: bv8): bv8 {
    x ^ Rotl(x, 1) ^ Rotl(x, 2) ^ Rotl(x, 3) ^ Rotl(x, 4) ^ 0x63
  }

  function AffineInverse(x: bv8): bv8 {
    Rotl(x, 1) ^ Rotl(x, 3) ^ Rotl(x, 6) ^ 0x05
  }

  /** The table is the one section 5.1.1 of FIPS 197 defines: the inverse in the field, then the affine map. */
  lemma SboxIsStandard(x: bv8)
    ensures exists y :: Sbox(x) == Affine(y) && if x == 0 then y == 0 else Times(y, x) == 1
  {
    var y := AffineInverse(Sbox(x));
    AffineUndone(Sbox(x));
    match x >> 5
    case 0 => SboxInverts0(x);
    case 1 => SboxInverts1(x);
    case 2 => SboxInverts2(x);
    case 3 => SboxInverts3(x);
    case 4 => SboxInverts4(x);
    case 5 => SboxInverts5(x);
    case 6 => SboxInverts6(x);
    case _ => SboxInverts7(x);
    assert Sbox(x) == Affine(y);
  }

  lemma AffineUndone(x: bv8)
    ensures Affine(AffineInverse(x)) == x
  {
  }

  // The check below, an eighth of the table at a time.

  lemma SboxInverts0(x: bv8)
    requires x >> 5 == 0
    ensures if x == 0 then AffineInverse(Sbox(x)) == 0 else Times(AffineInverse(Sbox(x)), x) == 1
  {
  }

  lemma SboxInverts1(x: bv8)
    requires x >> 5 == 1
    ensures Times(AffineInverse(Sbox(x)), x) == 1
  {
  }

  lemma SboxInverts2(x: bv8)
    requires x >> 5 == 2
    ensures Times(AffineInverse(Sbox(x)), x) == 1
  {
  }

  lemma SboxInverts3(x: bv8)
    requires x >> 5 == 3
    ensures Times(AffineInverse(Sbox(x)), x) == 1
  {
  }

  lemma SboxInverts4(x: bv8)
    requires x >> 5 == 4
    ensures Times(AffineInverse(Sbox(x)), x) == 1
  {
  }

  lemma SboxInverts5(x: bv8)
    requires x >> 5 == 5
    ensures Times(AffineInverse(Sbox(x)), x) == 1
  {
  }

  lemma SboxInverts6(x: bv8)
    requires x >> 5 == 6
    ensures Times(AffineInverse(Sbox(x)), x) == 1
  {
  }

  lemma SboxInverts7(x: bv8)
    requires x >> 5 == 7
    ensures Times(AffineInverse(Sbox(x)), x) == 1
  {
  }

  // ---------- sums ----------

  function Xor(x: bv8, y: bv8): bv8 {
    x ^ y
  }

  function Xor4(a: bv8, b: bv8, c: bv8, d: bv8): bv8 {
    a ^ b ^ c ^ d
  }

  lemma XtSum(x: bv8, y: bv8, z: bv8)
    requires z == Xor(x, y)
    ensures Xt(z) == Xor(Xt(x), Xt(y))
  {
  }

  lemma SumOfSums(p: bv8, p1: bv8, p2: bv8, q: bv8, q1: bv8, q2: bv8)
    requires p == Xor(p1, p2) && q == Xor(q1, q2)
    ensures Xor(p, q) == Xor(Xor(p1, q1), Xor(p2, q2))
  {
  }

  lemma Sum4OfSums(p: bv8, p1: bv8, p2: bv8, q: bv8, q1: bv8, q2: bv8, r: bv8, r1: bv8, r2: bv8, s: bv8, s1: bv8, s2: bv8)
    requires p == Xor(p1, p2) && q == Xor(q1, q2) && r == Xor(r1, r2) && s == Xor(s1, s2)
    ensures Xor4(p, q, r, s) == Xor(Xor4(p1, q1, r1, s1), Xor4(p2, q2, r2, s2))
  {
  }

  // The constant multiples in the two column maps, by repeated doubling.

  function Times3(x: bv8): bv8 {
    Xor(Xt(x), x)
  }

  function Times9(x: bv8): bv8 {
    Xor(Xt(Xt(Xt(x))), x)
  }

  function TimesB(x: bv8): bv8 {
    Xor(Times9(x), Xt(x))
  }

  function TimesD(x: bv8): bv8 {
    Xor(Times9(x), Xt(Xt(x)))
  }

  function TimesE(x: bv8): bv8 {
    Xor(Xor(Xt(Xt(Xt(x))), Xt(Xt(x))), Xt(x))
  }

  lemma MultiplesAreProducts(x: bv8)
    ensures Xt(x) == Times(x, 2) && Times3(x) == Times(x, 3) && Times9(x) == Times(x, 9)
    ensures TimesB(x) == Times(x, 0xb) && TimesD(x) == Times(x, 0xd) && TimesE(x) == Times(x, 0xe)
  {
    hide Times;
    hide Xt;
    SmallProducts(x);
    LargeProducts(x);
  }

  lemma SmallProducts(x: bv8)
    ensures Xt(x) == Times(x, 2) && Times3(x) == Times(x, 3) && Times9(x) == Times(x, 9)
  {
  }

  lemma LargeProducts(x: bv8)
    ensures TimesB(x) == Times(x, 0xb) && TimesD(x) == Times(x, 0xd) && TimesE(x) == Times(x, 0xe)
  {
  }

  lemma MultiplesOfSum(x: bv8, y: bv8, z: bv8)
    requires z == Xor(x, y)
    ensures Xt(z) == Xor(Xt(x), Xt(y)) && Times3(z) == Xor(Times3(x), Times3(y)) && Times9(z) == Xor(Times9(x), Times9(y))
    ensures TimesB(z) == Xor(TimesB(x), TimesB(y)) && TimesD(z) == Xor(TimesD(x), TimesD(y))
    ensures TimesE(z) == Xor(TimesE(x), TimesE(y))
  {
    hide Xt;
    hide Xor;
    var x1, y1, z1 := Xt(x), Xt(y), Xt(z);
    var x2, y2, z2 := Xt(x1), Xt(y1), Xt(z1);
    var x3, y3, z3 := Xt(x2), Xt(y2), Xt(z2);
    XtSum(x, y, z);
    XtSum(x1, y1, z1);
    XtSum(x2, y2, z2);
    SumOfSums(z1, x1, y1, z, x, y);
    SumOfSums(z3, x3, y3, z, x, y);
    SumOfSums(Times9(z), Times9(x), Times9(y), z1, x1, y1);
    SumOfSums(Times9(z), Times9(x), Times9(y), z2, x2, y2);
    SumOfSums(z3, x3, y3, z2, x2, y2);
    SumOfSums(Xor(z3, z2), Xor(x3, x2), Xor(y3, y2), z1, x1, y1);
  }

  // ---------- the state ----------

  /** Four bytes: a column of the state or a word of the key schedule. */
  datatype Column = Column(a: bv8, b: bv8, c: bv8, d: bv8)

  datatype State = State(c0: Column, c1: Column, c2: Column, c3: Column)

  function AddColumns(x: Column, y: Column): Column {
    Column(Xor(x.a, y.a), Xor(x.b, y.b), Xor(x.c, y.c), Xor(x.d, y.d))
  }

  function AddRoundKey(s: State, k: State): State {
    State(AddColumns(s.c0, k.c0), AddColumns(s.c1, k.c1), AddColumns(s.c2, k.c2), AddColumns(s.c3, k.c3))
  }

  function SubColumn(x: Column): Column {
    Column(Sbox(x.a), Sbox(x.b), Sbox(x.c), Sbox(x.d))
  }

  function InvSubColumn(x: Column): Column {
    Column(SboxInverse(x.a), SboxInverse(x.b), SboxInverse(x.c), SboxInverse(x.d))
  }

  function SubBytes(s: State): State {
    State(SubColumn(s.c0), SubColumn(s.c1), SubColumn(s.c2), SubColumn(s.c3))
  }

  function InvSubBytes(s: State): State {
    State(InvSubColumn(s.c0), InvSubColumn(s.c1), InvSubColumn(s.c2), InvSubColumn(s.c3))
  }

  /** Row r of the state moves r columns to the left. */
  function ShiftRows(s: State): State {
    State(Column(s.c0.a, s.c1.b, s.c2.c, s.c3.d), Column(s.c1.a, s.c2.b, s.c3.c, s.c0.d),
          Column(s.c2.a, s.c3.b, s.c0.c, s.c1.d), Column(s.c3.a, s.c0.b, s.c1.c, s.c2.d))
  }

  function InvShiftRows(s: State): State {
    State(Column(s.c0.a, s.c3.b, s.c2.c, s.c1.d), Column(s.c1.a, s.c0.b, s.c3.c, s.c2.d),
          Column(s.c2.a, s.c1.b, s.c0.c, s.c3.d), Column(s.c3.a, s.c2.b, s.c1.c, s.c0.d))
  }

  /** Section 5.1.3 of FIPS 197: the column times 03 x^3 + 01 x^2 + 01 x + 02. */
  function MixColumn(x: Column): Column {
    Column(Xor4(Xt(x.a), Times3(x.b), x.c, x.d), Xor4(x.a, Xt(x.b), Times3(x.c), x.d),
           Xor4(x.a, x.b, Xt(x.c), Times3(x.d)), Xor4(Times3(x.a), x.b, x.c, Xt(x.d)))
  }

  /** The matrix of section 5.1.3 of FIPS 197, with multiplication in the field. */
  lemma MixColumnIs(x: Column)
    ensures MixColumn(x)
            == Column(Xor4(Times(x.a, 2), Times(x.b, 3), x.c, x.d), Xor4(x.a, Times(x.b, 2), Times(x.c, 3), x.d),
                      Xor4(x.a, x.b, Times(x.c, 2), Times(x.d, 3)), Xor4(Times(x.a, 3), x.b, x.c, Times(x.d, 2)))
  {
    hide Times;
    hide Times3;
    hide Xt;
    hide Xor4;
    TimesIs(x.a);
    TimesIs(x.b);
    TimesIs(x.c);
    TimesIs(x.d);
  }

  lemma Xor4Is(a: bv8, b: bv8, c: bv8, d: bv8)
    ensures Xor4(a, b, c, d) == a ^ b ^ c ^ d
  {
  }

  lemma TimesIs(x: bv8)
    ensures Times(x, 2) == Xt(x) && Times(x, 3) == Times3(x)
  {
  }

  /** Section 5.3.3 of FIPS 197: the column times 0b x^3 + 0d x^2 + 09 x + 0e. */
  function InvMixColumn(x: Column): Column {
    Column(Xor4(TimesE(x.a), TimesB(x.b), TimesD(x.c), Times9(x.d)), Xor4(Times9(x.a), TimesE(x.b), TimesB(x.c), TimesD(x.d)),
           Xor4(TimesD(x.a), Times9(x.b), TimesE(x.c), TimesB(x.d)), Xor4(TimesB(x.a), TimesD(x.b), Times9(x.c), TimesE(x.d)))
  }

  function MixColumns(s: State): State {
    State(MixColumn(s.c0), MixColumn(s.c1), MixColumn(s.c2), MixColumn(s.c3))
  }

  function InvMixColumns(s: State): State {
    State(InvMixColumn(s.c0), InvMixColumn(s.c1), InvMixColumn(s.c2), InvMixColumn(s.c3))
  }

  lemma MixColumnOfSum(x: Column, y: Column, z: Column)
    requires z == AddColumns(x, y)
    ensures MixColumn(z) == AddColumns(MixColumn(x), MixColumn(y))
  {
    hide Xor;
    hide Xor4;
    hide Xt;
    hide Times3;
    MultiplesOfSum(x.a, y.a, z.a);
    MultiplesOfSum(x.b, y.b, z.b);
    MultiplesOfSum(x.c, y.c, z.c);
    MultiplesOfSum(x.d, y.d, z.d);
    Sum4OfSums(Xt(z.a), Xt(x.a), Xt(y.a), Times3(z.b), Times3(x.b), Times3(y.b), z.c, x.c, y.c, z.d, x.d, y.d);
    Sum4OfSums(z.a, x.a, y.a, Xt(z.b), Xt(x.b), Xt(y.b), Times3(z.c), Times3(x.c), Times3(y.c), z.d, x.d, y.d);
    Sum4OfSums(z.a, x.a, y.a, z.b, x.b, y.b, Xt(z.c), Xt(x.c), Xt(y.c), Times3(z.d), Times3(x.d), Times3(y.d));
    Sum4OfSums(Times3(z.a), Times3(x.a), Times3(y.a), z.b, x.b, y.b, z.c, x.c, y.c, Xt(z.d), Xt(x.d), Xt(y.d));
  }

  lemma InvMixColumnOfSum(x: Column, y: Column, z: Column)
    requires z == AddColumns(x, y)
    ensures InvMixColumn(z) == AddColumns(InvMixColumn(x), InvMixColumn(y))
  {
    hide Xor;
    hide Xor4;
    hide Times9;
    hide TimesB;
    hide TimesD;
    hide TimesE;
    MultiplesOfSum(x.a, y.a, z.a);
    MultiplesOfSum(x.b, y.b, z.b);
    MultiplesOfSum(x.c, y.c, z.c);
    MultiplesOfSum(x.d, y.d, z.d);
    Sum4OfSums(TimesE(z.a), TimesE(x.a), TimesE(y.a), TimesB(z.b), TimesB(x.b), TimesB(y.b),
               TimesD(z.c), TimesD(x.c), TimesD(y.c), Times9(z.d), Times9(x.d), Times9(y.d));
    Sum4OfSums(Times9(z.a), Times9(x.a), Times9(y.a), TimesE(z.b), TimesE(x.b), TimesE(y.b),
               TimesB(z.c), TimesB(x.c), TimesB(y.c), TimesD(z.d), TimesD(x.d), TimesD(y.d));
    Sum4OfSums(TimesD(z.a), TimesD(x.a), TimesD(y.a), Times9(z.b), Times9(x.b), Times9(y.b),
               TimesE(z.c), TimesE(x.c), TimesE(y.c), TimesB(z.d), TimesB(x.d), TimesB(y.d));
    Sum4OfSums(TimesB(z.a), TimesB(x.a), TimesB(y.a), TimesD(z.b), TimesD(x.b), TimesD(y.b),
               Times9(z.c), Times9(x.c), Times9(y.c), TimesE(z.d), TimesE(x.d), TimesE(y.d));
  }

  lemma AxisAUndone(t: bv8)
    ensures InvMixColumn(MixColumn(Column(t, 0, 0, 0))) == Column(t, 0, 0, 0)
  {
  }

  lemma AxisBUndone(t: bv8)
    ensures InvMixColumn(MixColumn(Column(0, t, 0, 0))) == Column(0, t, 0, 0)
  {
  }

  lemma AxisCUndone(t: bv8)
    ensures InvMixColumn(MixColumn(Column(0, 0, t, 0))) == Column(0, 0, t, 0)
  {
  }

  lemma AxisDUndone(t: bv8)
    ensures InvMixColumn(MixColumn(Column(0, 0, 0, t))) == Column(0, 0, 0, t)
  {
  }

  lemma Axes(x: Column)
    ensures x == AddColumns(AddColumns(Column(x.a, 0, 0, 0), Column(0, x.b, 0, 0)), AddColumns(Column(0, 0, x.c, 0), Column(0, 0, 0, x.d)))
  {
  }

  /** What one map does to a sum the other undoes, if it does so for each summand. */
  lemma UndoneOnSum(x: Column, y: Column, z: Column)
    requires z == AddColumns(x, y) && InvMixColumn(MixColumn(x)) == x && InvMixColumn(MixColumn(y)) == y
    ensures InvMixColumn(MixColumn(z)) == z
  {
    hide AddColumns;
    hide MixColumn;
    hide InvMixColumn;
    MixColumnOfSum(x, y, z);
    InvMixColumnOfSum(MixColumn(x), MixColumn(y), MixColumn(z));
  }

  lemma MixColumnUndone(x: Column)
    ensures InvMixColumn(MixColumn(x)) == x
  {
    hide AddColumns;
    hide MixColumn;
    hide InvMixColumn;
    var a, b, c, d := Column(x.a, 0, 0, 0), Column(0, x.b, 0, 0), Column(0, 0, x.c, 0), Column(0, 0, 0, x.d);
    var ab, cd := AddColumns(a, b), AddColumns(c, d);
    Axes(x);
    AxisAUndone(x.a);
    AxisBUndone(x.b);
    AxisCUndone(x.c);
    AxisDUndone(x.d);
    UndoneOnSum(a, b, ab);
    UndoneOnSum(c, d, cd);
    UndoneOnSum(ab, cd, x);
  }

  lemma MixColumnsUndone(s: State)
    ensures InvMixColumns(MixColumns(s)) == s
  {
    hide MixColumn;
    hide InvMixColumn;
    MixColumnUndone(s.c0);
    MixColumnUndone(s.c1);
    MixColumnUndone(s.c2);
    MixColumnUndone(s.c3);
  }

  lemma SubBytesUndone(s: State)
    ensures InvSubBytes(SubBytes(s)) == s
  {
    hide Sbox;
    hide SboxInverse;
    forall x: bv8
      ensures SboxInverse(Sbox(x)) == x
    {
      TablesInverse(x);
    }
  }

  lemma AddRoundKeyUndone(s: State, k: State)
    ensures AddRoundKey(AddRoundKey(s, k), k) == s
  {
  }

  lemma ShiftRowsUndone(s: State)
    ensures InvShiftRows(ShiftRows(s)) == s
  {
  }

  // ---------- the key schedule ----------

  /** Eight words: as much of the schedule as the code holds at a time. */
  datatype Keys = Keys(k0: Column, k1: Column, k2: Column, k3: Column, k4: Column, k5: Column, k6: Column, k7: Column)

  function RotColumn(x: Column): Column {
    Column(x.b, x.c, x.d, x.a)
  }

  /** Four bytes as one word, the first byte highest. */
  function Bits(a: bv8, b: bv8, c: bv8, d: bv8): bv32 {
    (a as bv32 << 24) | (b as bv32 << 16) | (c as bv32 << 8) | d as bv32
  }

  lemma RotBits(a: bv8, b: bv8, c: bv8, d: bv8)
    ensures Bits(b, c, d, a) == (Bits(a, b, c, d) << 8) | (Bits(a, b, c, d) >> 24)
  {
  }

  /** RotWord of section 5.2 of FIPS 197 turns a word left by one byte: a1 a2 a3 a0. */
  lemma RotColumnIs(x: Column)
    ensures var w, v := Bits(x.a, x.b, x.c, x.d), RotColumn(x);
            Bits(v.a, v.b, v.c, v.d) == (w << 8) | (w >> 24)
    ensures BytesOfColumn(RotColumn(x)) == BytesOfColumn(x)[1..] + BytesOfColumn(x)[..1]
  {
    hide Bits;
    forall a: bv8, b: bv8, c: bv8, d: bv8
      ensures Bits(b, c, d, a) == (Bits(a, b, c, d) << 8) | (Bits(a, b, c, d) >> 24)
    {
      RotBits(a, b, c, d);
    }
  }

  function FirstWord(k0: Column, k7: Column, r: bv8): Column {
    AddColumns(k0, AddColumns(SubColumn(RotColumn(k7)), Column(r, 0, 0, 0)))
  }

  function NextKeys(k: Keys, r: bv8): Keys {
    var n0 := FirstWord(k.k0, k.k7, r);
    var n1 := AddColumns(k.k1, n0);
    var n2 := AddColumns(k.k2, n1);
    var n3 := AddColumns(k.k3, n2);
    var n4 := AddColumns(k.k4, SubColumn(n3));
    var n5 := AddColumns(k.k5, n4);
    var n6 := AddColumns(k.k6, n5);
    Keys(n0, n1, n2, n3, n4, n5, n6, AddColumns(k.k7, n6))
  }

  function PreviousKeys(n: Keys, r: bv8): Keys {
    var k7 := AddColumns(n.k7, n.k6);
    Keys(FirstWord(n.k0, k7, r), AddColumns(n.k1, n.k0), AddColumns(n.k2, n.k1), AddColumns(n.k3, n.k2),
         AddColumns(n.k4, SubColumn(n.k3)), AddColumns(n.k5, n.k4), AddColumns(n.k6, n.k5), k7)
  }

  lemma AddedTwice(x: Column, y: Column)
    ensures AddColumns(AddColumns(x, y), y) == x
  {
  }

  lemma NextKeysUndone(k: Keys, r: bv8)
    ensures PreviousKeys(NextKeys(k, r), r) == k
  {
    hide AddColumns;
    hide SubColumn;
    var n := NextKeys(k, r);
    AddedTwice(k.k0, AddColumns(SubColumn(RotColumn(k.k7)), Column(r, 0, 0, 0)));
    AddedTwice(k.k1, n.k0);
    AddedTwice(k.k2, n.k1);
    AddedTwice(k.k3, n.k2);
    AddedTwice(k.k4, SubColumn(n.k3));
    AddedTwice(k.k5, n.k4);
    AddedTwice(k.k6, n.k5);
    AddedTwice(k.k7, n.k6);
  }

  /** x^(n-1) in the field: the round constants of section 5.2 of FIPS 197. */
  function RoundConstant(n: nat): bv8 {
    if n <= 1 then 1 else Xt(RoundConstant(n - 1))
  }

  /** The words the code holds after n expansions. */
  function KeysAt(key: Keys, n: nat): Keys
    decreases n, key
  {
    if n == 0 then key else NextKeys(KeysAt(key, n - 1), RoundConstant(n))
  }

  function WordOf(k: Keys, j: nat): Column
    requires j < 8
  {
    match j case 0 => k.k0 case 1 => k.k1 case 2 => k.k2 case 3 => k.k3 case 4 => k.k4 case 5 => k.k5 case 6 => k.k6 case _ => k.k7
  }

  /** Word i of the schedule as section 5.2 of FIPS 197 computes it for a key of eight words. */
  function ScheduleWord(key: Keys, i: nat): Column
    decreases i, key
  {
    if i < 8 then WordOf(key, i)
    else
      var temp := ScheduleWord(key, i - 1);
      AddColumns(ScheduleWord(key, i - 8),
                 if i % 8 == 0 then AddColumns(SubColumn(RotColumn(temp)), Column(RoundConstant(i / 8), 0, 0, 0))
                 else if i % 8 == 4 then SubColumn(temp) else temp)
  }

  lemma ScheduleStep(key: Keys, n: nat, j: nat, w: Keys, v: Keys)
    requires n > 0 && j < 8 && v == NextKeys(w, RoundConstant(n))
    requires WordOf(w, j) == ScheduleWord(key, 8 * (n - 1) + j)
    requires if j == 0 then w.k7 == ScheduleWord(key, 8 * n - 1) else WordOf(v, j - 1) == ScheduleWord(key, 8 * n + j - 1)
    ensures WordOf(v, j) == ScheduleWord(key, 8 * n + j)
  {
    hide AddColumns;
    hide SubColumn;
    assert (8 * n + j) % 8 == j && (8 * n + j) / 8 == n;
    assert 8 * n + j - 8 == 8 * (n - 1) + j;
  }

  /** The eight words held after n expansions are words 8n to 8n+7 of the standard schedule. */
  lemma {:induction false} KeysAreScheduleWords(key: Keys, n: nat, j: nat)
    requires j < 8
    ensures WordOf(KeysAt(key, n), j) == ScheduleWord(key, 8 * n + j)
    decreases n, j
  {
    hide NextKeys;
    hide KeysAt;
    hide ScheduleWord;
    if n == 0 {
      FirstKeys(key, j);
    } else {
      var w, v := KeysAt(key, n - 1), KeysAt(key, n);
      KeysAtNext(key, n);
      KeysAreScheduleWords(key, n - 1, j);
      if j == 0 {
        KeysAreScheduleWords(key, n - 1, 7);
        assert WordOf(w, 7) == w.k7;
      } else {
        KeysAreScheduleWords(key, n, j - 1);
      }
      ScheduleStep(key, n, j, w, v);
    }
  }

  lemma FirstKeys(key: Keys, j: nat)
    requires j < 8
    ensures KeysAt(key, 0) == key && ScheduleWord(key, j) == WordOf(key, j)
  {
  }

  lemma KeysAtNext(key: Keys, n: nat)
    requires n > 0
    ensures KeysAt(key, n) == NextKeys(KeysAt(key, n - 1), RoundConstant(n))
  {
  }

  function RoundKey(key: Keys, i: nat): State {
    var k := KeysAt(key, i / 2);
    if i % 2 == 0 then State(k.k0, k.k1, k.k2, k.k3) else State(k.k4, k.k5, k.k6, k.k7)
  }

  // ---------- the cipher of sections 5.1 and 5.3 of FIPS 197 ----------

  function CipherRound(s: State, key: Keys, n: nat): State
    decreases n, s
  {
    if n == 0 then AddRoundKey(s, RoundKey(key, 0))
    else AddRoundKey(MixColumns(ShiftRows(SubBytes(CipherRound(s, key, n - 1)))), RoundKey(key, n))
  }

  function Cipher(s: State, key: Keys): State {
    AddRoundKey(ShiftRows(SubBytes(CipherRound(s, key, 13))), RoundKey(key, 14))
  }

  function InverseRound(s: State, key: Keys, n: nat): State
    requires n <= 14
    decreases n, s
  {
    if n == 0 then AddRoundKey(s, RoundKey(key, 14))
    else InvMixColumns(AddRoundKey(InvSubBytes(InvShiftRows(InverseRound(s, key, n - 1))), RoundKey(key, 14 - n)))
  }

  function InverseCipher(s: State, key: Keys): State {
    AddRoundKey(InvSubBytes(InvShiftRows(InverseRound(s, key, 13))), RoundKey(key, 0))
  }

  lemma {:induction false} InverseRoundUndoes(s: State, key: Keys, n: nat)
    requires n <= 13
    ensures InverseRound(Cipher(s, key), key, n) == ShiftRows(SubBytes(CipherRound(s, key, 13 - n)))
    decreases n
  {
    hide AddRoundKey;
    hide ShiftRows;
    hide SubBytes;
    hide MixColumns;
    hide InvShiftRows;
    hide InvSubBytes;
    hide InvMixColumns;
    hide RoundKey;
    if n == 0 {
      AddRoundKeyUndone(ShiftRows(SubBytes(CipherRound(s, key, 13))), RoundKey(key, 14));
    } else {
      InverseRoundUndoes(s, key, n - 1);
      var t := CipherRound(s, key, 14 - n);
      var m := ShiftRows(SubBytes(CipherRound(s, key, 13 - n)));
      ShiftRowsUndone(SubBytes(t));
      SubBytesUndone(t);
      assert t == AddRoundKey(MixColumns(m), RoundKey(key, 14 - n));
      AddRoundKeyUndone(MixColumns(m), RoundKey(key, 14 - n));
      MixColumnsUndone(m);
    }
  }

  /** Decryption undoes encryption, for every key and block. */
  lemma InverseCipherUndoes(s: State, key: Keys)
    ensures InverseCipher(Cipher(s, key), key) == s
  {
    hide AddRoundKey;
    hide ShiftRows;
    hide SubBytes;
    hide InvShiftRows;
    hide InvSubBytes;
    hide RoundKey;
    hide Cipher;
    InverseRoundUndoes(s, key, 13);
    var t := CipherRound(s, key, 0);
    ShiftRowsUndone(SubBytes(t));
    SubBytesUndone(t);
    AddRoundKeyUndone(s, RoundKey(key, 0));
  }

  // ---------- what the code does to a column ----------

  /** The mix-columns step on one column, as the code computes it. */
  function CodeMix(x: Column): Column {
    var e := Xor4(x.a, x.b, x.c, x.d);
    Column(Xor(x.a, Xor(e, Xt(Xor(x.a, x.b)))), Xor(x.b, Xor(e, Xt(Xor(x.b, x.c)))),
           Xor(x.c, Xor(e, Xt(Xor(x.c, x.d)))), Xor(x.d, Xor(e, Xt(Xor(x.d, x.a)))))
  }

  /** The unmix-columns step on one column, as the code computes it. */
  function CodeUnmix(x: Column): Column {
    var e := Xor4(x.a, x.b, x.c, x.d);
    var h := Xt(e);
    var f := Xor(e, Xt(Xt(Xor(h, Xor(x.a, x.c)))));
    var g := Xor(e, Xt(Xt(Xor(h, Xor(x.b, x.d)))));
    Column(Xor(x.a, Xor(f, Xt(Xor(x.a, x.b)))), Xor(x.b, Xor(g, Xt(Xor(x.b, x.c)))),
           Xor(x.c, Xor(f, Xt(Xor(x.c, x.d)))), Xor(x.d, Xor(g, Xt(Xor(x.d, x.a)))))
  }

  lemma FoldedInOfSum(a1: bv8, b1: bv8, f1: bv8, a2: bv8, b2: bv8, f2: bv8, a: bv8, b: bv8, f: bv8)
    requires a == Xor(a1, a2) && b == Xor(b1, b2) && f == Xor(f1, f2)
    ensures Xor(a, Xor(f, Xt(Xor(a, b)))) == Xor(Xor(a1, Xor(f1, Xt(Xor(a1, b1)))), Xor(a2, Xor(f2, Xt(Xor(a2, b2)))))
  {
    hide Xor;
    hide Xt;
    var s, s1, s2 := Xor(a, b), Xor(a1, b1), Xor(a2, b2);
    SumOfSums(a, a1, a2, b, b1, b2);
    XtSum(s1, s2, s);
    SumOfSums(f, f1, f2, Xt(s), Xt(s1), Xt(s2));
    SumOfSums(a, a1, a2, Xor(f, Xt(s)), Xor(f1, Xt(s1)), Xor(f2, Xt(s2)));
  }

  lemma FoldedOfSum(e1: bv8, a1: bv8, c1: bv8, e2: bv8, a2: bv8, c2: bv8, e: bv8, a: bv8, c: bv8)
    requires e == Xor(e1, e2) && a == Xor(a1, a2) && c == Xor(c1, c2)
    ensures Xor(e, Xt(Xt(Xor(Xt(e), Xor(a, c))))) ==
            Xor(Xor(e1, Xt(Xt(Xor(Xt(e1), Xor(a1, c1))))), Xor(e2, Xt(Xt(Xor(Xt(e2), Xor(a2, c2))))))
  {
    hide Xor;
    hide Xt;
    var v, v1, v2 := Xor(a, c), Xor(a1, c1), Xor(a2, c2);
    var u, u1, u2 := Xor(Xt(e), v), Xor(Xt(e1), v1), Xor(Xt(e2), v2);
    SumOfSums(a, a1, a2, c, c1, c2);
    XtSum(e1, e2, e);
    SumOfSums(Xt(e), Xt(e1), Xt(e2), v, v1, v2);
    XtSum(u1, u2, u);
    XtSum(Xt(u1), Xt(u2), Xt(u));
    SumOfSums(e, e1, e2, Xt(Xt(u)), Xt(Xt(u1)), Xt(Xt(u2)));
  }

  lemma CodeUnmixOfSum(x: Column, y: Column, z: Column)
    requires z == AddColumns(x, y)
    ensures CodeUnmix(z) == AddColumns(CodeUnmix(x), CodeUnmix(y))
  {
    hide Xor;
    hide Xor4;
    hide Xt;
    var e1, e2, e := Xor4(x.a, x.b, x.c, x.d), Xor4(y.a, y.b, y.c, y.d), Xor4(z.a, z.b, z.c, z.d);
    Sum4OfSums(z.a, x.a, y.a, z.b, x.b, y.b, z.c, x.c, y.c, z.d, x.d, y.d);
    FoldedOfSum(e1, x.a, x.c, e2, y.a, y.c, e, z.a, z.c);
    FoldedOfSum(e1, x.b, x.d, e2, y.b, y.d, e, z.b, z.d);
    var f1, f2, f := Xor(e1, Xt(Xt(Xor(Xt(e1), Xor(x.a, x.c))))), Xor(e2, Xt(Xt(Xor(Xt(e2), Xor(y.a, y.c))))), Xor(e, Xt(Xt(Xor(Xt(e), Xor(z.a, z.c)))));
    var g1, g2, g := Xor(e1, Xt(Xt(Xor(Xt(e1), Xor(x.b, x.d))))), Xor(e2, Xt(Xt(Xor(Xt(e2), Xor(y.b, y.d))))), Xor(e, Xt(Xt(Xor(Xt(e), Xor(z.b, z.d)))));
    FoldedInOfSum(x.a, x.b, f1, y.a, y.b, f2, z.a, z.b, f);
    FoldedInOfSum(x.b, x.c, g1, y.b, y.c, g2, z.b, z.c, g);
    FoldedInOfSum(x.c, x.d, f1, y.c, y.d, f2, z.c, z.d, f);
    FoldedInOfSum(x.d, x.a, g1, y.d, y.a, g2, z.d, z.a, g);
  }

  lemma CodeMixOfSum(x: Column, y: Column, z: Column)
    requires z == AddColumns(x, y)
    ensures CodeMix(z) == AddColumns(CodeMix(x), CodeMix(y))
  {
    hide Xor;
    hide Xor4;
    hide Xt;
    var e1, e2, e := Xor4(x.a, x.b, x.c, x.d), Xor4(y.a, y.b, y.c, y.d), Xor4(z.a, z.b, z.c, z.d);
    Sum4OfSums(z.a, x.a, y.a, z.b, x.b, y.b, z.c, x.c, y.c, z.d, x.d, y.d);
    FoldedInOfSum(x.a, x.b, e1, y.a, y.b, e2, z.a, z.b, e);
    FoldedInOfSum(x.b, x.c, e1, y.b, y.c, e2, z.b, z.c, e);
    FoldedInOfSum(x.c, x.d, e1, y.c, y.d, e2, z.c, z.d, e);
    FoldedInOfSum(x.d, x.a, e1, y.d, y.a, e2, z.d, z.a, e);
  }

  // Each map agrees with its standard on a column with one byte set, hence on every column.

  lemma MixAxis(t: bv8)
    ensures CodeMix(Column(t, 0, 0, 0)) == MixColumn(Column(t, 0, 0, 0))
    ensures CodeMix(Column(0, t, 0, 0)) == MixColumn(Column(0, t, 0, 0))
    ensures CodeMix(Column(0, 0, t, 0)) == MixColumn(Column(0, 0, t, 0))
    ensures CodeMix(Column(0, 0, 0, t)) == MixColumn(Column(0, 0, 0, t))
  {
  }

  lemma UnmixAxisA(t: bv8)
    ensures CodeUnmix(Column(t, 0, 0, 0)) == InvMixColumn(Column(t, 0, 0, 0))
  {
  }

  lemma UnmixAxisB(t: bv8)
    ensures CodeUnmix(Column(0, t, 0, 0)) == InvMixColumn(Column(0, t, 0, 0))
  {
  }

  lemma UnmixAxisC(t: bv8)
    ensures CodeUnmix(Column(0, 0, t, 0)) == InvMixColumn(Column(0, 0, t, 0))
  {
  }

  lemma UnmixAxisD(t: bv8)
    ensures CodeUnmix(Column(0, 0, 0, t)) == InvMixColumn(Column(0, 0, 0, t))
  {
  }

  lemma AgreeOnSum(x: Column, y: Column, z: Column)
    requires z == AddColumns(x, y)
    ensures CodeMix(x) == MixColumn(x) && CodeMix(y) == MixColumn(y) ==> CodeMix(z) == MixColumn(z)
    ensures CodeUnmix(x) == InvMixColumn(x) && CodeUnmix(y) == InvMixColumn(y) ==> CodeUnmix(z) == InvMixColumn(z)
  {
    hide AddColumns;
    hide CodeMix;
    hide CodeUnmix;
    hide MixColumn;
    hide InvMixColumn;
    CodeMixOfSum(x, y, z);
    CodeUnmixOfSum(x, y, z);
    MixColumnOfSum(x, y, z);
    InvMixColumnOfSum(x, y, z);
  }

  /** The matrix of section 5.1.3 of FIPS 197, with products in the field. */
  function MixMatrix(x: Column): Column {
    Column(Xor4(Times(x.a, 2), Times(x.b, 3), x.c, x.d), Xor4(x.a, Times(x.b, 2), Times(x.c, 3), x.d),
           Xor4(x.a, x.b, Times(x.c, 2), Times(x.d, 3)), Xor4(Times(x.a, 3), x.b, x.c, Times(x.d, 2)))
  }

  /** The matrix of section 5.3.3 of FIPS 197. */
  function InvMixMatrix(x: Column): Column {
    Column(Xor4(Times(x.a, 0xe), Times(x.b, 0xb), Times(x.c, 0xd), Times(x.d, 9)),
           Xor4(Times(x.a, 9), Times(x.b, 0xe), Times(x.c, 0xb), Times(x.d, 0xd)),
           Xor4(Times(x.a, 0xd), Times(x.b, 9), Times(x.c, 0xe), Times(x.d, 0xb)),
           Xor4(Times(x.a, 0xb), Times(x.b, 0xd), Times(x.c, 9), Times(x.d, 0xe)))
  }

  lemma MixIsProduct(x: Column)
    ensures MixColumn(x) == MixMatrix(x) && InvMixColumn(x) == InvMixMatrix(x)
  {
    hide Times;
    hide Xt;
    hide Times3;
    hide Times9;
    hide TimesB;
    hide TimesD;
    hide TimesE;
    hide Xor4;
    MultiplesAreProducts(x.a);
    MultiplesAreProducts(x.b);
    MultiplesAreProducts(x.c);
    MultiplesAreProducts(x.d);
  }

  lemma CodeIsStandard(x: Column)
    ensures CodeMix(x) == MixColumn(x) == MixMatrix(x) && CodeUnmix(x) == InvMixColumn(x) == InvMixMatrix(x)
  {
    hide MixMatrix;
    hide InvMixMatrix;
    MixIsProduct(x);
    hide AddColumns;
    hide CodeMix;
    hide CodeUnmix;
    hide MixColumn;
    hide InvMixColumn;
    var a, b, c, d := Column(x.a, 0, 0, 0), Column(0, x.b, 0, 0), Column(0, 0, x.c, 0), Column(0, 0, 0, x.d);
    var ab, cd := AddColumns(a, b), AddColumns(c, d);
    Axes(x);
    MixAxis(x.a);
    MixAxis(x.b);
    MixAxis(x.c);
    MixAxis(x.d);
    UnmixAxisA(x.a);
    UnmixAxisB(x.b);
    UnmixAxisC(x.c);
    UnmixAxisD(x.d);
    AgreeOnSum(a, b, ab);
    AgreeOnSum(c, d, cd);
    AgreeOnSum(ab, cd, x);
  }

  // ---------- the code ----------

  function ColumnAt(x: seq<bv8>, j: nat): Column
    requires j + 4 <= |x|
  {
    Column(x[j], x[j + 1], x[j + 2], x[j + 3])
  }

  function StateOf(x: seq<bv8>): State
    requires |x| == 16
  {
    State(ColumnAt(x, 0), ColumnAt(x, 4), ColumnAt(x, 8), ColumnAt(x, 12))
  }

  function KeysOf(k: seq<bv8>): Keys
    requires |k| == 32
  {
    Keys(ColumnAt(k, 0), ColumnAt(k, 4), ColumnAt(k, 8), ColumnAt(k, 12),
         ColumnAt(k, 16), ColumnAt(k, 20), ColumnAt(k, 24), ColumnAt(k, 28))
  }

  function BytesOfColumn(c: Column): seq<bv8> {
    [c.a, c.b, c.c, c.d]
  }

  function BytesOf(s: State): (x: seq<bv8>)
    ensures |x| == 16
  {
    BytesOfColumn(s.c0) + BytesOfColumn(s.c1) + BytesOfColumn(s.c2) + BytesOfColumn(s.c3)
  }

  lemma BytesAndState(s: State, x: seq<bv8>)
    requires |x| == 16
    ensures StateOf(BytesOf(s)) == s
    ensures BytesOf(StateOf(x)) == x
  {
  }

  /** Section 5.1.2 of FIPS 197: row r moves r columns to the left. */
  lemma ShiftRowsIs(s: State, r: nat, c: nat)
    requires r < 4 && c < 4
    ensures BytesOf(ShiftRows(s))[4 * c + r] == BytesOf(s)[4 * ((c + r) % 4) + r]
  {
    hide BytesOf;
    hide ShiftRows;
    ByteIs(s, r, (c + r) % 4);
    ByteIs(ShiftRows(s), r, c);
    ShiftedColumn(s, c);
  }

  function ColumnNo(s: State, c: nat): Column
    requires c < 4
  {
    if c == 0 then s.c0 else if c == 1 then s.c1 else if c == 2 then s.c2 else s.c3
  }

  lemma ByteIs(s: State, r: nat, c: nat)
    requires r < 4 && c < 4
    ensures BytesOf(s)[4 * c + r] == BytesOfColumn(ColumnNo(s, c))[r]
  {
  }

  lemma ShiftedColumn(s: State, c: nat)
    requires c < 4
    ensures ColumnNo(ShiftRows(s), c)
            == Column(ColumnNo(s, c).a, ColumnNo(s, (c + 1) % 4).b, ColumnNo(s, (c + 2) % 4).c, ColumnNo(s, (c + 3) % 4).d)
  {
  }

  /** The block under a 32-byte key, and back. */
  function Encrypted(key: seq<bv8>, block: seq<bv8>): (c: seq<bv8>)
    requires |key| == 32 && |block| == 16
    ensures |c| == 16
  {
    BytesOf(Cipher(StateOf(block), KeysOf(key)))
  }

  function Decrypted(key: seq<bv8>, block: seq<bv8>): (d: seq<bv8>)
    requires |key| == 32 && |block| == 16
    ensures |d| == 16
  {
    BytesOf(InverseCipher(StateOf(block), KeysOf(key)))
  }

  lemma DecryptedEncrypted(key: seq<bv8>, block: seq<bv8>)
    requires |key| == 32 && |block| == 16
    ensures Decrypted(key, Encrypted(key, block)) == block
  {
    hide StateOf;
    hide BytesOf;
    hide KeysOf;
    hide Cipher;
    hide InverseCipher;
    BytesAndState(Cipher(StateOf(block), KeysOf(key)), block);
    InverseCipherUndoes(StateOf(block), KeysOf(key));
  }

  /** x ^= the half of the key words that round i uses */
  method XorRoundKey(x: array<bv8>, k: array<bv8>, i: nat)
    requires x.Length == 16 && k.Length == 32 && x != k
    modifies x
    ensures var n := KeysOf(k[..]);
            StateOf(x[..]) == AddRoundKey(StateOf(old(x[..])),
                                          if i % 2 == 0 then State(n.k0, n.k1, n.k2, n.k3) else State(n.k4, n.k5, n.k6, n.k7))
  {
    hide Xor;
    var j := 0;
    while j < 16
      invariant j <= 16
      invariant forall t :: 0 <= t < j ==> x[t] == Xor(old(x[t]), k[t + (i % 2) * 16])
      invariant forall t :: j <= t < 16 ==> x[t] == old(x[t])
    {
      x[j] := Xor(x[j], k[j + (i % 2) * 16]);
      j := j + 1;
    }
  }

  method SubstituteBytes(x: array<bv8>)
    requires x.Length == 16
    modifies x
    ensures StateOf(x[..]) == SubBytes(StateOf(old(x[..])))
  {
    hide Sbox;
    var j := 0;
    while j < 16
      invariant j <= 16
      invariant forall t :: 0 <= t < j ==> x[t] == Sbox(old(x[t]))
      invariant forall t :: j <= t < 16 ==> x[t] == old(x[t])
    {
      x[j] := Sbox(x[j]);
      j := j + 1;
    }
  }

  method UnsubstituteBytes(x: array<bv8>)
    requires x.Length == 16
    modifies x
    ensures StateOf(x[..]) == InvSubBytes(StateOf(old(x[..])))
  {
    hide SboxInverse;
    var j := 0;
    while j < 16
      invariant j <= 16
      invariant forall t :: 0 <= t < j ==> x[t] == SboxInverse(old(x[t]))
      invariant forall t :: j <= t < 16 ==> x[t] == old(x[t])
    {
      x[j] := SboxInverse(x[j]);
      j := j + 1;
    }
  }

  method RotateRows(x: array<bv8>)
    requires x.Length == 16
    modifies x
    ensures StateOf(x[..]) == ShiftRows(StateOf(old(x[..])))
  {
    var a := x[1];
    x[1] := x[5]; x[5] := x[9]; x[9] := x[13]; x[13] := a;
    a := x[10];
    x[10] := x[2]; x[2] := a;
    a := x[3];
    x[3] := x[15]; x[15] := x[11]; x[11] := x[7]; x[7] := a;
    a := x[14];
    x[14] := x[6]; x[6] := a;
  }

  method UnrotateRows(x: array<bv8>)
    requires x.Length == 16
    modifies x
    ensures StateOf(x[..]) == InvShiftRows(StateOf(old(x[..])))
  {
    var a := x[1];
    x[1] := x[13]; x[13] := x[9]; x[9] := x[5]; x[5] := a;
    a := x[2];
    x[2] := x[10]; x[10] := a;
    a := x[3];
    x[3] := x[7]; x[7] := x[11]; x[11] := x[15]; x[15] := a;
    a := x[6];
    x[6] := x[14]; x[14] := a;
  }

  /** Four bytes of x replaced by the column m; the rest of x as in o. */
  ghost predicate ColumnReplaced(x: seq<bv8>, o: seq<bv8>, j: nat, m: Column) {
    && |x| == |o| == 16 && j <= 12 && ColumnAt(x, j) == m
    && forall t :: 0 <= t < 16 && !(j <= t < j + 4) ==> x[t] == o[t]
  }

  method MixOneColumn(x: array<bv8>, j: nat)
    requires x.Length == 16 && j <= 12
    modifies x
    ensures ColumnReplaced(x[..], old(x[..]), j, MixColumn(ColumnAt(old(x[..]), j)))
  {
    hide Xor;
    hide Xor4;
    hide Xt;
    hide MixColumn;
    hide ColumnReplaced;
    ghost var o := x[..];
    var a, b, c, d := x[j], x[j + 1], x[j + 2], x[j + 3];
    var e := Xor4(a, b, c, d);
    x[j] := Xor(a, Xor(e, Xt(Xor(a, b))));
    x[j + 1] := Xor(b, Xor(e, Xt(Xor(b, c))));
    x[j + 2] := Xor(c, Xor(e, Xt(Xor(c, d))));
    x[j + 3] := Xor(d, Xor(e, Xt(Xor(d, a))));
    ColumnWritten(x[..], o, j, Column(a, b, c, d));
  }

  lemma ColumnWritten(x: seq<bv8>, o: seq<bv8>, j: nat, y: Column)
    requires |x| == |o| == 16 && j <= 12 && ColumnAt(o, j) == y && ColumnAt(x, j) == CodeMix(y)
    requires forall t :: 0 <= t < 16 && !(j <= t < j + 4) ==> x[t] == o[t]
    ensures ColumnReplaced(x, o, j, MixColumn(ColumnAt(o, j)))
  {
    hide MixColumn;
    hide CodeMix;
    hide ColumnAt;
    CodeIsStandard(y);
  }

  method MixEveryColumn(x: array<bv8>)
    requires x.Length == 16
    modifies x
    ensures StateOf(x[..]) == MixColumns(StateOf(old(x[..])))
  {
    hide MixColumn;
    ghost var o := x[..];
    var j := 0;
    while j < 16
      invariant j <= 16 && j % 4 == 0
      invariant forall t :: 0 <= t < j && t % 4 == 0 ==> ColumnAt(x[..], t) == MixColumn(ColumnAt(o, t))
      invariant forall t :: j <= t < 16 ==> x[t] == o[t]
    {
      assert ColumnAt(x[..], j) == ColumnAt(o, j);
      MixOneColumn(x, j);
      j := j + 4;
    }
  }

  method UnmixOneColumn(x: array<bv8>, j: nat)
    requires x.Length == 16 && j <= 12
    modifies x
    ensures ColumnReplaced(x[..], old(x[..]), j, InvMixColumn(ColumnAt(old(x[..]), j)))
  {
    hide Xor;
    hide Xor4;
    hide Xt;
    hide InvMixColumn;
    CodeIsStandard(ColumnAt(x[..], j));
    var a, b, c, d := x[j], x[j + 1], x[j + 2], x[j + 3];
    var e := Xor4(a, b, c, d);
    var h := Xt(e);
    var f := Xor(e, Xt(Xt(Xor(h, Xor(a, c)))));
    var g := Xor(e, Xt(Xt(Xor(h, Xor(b, d)))));
    x[j] := Xor(a, Xor(f, Xt(Xor(a, b))));
    x[j + 1] := Xor(b, Xor(g, Xt(Xor(b, c))));
    x[j + 2] := Xor(c, Xor(f, Xt(Xor(c, d))));
    x[j + 3] := Xor(d, Xor(g, Xt(Xor(d, a))));
  }

  method UnmixEveryColumn(x: array<bv8>)
    requires x.Length == 16
    modifies x
    ensures StateOf(x[..]) == InvMixColumns(StateOf(old(x[..])))
  {
    hide InvMixColumn;
    ghost var o := x[..];
    var j := 0;
    while j < 16
      invariant j <= 16 && j % 4 == 0
      invariant forall t :: 0 <= t < j && t % 4 == 0 ==> ColumnAt(x[..], t) == InvMixColumn(ColumnAt(o, t))
      invariant forall t :: j <= t < 16 ==> x[t] == o[t]
    {
      assert ColumnAt(x[..], j) == ColumnAt(o, j);
      UnmixOneColumn(x, j);
      j := j + 4;
    }
  }

  /** k[0..3] ^= sbox of the last word, rotated, and r */
  method XorFirstWord(k: array<bv8>, r: bv8)
    requires k.Length == 32
    modifies k
    ensures ColumnAt(k[..], 0) == FirstWord(ColumnAt(old(k[..]), 0), ColumnAt(old(k[..]), 28), r)
    ensures forall t :: 4 <= t < 32 ==> k[t] == old(k[t])
  {
    hide Sbox;
    k[0] := Xor(k[0], Xor(Sbox(k[29]), r));
    k[1] := Xor(k[1], Sbox(k[30]));
    k[2] := Xor(k[2], Sbox(k[31]));
    k[3] := Xor(k[3], Sbox(k[28]));
  }

  /** k[16..19] ^= sbox of the word before */
  method XorMiddleWord(k: array<bv8>)
    requires k.Length == 32
    modifies k
    ensures ColumnAt(k[..], 16) == AddColumns(ColumnAt(old(k[..]), 16), SubColumn(ColumnAt(old(k[..]), 12)))
    ensures forall t :: 0 <= t < 32 && !(16 <= t < 20) ==> k[t] == old(k[t])
  {
    hide Sbox;
    hide Xor;
    k[16] := Xor(k[16], Sbox(k[12]));
    k[17] := Xor(k[17], Sbox(k[13]));
    k[18] := Xor(k[18], Sbox(k[14]));
    k[19] := Xor(k[19], Sbox(k[15]));
  }

  /** k[j..j+3] ^= the word before */
  method XorWord(k: array<bv8>, j: nat)
    requires k.Length == 32 && 4 <= j <= 28
    modifies k
    ensures ColumnAt(k[..], j) == AddColumns(ColumnAt(old(k[..]), j), ColumnAt(old(k[..]), j - 4))
    ensures forall t :: 0 <= t < 32 && !(j <= t < j + 4) ==> k[t] == old(k[t])
  {
    hide Xor;
    k[j] := Xor(k[j], k[j - 4]);
    k[j + 1] := Xor(k[j + 1], k[j - 3]);
    k[j + 2] := Xor(k[j + 2], k[j - 2]);
    k[j + 3] := Xor(k[j + 3], k[j - 1]);
  }

  /** for (j = lo; j < hi; j += 4): each word takes in the one before it, already updated. */
  method XorWordsUp(k: array<bv8>, lo: nat, hi: nat)
    requires k.Length == 32 && 4 <= lo <= hi <= 32 && lo % 4 == 0 && hi % 4 == 0
    modifies k
    ensures forall t :: lo <= t < hi && t % 4 == 0 ==>
              ColumnAt(k[..], t) == AddColumns(ColumnAt(old(k[..]), t), ColumnAt(k[..], t - 4))
    ensures forall t :: 0 <= t < 32 && !(lo <= t < hi) ==> k[t] == old(k[t])
  {
    hide AddColumns;
    hide ColumnAt;
    ghost var o := k[..];
    var j := lo;
    while j < hi
      invariant lo <= j <= hi && j % 4 == 0
      invariant forall t :: lo <= t < j && t % 4 == 0 ==> ColumnAt(k[..], t) == AddColumns(ColumnAt(o, t), ColumnAt(k[..], t - 4))
      invariant forall t :: 0 <= t < 32 && !(lo <= t < j) ==> k[t] == o[t]
    {
      ghost var m := k[..];
      XorWord(k, j);
      SameColumns(m, o, j, j + 4);
      SameColumns(k[..], m, 0, j);
      j := j + 4;
    }
  }

  /** for (j = hi; j > lo; j -= 4): each word takes in the one before it, not updated yet. */
  method XorWordsDown(k: array<bv8>, hi: nat, lo: nat)
    requires k.Length == 32 && lo <= hi <= 28 && lo % 4 == 0 && hi % 4 == 0
    modifies k
    ensures forall t :: lo < t <= hi && t % 4 == 0 ==>
              ColumnAt(k[..], t) == AddColumns(ColumnAt(old(k[..]), t), ColumnAt(old(k[..]), t - 4))
    ensures forall t :: 0 <= t < 32 && !(lo + 4 <= t < hi + 4) ==> k[t] == old(k[t])
  {
    hide AddColumns;
    hide ColumnAt;
    ghost var o := k[..];
    var j := hi;
    while j > lo
      invariant lo <= j <= hi && j % 4 == 0
      invariant forall t :: j < t <= hi && t % 4 == 0 ==> ColumnAt(k[..], t) == AddColumns(ColumnAt(o, t), ColumnAt(o, t - 4))
      invariant forall t :: 0 <= t < 32 && !(j + 4 <= t < hi + 4) ==> k[t] == o[t]
    {
      ghost var m := k[..];
      XorWord(k, j);
      SameColumns(m, o, 0, j + 4);
      SameColumns(k[..], m, j + 4, 32);
      j := j - 4;
    }
  }

  lemma SameColumns(k: seq<bv8>, o: seq<bv8>, lo: nat, hi: nat)
    requires |k| == |o| == 32 && hi <= 32
    requires forall t :: lo <= t < hi ==> k[t] == o[t]
    ensures forall t :: lo <= t && t + 4 <= hi ==> ColumnAt(k, t) == ColumnAt(o, t)
  {
  }

  /** expand key */
  method ExpandKey(k: array<bv8>, r: bv8)
    requires k.Length == 32
    modifies k
    ensures KeysOf(k[..]) == NextKeys(KeysOf(old(k[..])), r)
  {
    hide AddColumns;
    hide SubColumn;
    hide FirstWord;
    ghost var o := k[..];
    XorFirstWord(k, r);
    ghost var k1 := k[..];
    XorWordsUp(k, 4, 16);
    ghost var k2 := k[..];
    XorMiddleWord(k);
    ghost var k3 := k[..];
    XorWordsUp(k, 20, 32);
    SameColumns(k1, o, 4, 32);
    SameColumns(k2, k1, 0, 4);
    SameColumns(k2, o, 16, 32);
    SameColumns(k3, k2, 0, 16);
    SameColumns(k3, o, 20, 32);
    SameColumns(k[..], k3, 0, 20);
  }

  /** unexpand key */
  method UnexpandKey(k: array<bv8>, r: bv8)
    requires k.Length == 32
    modifies k
    ensures KeysOf(k[..]) == PreviousKeys(KeysOf(old(k[..])), r)
  {
    hide AddColumns;
    hide SubColumn;
    hide FirstWord;
    ghost var o := k[..];
    XorWordsDown(k, 28, 16);
    ghost var k1 := k[..];
    XorMiddleWord(k);
    ghost var k2 := k[..];
    XorWordsDown(k, 12, 0);
    ghost var k3 := k[..];
    XorFirstWord(k, r);
    SameColumns(k1, o, 0, 20);
    SameColumns(k2, o, 0, 16);
    SameColumns(k2, k1, 20, 32);
    SameColumns(k3, k2, 16, 32);
    SameColumns(k3, o, 0, 4);
    SameColumns(k[..], k3, 4, 32);
  }

  /** The state between the key addition of round i and that of round i + 1. */
  function AfterRound(s: State, key: Keys, i: nat): State {
    var t := ShiftRows(SubBytes(CipherRound(s, key, i)));
    if i < 13 then MixColumns(t) else t
  }

  lemma AfterRoundNext(s: State, key: Keys, i: nat)
    ensures i < 13 ==> AddRoundKey(AfterRound(s, key, i), RoundKey(key, i + 1)) == CipherRound(s, key, i + 1)
    ensures AddRoundKey(AfterRound(s, key, 13), RoundKey(key, 14)) == Cipher(s, key)
  {
    hide AddRoundKey;
    hide ShiftRows;
    hide SubBytes;
    hide MixColumns;
    hide RoundKey;
  }

  /** One round of the encryption, up to the key expansion. */
  method CipherStep(x: array<bv8>, k: array<bv8>, i: nat, ghost s: State, ghost ks: Keys)
    requires x.Length == 16 && k.Length == 32 && x != k && i < 14
    requires KeysOf(k[..]) == KeysAt(ks, i / 2)
    requires AddRoundKey(StateOf(x[..]), RoundKey(ks, i)) == CipherRound(s, ks, i)
    modifies x
    ensures StateOf(x[..]) == AfterRound(s, ks, i)
  {
    hide AddRoundKey;
    hide SubBytes;
    hide ShiftRows;
    hide MixColumns;
    hide CipherRound;
    hide KeysAt;
    XorRoundKey(x, k, i);
    SubstituteBytes(x);
    RotateRows(x);
    if i < 13 {
      MixEveryColumn(x);
    }
  }

  /** One expansion of the key, and the constant for the next. */
  method Expand(k: array<bv8>, r: bv8, ghost ks: Keys, ghost n: nat) returns (r': bv8)
    requires k.Length == 32 && KeysOf(k[..]) == KeysAt(ks, n) && r == RoundConstant(n + 1)
    modifies k
    ensures KeysOf(k[..]) == KeysAt(ks, n + 1) && r' == RoundConstant(n + 2)
  {
    hide NextKeys;
    hide Xt;
    ExpandKey(k, r);
    r' := Xt(r);
  }

  /** What holds before round i of the encryption, with the key expanded n times. */
  ghost predicate Encrypting(x: seq<bv8>, k: seq<bv8>, r: bv8, i: nat, n: nat, s: State, ks: Keys) {
    && |x| == 16 && |k| == 32 && n == i / 2 && r == RoundConstant(n + 1) && KeysOf(k) == KeysAt(ks, n)
    && AddRoundKey(StateOf(x), RoundKey(ks, i)) == if i < 14 then CipherRound(s, ks, i) else Cipher(s, ks)
  }

  method EncryptRound(x: array<bv8>, k: array<bv8>, r: bv8, i: nat, ghost n: nat, ghost s: State, ghost ks: Keys)
    returns (r': bv8, ghost n': nat)
    requires x != k && i < 14 && Encrypting(x[..], k[..], r, i, n, s, ks)
    modifies x, k
    ensures n' == (i + 1) / 2 && Encrypting(x[..], k[..], r', i + 1, n', s, ks)
  {
    hide AddRoundKey;
    hide AfterRound;
    hide Cipher;
    hide CipherRound;
    hide KeysAt;
    hide RoundConstant;
    CipherStep(x, k, i, s, ks);
    AfterRoundNext(s, ks, i);
    r', n' := r, n;
    if i % 2 != 0 {
      n' := n + 1;
      r' := Expand(k, r, ks, n);
    }
  }

  /** _BRAES256ECBEncrypt: the cipher of FIPS 197, with the key schedule expanded along the way. */
  method Encrypt(key: seq<bv8>, buf: array<bv8>)
    requires |key| == 32 && buf.Length == 16
    modifies buf
    ensures buf[..] == Encrypted(key, old(buf[..]))
  {
    hide Encrypting;
    hide BytesOf;
    hide StateOf;
    hide KeysOf;
    hide Cipher;
    hide KeysAt;
    hide RoundConstant;
    ghost var s, ks := StateOf(buf[..]), KeysOf(key);
    var k := Copied(key);
    var x := Copied(buf[..]);
    EncryptStarts(x[..], k[..], s, ks);
    var r: bv8 := 1;
    ghost var n := 0;
    var i := 0;
    while i < 14
      invariant i <= 14 && n == i / 2 && Encrypting(x[..], k[..], r, i, n, s, ks)
    {
      r, n := EncryptRound(x, k, r, i, n, s, ks);
      i := i + 1;
    }
    AddLastKey(x, k, r, s, ks);
    BytesAndState(s, x[..]);
    CopyBack(x, buf);
  }

  lemma EncryptStarts(x: seq<bv8>, k: seq<bv8>, s: State, ks: Keys)
    requires |x| == 16 && |k| == 32 && StateOf(x) == s && KeysOf(k) == ks
    ensures Encrypting(x, k, 1, 0, 0, s, ks)
  {
    hide AddRoundKey;
    FirstRound(s, ks);
  }

  /** The final key addition. */
  method AddLastKey(x: array<bv8>, k: array<bv8>, ghost r: bv8, ghost s: State, ghost ks: Keys)
    requires x.Length == 16 && x != k && Encrypting(x[..], k[..], r, 14, 7, s, ks)
    modifies x
    ensures StateOf(x[..]) == Cipher(s, ks)
  {
    hide AddRoundKey;
    hide Cipher;
    hide CipherRound;
    hide KeysAt;
    hide RoundConstant;
    XorRoundKey(x, k, 0);
  }

  lemma FirstRound(s: State, ks: Keys)
    ensures KeysAt(ks, 0) == ks && RoundConstant(1) == 1
    ensures CipherRound(s, ks, 0) == AddRoundKey(s, RoundKey(ks, 0))
  {
  }

  method Copied(s: seq<bv8>) returns (a: array<bv8>)
    ensures fresh(a) && a[..] == s
  {
    a := new bv8[|s|](i requires 0 <= i < |s| => s[i]);
  }

  method CopyBack(x: array<bv8>, buf: array<bv8>)
    requires x.Length == buf.Length == 16
    modifies buf
    ensures buf[..] == old(x[..])
  {
    forall j | 0 <= j < 16 {
      buf[j] := x[j];
    }
  }

  /** The round constant of the last expansion, once r has been doubled past it. */
  lemma ConstantUndone(n: nat)
    requires n > 0
    ensures Untx(RoundConstant(n + 1)) == RoundConstant(n)
  {
    hide Xt;
    hide Untx;
    XtUndone(RoundConstant(n));
  }

  /** The state the decryption starts round i from. */
  function BeforeInverse(s: State, key: Keys, i: nat): State
    requires i <= 14
  {
    if i == 0 then s else InvSubBytes(InvShiftRows(InverseRound(s, key, i - 1)))
  }

  /** One round of the decryption, up to the key unwinding. */
  method InverseStep(x: array<bv8>, k: array<bv8>, i: nat, ghost s: State, ghost ks: Keys)
    requires x.Length == 16 && k.Length == 32 && x != k && i < 14
    requires KeysOf(k[..]) == KeysAt(ks, (14 - i) / 2)
    requires StateOf(x[..]) == BeforeInverse(s, ks, i)
    modifies x
    ensures StateOf(x[..]) == BeforeInverse(s, ks, i + 1)
  {
    hide AddRoundKey;
    hide InvSubBytes;
    hide InvShiftRows;
    hide InvMixColumns;
    hide KeysAt;
    assert (14 - i) % 2 == i % 2;
    XorRoundKey(x, k, i);
    if i > 0 {
      UnmixEveryColumn(x);
    }
    assert StateOf(x[..]) == InverseRound(s, ks, i);
    UnrotateRows(x);
    UnsubstituteBytes(x);
  }

  /** Expanding the key seven times, as the decryption starts with. */
  method ExpandFully(k: array<bv8>, ghost ks: Keys) returns (r: bv8)
    requires k.Length == 32 && KeysOf(k[..]) == ks
    modifies k
    ensures KeysOf(k[..]) == KeysAt(ks, 7) && r == RoundConstant(8)
  {
    hide NextKeys;
    hide Xt;
    r := 1;
    var i := 0;
    while i < 7
      invariant i <= 7 && r == RoundConstant(i + 1)
      invariant KeysOf(k[..]) == KeysAt(ks, i)
    {
      r := Expand(k, r, ks, i);
      i := i + 1;
    }
  }

  /** One step of unwinding the schedule. */
  method Unwind(k: array<bv8>, r: bv8, ghost ks: Keys, ghost n: nat) returns (r': bv8)
    requires k.Length == 32 && n > 0 && KeysOf(k[..]) == KeysAt(ks, n) && r == RoundConstant(n + 1)
    modifies k
    ensures KeysOf(k[..]) == KeysAt(ks, n - 1) && r' == RoundConstant(n)
  {
    hide NextKeys;
    hide PreviousKeys;
    ConstantUndone(n);
    r' := Untx(r);
    UnexpandKey(k, r');
    NextKeysUndone(KeysAt(ks, n - 1), r');
  }

  lemma FirstInverse(s: State, ks: Keys)
    ensures BeforeInverse(s, ks, 0) == s && KeysAt(ks, 0) == ks
    ensures InverseCipher(s, ks) == AddRoundKey(BeforeInverse(s, ks, 14), RoundKey(ks, 0))
  {
    hide AddRoundKey;
    hide InvSubBytes;
    hide InvShiftRows;
    hide RoundKey;
  }

  /** What holds before round i of the decryption, with n expansions of the key left. */
  ghost predicate Decrypting(x: seq<bv8>, k: seq<bv8>, r: bv8, i: nat, n: nat, s: State, ks: Keys) {
    && |x| == 16 && |k| == 32 && i <= 14 && n == (14 - i) / 2 && r == RoundConstant(n + 1) && KeysOf(k) == KeysAt(ks, n)
    && StateOf(x) == BeforeInverse(s, ks, i)
  }

  method DecryptRound(x: array<bv8>, k: array<bv8>, r: bv8, i: nat, ghost n: nat, ghost s: State, ghost ks: Keys)
    returns (r': bv8, ghost n': nat)
    requires x != k && i < 14 && Decrypting(x[..], k[..], r, i, n, s, ks)
    modifies x, k
    ensures n' == (13 - i) / 2 && Decrypting(x[..], k[..], r', i + 1, n', s, ks)
  {
    hide BeforeInverse;
    hide KeysAt;
    hide RoundConstant;
    InverseStep(x, k, i, s, ks);
    r', n' := r, n;
    if i % 2 == 0 {
      n' := n - 1;
      r' := Unwind(k, r, ks, n);
    }
  }

  /** _BRAES256ECBDecrypt: the inverse cipher of FIPS 197, with the schedule expanded in full and unwound. */
  method Decrypt(key: seq<bv8>, buf: array<bv8>)
    requires |key| == 32 && buf.Length == 16
    modifies buf
    ensures buf[..] == Decrypted(key, old(buf[..]))
  {
    hide Decrypting;
    hide BytesOf;
    hide StateOf;
    hide KeysOf;
    hide InverseCipher;
    hide KeysAt;
    hide RoundConstant;
    ghost var s, ks := StateOf(buf[..]), KeysOf(key);
    var k := Copied(key);
    var x := Copied(buf[..]);
    var r := ExpandFully(k, ks);
    DecryptStarts(x[..], k[..], s, ks);
    ghost var n := 7;
    var i := 0;
    while i < 14
      invariant i <= 14 && n == (14 - i) / 2 && Decrypting(x[..], k[..], r, i, n, s, ks)
    {
      r, n := DecryptRound(x, k, r, i, n, s, ks);
      i := i + 1;
    }
    DecryptLastKey(x, k, r, s, ks);
    BytesAndState(s, x[..]);
    CopyBack(x, buf);
  }

  lemma DecryptStarts(x: seq<bv8>, k: seq<bv8>, s: State, ks: Keys)
    requires |x| == 16 && |k| == 32 && StateOf(x) == s && KeysOf(k) == KeysAt(ks, 7)
    ensures Decrypting(x, k, RoundConstant(8), 0, 7, s, ks)
  {
    hide KeysAt;
    hide RoundConstant;
    FirstInverse(s, ks);
  }

  /** The final key addition. */
  method DecryptLastKey(x: array<bv8>, k: array<bv8>, ghost r: bv8, ghost s: State, ghost ks: Keys)
    requires x.Length == 16 && x != k && Decrypting(x[..], k[..], r, 14, 0, s, ks)
    modifies x
    ensures StateOf(x[..]) == InverseCipher(s, ks)
  {
    hide AddRoundKey;
    hide BeforeInverse;
    hide InverseCipher;
    hide RoundConstant;
    FirstInverse(s, ks);
    XorRoundKey(x, k, 0);
  }
}

/** The encryption of appendix C.3 of FIPS 197, round by round, and the key schedule of its appendix A.3. */
module Aes256Vector {
  import opened Aes256

  // ---------- the key schedule ----------

  const KEYS0: Keys :=
    Keys(Column(0x00, 0x01, 0x02, 0x03), Column(0x04, 0x05, 0x06, 0x07),
         Column(0x08, 0x09, 0x0a, 0x0b), Column(0x0c, 0x0d, 0x0e, 0x0f),
         Column(0x10, 0x11, 0x12, 0x13), Column(0x14, 0x15, 0x16, 0x17),
         Column(0x18, 0x19, 0x1a, 0x1b), Column(0x1c, 0x1d, 0x1e, 0x1f))

  const KEYS1: Keys :=
    Keys(Column(0xa5, 0x73, 0xc2, 0x9f), Column(0xa1, 0x76, 0xc4, 0x98),
         Column(0xa9, 0x7f, 0xce, 0x93), Column(0xa5, 0x72, 0xc0, 0x9c),
         Column(0x16, 0x51, 0xa8, 0xcd), Column(0x02, 0x44, 0xbe, 0xda),
         Column(0x1a, 0x5d, 0xa4, 0xc1), Column(0x06, 0x40, 0xba, 0xde))

  const KEYS2: Keys :=
    Keys(Column(0xae, 0x87, 0xdf, 0xf0), Column(0x0f, 0xf1, 0x1b, 0x68),
         Column(0xa6, 0x8e, 0xd5, 0xfb), Column(0x03, 0xfc, 0x15, 0x67),
         Column(0x6d, 0xe1, 0xf1, 0x48), Column(0x6f, 0xa5, 0x4f, 0x92),
         Column(0x75, 0xf8, 0xeb, 0x53), Column(0x73, 0xb8, 0x51, 0x8d))

  const KEYS3: Keys :=
    Keys(Column(0xc6, 0x56, 0x82, 0x7f), Column(0xc9, 0xa7, 0x99, 0x17),
         Column(0x6f, 0x29, 0x4c, 0xec), Column(0x6c, 0xd5, 0x59, 0x8b),
         Column(0x3d, 0xe2, 0x3a, 0x75), Column(0x52, 0x47, 0x75, 0xe7),
         Column(0x27, 0xbf, 0x9e, 0xb4), Column(0x54, 0x07, 0xcf, 0x39))

  const KEYS4: Keys :=
    Keys(Column(0x0b, 0xdc, 0x90, 0x5f), Column(0xc2, 0x7b, 0x09, 0x48),
         Column(0xad, 0x52, 0x45, 0xa4), Column(0xc1, 0x87, 0x1c, 0x2f),
         Column(0x45, 0xf5, 0xa6, 0x60), Column(0x17, 0xb2, 0xd3, 0x87),
         Column(0x30, 0x0d, 0x4d, 0x33), Column(0x64, 0x0a, 0x82, 0x0a))

  const KEYS5: Keys :=
    Keys(Column(0x7c, 0xcf, 0xf7, 0x1c), Column(0xbe, 0xb4, 0xfe, 0x54),
         Column(0x13, 0xe6, 0xbb, 0xf0), Column(0xd2, 0x61, 0xa7, 0xdf),
         Column(0xf0, 0x1a, 0xfa, 0xfe), Column(0xe7, 0xa8, 0x29, 0x79),
         Column(0xd7, 0xa5, 0x64, 0x4a), Column(0xb3, 0xaf, 0xe6, 0x40))

  const KEYS6: Keys :=
    Keys(Column(0x25, 0x41, 0xfe, 0x71), Column(0x9b, 0xf5, 0x00, 0x25),
         Column(0x88, 0x13, 0xbb, 0xd5), Column(0x5a, 0x72, 0x1c, 0x0a),
         Column(0x4e, 0x5a, 0x66, 0x99), Column(0xa9, 0xf2, 0x4f, 0xe0),
         Column(0x7e, 0x57, 0x2b, 0xaa), Column(0xcd, 0xf8, 0xcd, 0xea))

  const KEYS7: Keys :=
    Keys(Column(0x24, 0xfc, 0x79, 0xcc), Column(0xbf, 0x09, 0x79, 0xe9),
         Column(0x37, 0x1a, 0xc2, 0x3c), Column(0x6d, 0x68, 0xde, 0x36),
         Column(0x72, 0x1f, 0x7b, 0x9c), Column(0xdb, 0xed, 0x34, 0x7c),
         Column(0xa5, 0xba, 0x1f, 0xd6), Column(0x68, 0x42, 0xd2, 0x3c))

  lemma Expanded1()
    ensures KeysAt(KEYS0, 1) == KEYS1
  {
    hide KeysAt;
    hide NextKeys;
    Start();
    KeysAtNext(KEYS0, 1);
    assert RoundConstant(1) == 0x01;
    Next1();
  }

  lemma Next1()
    ensures NextKeys(KEYS0, 0x01)
            == KEYS1
  {
    hide SubColumn;
    Next1Table();
  }

  lemma Next1Table()
    ensures SubColumn(Column(0x1d, 0x1e, 0x1f, 0x1c)) == Column(0xa4, 0x72, 0xc0, 0x9c)
    ensures SubColumn(Column(0xa5, 0x72, 0xc0, 0x9c)) == Column(0x06, 0x40, 0xba, 0xde)
  {
  }

  lemma Expanded2()
    ensures KeysAt(KEYS0, 2) == KEYS2
  {
    hide KeysAt;
    hide NextKeys;
    Expanded1();
    KeysAtNext(KEYS0, 2);
    assert RoundConstant(2) == 0x02;
    Next2();
  }

  lemma Next2()
    ensures NextKeys(KEYS1, 0x02)
            == KEYS2
  {
    hide SubColumn;
    Next2Table();
  }

  lemma Next2Table()
    ensures SubColumn(Column(0x40, 0xba, 0xde, 0x06)) == Column(0x09, 0xf4, 0x1d, 0x6f)
    ensures SubColumn(Column(0x03, 0xfc, 0x15, 0x67)) == Column(0x7b, 0xb0, 0x59, 0x85)
  {
  }

  lemma Expanded3()
    ensures KeysAt(KEYS0, 3) == KEYS3
  {
    hide KeysAt;
    hide NextKeys;
    Expanded2();
    KeysAtNext(KEYS0, 3);
    assert RoundConstant(3) == 0x04;
    Next3();
  }

  lemma Next3()
    ensures NextKeys(KEYS2, 0x04)
            == KEYS3
  {
    hide SubColumn;
    Next3Table();
  }

  lemma Next3Table()
    ensures SubColumn(Column(0xb8, 0x51, 0x8d, 0x73)) == Column(0x6c, 0xd1, 0x5d, 0x8f)
    ensures SubColumn(Column(0x6c, 0xd5, 0x59, 0x8b)) == Column(0x50, 0x03, 0xcb, 0x3d)
  {
  }

  lemma Expanded4()
    ensures KeysAt(KEYS0, 4) == KEYS4
  {
    hide KeysAt;
    hide NextKeys;
    Expanded3();
    KeysAtNext(KEYS0, 4);
    assert RoundConstant(4) == 0x08;
    Next4();
  }

  lemma Next4()
    ensures NextKeys(KEYS3, 0x08)
            == KEYS4
  {
    hide SubColumn;
    Next4Table();
  }

  lemma Next4Table()
    ensures SubColumn(Column(0x07, 0xcf, 0x39, 0x54)) == Column(0xc5, 0x8a, 0x12, 0x20)
    ensures SubColumn(Column(0xc1, 0x87, 0x1c, 0x2f)) == Column(0x78, 0x17, 0x9c, 0x15)
  {
  }

  lemma Expanded5()
    ensures KeysAt(KEYS0, 5) == KEYS5
  {
    hide KeysAt;
    hide NextKeys;
    Expanded4();
    KeysAtNext(KEYS0, 5);
    assert RoundConstant(5) == 0x10;
    Next5();
  }

  lemma Next5()
    ensures NextKeys(KEYS4, 0x10)
            == KEYS5
  {
    hide SubColumn;
    Next5Table();
  }

  lemma Next5Table()
    ensures SubColumn(Column(0x0a, 0x82, 0x0a, 0x64)) == Column(0x67, 0x13, 0x67, 0x43)
    ensures SubColumn(Column(0xd2, 0x61, 0xa7, 0xdf)) == Column(0xb5, 0xef, 0x5c, 0x9e)
  {
  }

  lemma Expanded6()
    ensures KeysAt(KEYS0, 6) == KEYS6
  {
    hide KeysAt;
    hide NextKeys;
    Expanded5();
    KeysAtNext(KEYS0, 6);
    assert RoundConstant(6) == 0x20;
    Next6();
  }

  lemma Next6()
    ensures NextKeys(KEYS5, 0x20)
            == KEYS6
  {
    hide SubColumn;
    Next6Table();
  }

  lemma Next6Table()
    ensures SubColumn(Column(0xaf, 0xe6, 0x40, 0xb3)) == Column(0x79, 0x8e, 0x09, 0x6d)
    ensures SubColumn(Column(0x5a, 0x72, 0x1c, 0x0a)) == Column(0xbe, 0x40, 0x9c, 0x67)
  {
  }

  lemma Expanded7()
    ensures KeysAt(KEYS0, 7) == KEYS7
  {
    hide KeysAt;
    hide NextKeys;
    Expanded6();
    KeysAtNext(KEYS0, 7);
    assert RoundConstant(7) == 0x40;
    Next7();
  }

  lemma Next7()
    ensures NextKeys(KEYS6, 0x40)
            == KEYS7
  {
    hide SubColumn;
    Next7Table();
  }

  lemma Next7Table()
    ensures SubColumn(Column(0xf8, 0xcd, 0xea, 0xcd)) == Column(0x41, 0xbd, 0x87, 0xbd)
    ensures SubColumn(Column(0x6d, 0x68, 0xde, 0x36)) == Column(0x3c, 0x45, 0x1d, 0x05)
  {
  }

  lemma Start()
    ensures KeysAt(KEYS0, 0) == KEYS0
  {
  }

  /** Words 8 to 15 of the schedule of appendix A.3 of FIPS 197. */
  lemma ScheduleVector(key: Keys)
    requires key == Keys(Column(0x60, 0x3d, 0xeb, 0x10), Column(0x15, 0xca, 0x71, 0xbe),
                         Column(0x2b, 0x73, 0xae, 0xf0), Column(0x85, 0x7d, 0x77, 0x81),
                         Column(0x1f, 0x35, 0x2c, 0x07), Column(0x3b, 0x61, 0x08, 0xd7),
                         Column(0x2d, 0x98, 0x10, 0xa3), Column(0x09, 0x14, 0xdf, 0xf4))
    ensures ScheduleWord(key, 8) == Column(0x9b, 0xa3, 0x54, 0x11) && ScheduleWord(key, 9) == Column(0x8e, 0x69, 0x25, 0xaf)
    ensures ScheduleWord(key, 10) == Column(0xa5, 0x1a, 0x8b, 0x5f) && ScheduleWord(key, 11) == Column(0x20, 0x67, 0xfc, 0xde)
    ensures ScheduleWord(key, 12) == Column(0xa8, 0xb0, 0x9c, 0x1a) && ScheduleWord(key, 13) == Column(0x93, 0xd1, 0x94, 0xcd)
    ensures ScheduleWord(key, 14) == Column(0xbe, 0x49, 0x84, 0x6e) && ScheduleWord(key, 15) == Column(0xb7, 0x5d, 0x5b, 0x9a)
  {
    hide KeysAt;
    hide NextKeys;
    hide ScheduleWord;
    FirstKeys(key, 0);
    KeysAtNext(key, 1);
    NextA3(key);
    assert RoundConstant(1) == 1;
    KeysAreScheduleWords(key, 1, 0);
    KeysAreScheduleWords(key, 1, 1);
    KeysAreScheduleWords(key, 1, 2);
    KeysAreScheduleWords(key, 1, 3);
    KeysAreScheduleWords(key, 1, 4);
    KeysAreScheduleWords(key, 1, 5);
    KeysAreScheduleWords(key, 1, 6);
    KeysAreScheduleWords(key, 1, 7);
  }

  lemma NextA3(key: Keys)
    requires key == Keys(Column(0x60, 0x3d, 0xeb, 0x10), Column(0x15, 0xca, 0x71, 0xbe),
                         Column(0x2b, 0x73, 0xae, 0xf0), Column(0x85, 0x7d, 0x77, 0x81),
                         Column(0x1f, 0x35, 0x2c, 0x07), Column(0x3b, 0x61, 0x08, 0xd7),
                         Column(0x2d, 0x98, 0x10, 0xa3), Column(0x09, 0x14, 0xdf, 0xf4))
    ensures NextKeys(key, 0x01)
            == Keys(Column(0x9b, 0xa3, 0x54, 0x11), Column(0x8e, 0x69, 0x25, 0xaf),
                    Column(0xa5, 0x1a, 0x8b, 0x5f), Column(0x20, 0x67, 0xfc, 0xde),
                    Column(0xa8, 0xb0, 0x9c, 0x1a), Column(0x93, 0xd1, 0x94, 0xcd),
                    Column(0xbe, 0x49, 0x84, 0x6e), Column(0xb7, 0x5d, 0x5b, 0x9a))
  {
    hide SubColumn;
    NextA3Table();
  }

  lemma NextA3Table()
    ensures SubColumn(Column(0x14, 0xdf, 0xf4, 0x09)) == Column(0xfa, 0x9e, 0xbf, 0x01)
    ensures SubColumn(Column(0x20, 0x67, 0xfc, 0xde)) == Column(0xb7, 0x85, 0xb0, 0x1d)
  {
  }

  // ---------- the rounds ----------

  const INPUT: State :=
    State(Column(0x00, 0x11, 0x22, 0x33), Column(0x44, 0x55, 0x66, 0x77),
          Column(0x88, 0x99, 0xaa, 0xbb), Column(0xcc, 0xdd, 0xee, 0xff))

  const STATE0: State :=
    State(Column(0x00, 0x10, 0x20, 0x30), Column(0x40, 0x50, 0x60, 0x70),
          Column(0x80, 0x90, 0xa0, 0xb0), Column(0xc0, 0xd0, 0xe0, 0xf0))

  const TABLE1: State :=
    State(Column(0x63, 0xca, 0xb7, 0x04), Column(0x09, 0x53, 0xd0, 0x51),
          Column(0xcd, 0x60, 0xe0, 0xe7), Column(0xba, 0x70, 0xe1, 0x8c))

  const MIXED1: State :=
    State(Column(0x5f, 0x72, 0x64, 0x15), Column(0x57, 0xf5, 0xbc, 0x92),
          Column(0xf7, 0xbe, 0x3b, 0x29), Column(0x1d, 0xb9, 0xf9, 0x1a))

  const STATE1: State :=
    State(Column(0x4f, 0x63, 0x76, 0x06), Column(0x43, 0xe0, 0xaa, 0x85),
          Column(0xef, 0xa7, 0x21, 0x32), Column(0x01, 0xa4, 0xe7, 0x05))

  const TABLE2: State :=
    State(Column(0x84, 0xfb, 0x38, 0x6f), Column(0x1a, 0xe1, 0xac, 0x97),
          Column(0xdf, 0x5c, 0xfd, 0x23), Column(0x7c, 0x49, 0x94, 0x6b))

  const MIXED2: State :=
    State(Column(0xbd, 0x2a, 0x39, 0x5d), Column(0x2b, 0x6a, 0xc4, 0x38),
          Column(0xd1, 0x92, 0x44, 0x3e), Column(0x61, 0x5d, 0xa1, 0x95))

  const STATE2: State :=
    State(Column(0x18, 0x59, 0xfb, 0xc2), Column(0x8a, 0x1c, 0x00, 0xa0),
          Column(0x78, 0xed, 0x8a, 0xad), Column(0xc4, 0x2f, 0x61, 0x09))

  const TABLE3: State :=
    State(Column(0xad, 0xcb, 0x0f, 0x25), Column(0x7e, 0x9c, 0x63, 0xe0),
          Column(0xbc, 0x55, 0x7e, 0x95), Column(0x1c, 0x15, 0xef, 0x01))

  const MIXED3: State :=
    State(Column(0x81, 0x0d, 0xce, 0x0c), Column(0xc9, 0xdb, 0x81, 0x72),
          Column(0xb3, 0x67, 0x8c, 0x1e), Column(0x88, 0xa1, 0xb5, 0xbd))

  const STATE3: State :=
    State(Column(0x97, 0x5c, 0x66, 0xc1), Column(0xcb, 0x9f, 0x3f, 0xa8),
          Column(0xa9, 0x3a, 0x28, 0xdf), Column(0x8e, 0xe1, 0x0f, 0x63))

  const TABLE4: State :=
    State(Column(0x88, 0x4a, 0x33, 0x78), Column(0x1f, 0xdb, 0x75, 0xc2),
          Column(0xd3, 0x80, 0x34, 0x9e), Column(0x19, 0xf8, 0x76, 0xfb))

  const MIXED4: State :=
    State(Column(0xb2, 0x82, 0x2d, 0x81), Column(0xab, 0xe6, 0xfb, 0x27),
          Column(0x5f, 0xaf, 0x10, 0x3a), Column(0x07, 0x8c, 0x00, 0x33))

  const STATE4: State :=
    State(Column(0x1c, 0x05, 0xf2, 0x71), Column(0xa4, 0x17, 0xe0, 0x4f),
          Column(0xf9, 0x21, 0xc5, 0xc1), Column(0x04, 0x70, 0x15, 0x54))

  const TABLE5: State :=
    State(Column(0x9c, 0x6b, 0x89, 0xa3), Column(0x49, 0xf0, 0xe1, 0x84),
          Column(0x99, 0xfd, 0xa6, 0x78), Column(0xf2, 0x51, 0x59, 0x20))

  const MIXED5: State :=
    State(Column(0xae, 0xb6, 0x5b, 0xa9), Column(0x74, 0xe0, 0xf8, 0x22),
          Column(0xd7, 0x3f, 0x56, 0x7b), Column(0xdb, 0x64, 0xc8, 0x77))

  const STATE5: State :=
    State(Column(0xc3, 0x57, 0xaa, 0xe1), Column(0x1b, 0x45, 0xb7, 0xb0),
          Column(0xa2, 0xc7, 0xbd, 0x28), Column(0xa8, 0xdc, 0x99, 0xfa))

  const TABLE6: State :=
    State(Column(0x2e, 0x5b, 0xac, 0xf8), Column(0xaf, 0x6e, 0xa9, 0xe7),
          Column(0x3a, 0xc6, 0x7a, 0x34), Column(0xc2, 0x86, 0xee, 0x2d))

  const MIXED6: State :=
    State(Column(0xb9, 0x51, 0xc3, 0x3c), Column(0x02, 0xe9, 0xbd, 0x29),
          Column(0xae, 0x25, 0xcd, 0xb1), Column(0xef, 0xa0, 0x8c, 0xc7))

  const STATE6: State :=
    State(Column(0x7f, 0x07, 0x41, 0x43), Column(0xcb, 0x4e, 0x24, 0x3e),
          Column(0xc1, 0x0c, 0x81, 0x5d), Column(0x83, 0x75, 0xd5, 0x4c))

  const TABLE7: State :=
    State(Column(0xd2, 0xc5, 0x83, 0x1a), Column(0x1f, 0x2f, 0x36, 0xb2),
          Column(0x78, 0xfe, 0x0c, 0x4c), Column(0xec, 0x9d, 0x03, 0x29))

  const MIXED7: State :=
    State(Column(0xeb, 0xb1, 0x9e, 0x1c), Column(0x3e, 0xe7, 0xc9, 0xe8),
          Column(0x7d, 0x75, 0x35, 0xe9), Column(0xed, 0x6b, 0x91, 0x44))

  const STATE7: State :=
    State(Column(0xd6, 0x53, 0xa4, 0x69), Column(0x6c, 0xa0, 0xbc, 0x0f),
          Column(0x5a, 0xca, 0xab, 0x5d), Column(0xb9, 0x6c, 0x5e, 0x7d))

  const TABLE8: State :=
    State(Column(0xf6, 0xed, 0x49, 0xf9), Column(0x50, 0xe0, 0x65, 0x76),
          Column(0xbe, 0x74, 0x62, 0x4c), Column(0x56, 0x50, 0x58, 0xff))

  const MIXED8: State :=
    State(Column(0x51, 0x74, 0xc8, 0x66), Column(0x9d, 0xa9, 0x84, 0x35),
          Column(0xa8, 0xb3, 0xe6, 0x2c), Column(0xa9, 0x74, 0xa5, 0xea))

  const STATE8: State :=
    State(Column(0x5a, 0xa8, 0x58, 0x39), Column(0x5f, 0xd2, 0x8d, 0x7d),
          Column(0x05, 0xe1, 0xa3, 0x88), Column(0x68, 0xf3, 0xb9, 0xc5))

  const TABLE9: State :=
    State(Column(0xbe, 0xc2, 0x6a, 0x12), Column(0xcf, 0xb5, 0x5d, 0xff),
          Column(0x6b, 0xf8, 0x0a, 0xc4), Column(0x45, 0x0d, 0x56, 0xa6))

  const MIXED9: State :=
    State(Column(0x0f, 0x77, 0xee, 0x31), Column(0xd2, 0xcc, 0xad, 0xc0),
          Column(0x54, 0x30, 0xa8, 0x3f), Column(0x4e, 0xf9, 0x6a, 0xc3))

  const STATE9: State :=
    State(Column(0x4a, 0x82, 0x48, 0x51), Column(0xc5, 0x7e, 0x7e, 0x47),
          Column(0x64, 0x3d, 0xe5, 0x0c), Column(0x2a, 0xf3, 0xe8, 0xc9))

  const TABLE10: State :=
    State(Column(0xd6, 0x13, 0x52, 0xd1), Column(0xa6, 0xf3, 0xf3, 0xa0),
          Column(0x43, 0x27, 0xd9, 0xfe), Column(0xe5, 0x0d, 0x9b, 0xdd))

  const MIXED10: State :=
    State(Column(0xbd, 0x86, 0xf0, 0xea), Column(0x74, 0x8f, 0xc4, 0xf4),
          Column(0x63, 0x0f, 0x11, 0xc1), Column(0xe9, 0x33, 0x12, 0x33))

  const STATE10: State :=
    State(Column(0xc1, 0x49, 0x07, 0xf6), Column(0xca, 0x3b, 0x3a, 0xa0),
          Column(0x70, 0xe9, 0xaa, 0x31), Column(0x3b, 0x52, 0xb5, 0xec))

  const TABLE11: State :=
    State(Column(0x78, 0x3b, 0xc5, 0x42), Column(0x74, 0xe2, 0x80, 0xe0),
          Column(0x51, 0x1e, 0xac, 0xc7), Column(0xe2, 0x00, 0xd5, 0xce))

  const MIXED11: State :=
    State(Column(0xaf, 0x86, 0x90, 0x41), Column(0x5d, 0x6e, 0x1d, 0xd3),
          Column(0x87, 0xe5, 0xfb, 0xed), Column(0xd5, 0xc8, 0x90, 0x13))

  const STATE11: State :=
    State(Column(0x5f, 0x9c, 0x6a, 0xbf), Column(0xba, 0xc6, 0x34, 0xaa),
          Column(0x50, 0x40, 0x9f, 0xa7), Column(0x66, 0x67, 0x76, 0x53))

  const TABLE12: State :=
    State(Column(0xcf, 0xde, 0x02, 0x08), Column(0xf4, 0xb4, 0x18, 0xac),
          Column(0x53, 0x09, 0xdb, 0x5c), Column(0x33, 0x85, 0x38, 0xed))

  const MIXED12: State :=
    State(Column(0x74, 0x27, 0xfa, 0xe4), Column(0xd8, 0xa6, 0x95, 0x26),
          Column(0x9c, 0xe8, 0x3d, 0x31), Column(0x5b, 0xe0, 0x39, 0x2b))

  const STATE12: State :=
    State(Column(0x51, 0x66, 0x04, 0x95), Column(0x43, 0x53, 0x95, 0x03),
          Column(0x14, 0xfb, 0x86, 0xe4), Column(0x01, 0x92, 0x25, 0x21))

  const TABLE13: State :=
    State(Column(0xd1, 0x33, 0xf2, 0x2a), Column(0x1a, 0xed, 0x2a, 0x7b),
          Column(0xfa, 0x0f, 0x44, 0x69), Column(0x7c, 0x4f, 0x3f, 0xfd))

  const MIXED13: State :=
    State(Column(0x2c, 0x21, 0xa8, 0x20), Column(0x30, 0x6f, 0x15, 0x4a),
          Column(0xb7, 0x12, 0xc7, 0x5e), Column(0xee, 0x0d, 0xa0, 0x4f))

  const STATE13: State :=
    State(Column(0x62, 0x7b, 0xce, 0xb9), Column(0x99, 0x9d, 0x5a, 0xaa),
          Column(0xc9, 0x45, 0xec, 0xf4), Column(0x23, 0xf5, 0x6d, 0xa5))

  const TABLE14: State :=
    State(Column(0xaa, 0x21, 0x8b, 0x56), Column(0xee, 0x5e, 0xbe, 0xac),
          Column(0xdd, 0x6e, 0xce, 0xbf), Column(0x26, 0xe6, 0x3c, 0x06))

  const OUTPUT: State :=
    State(Column(0x8e, 0xa2, 0xb7, 0xca), Column(0x51, 0x67, 0x45, 0xbf),
          Column(0xea, 0xfc, 0x49, 0x90), Column(0x4b, 0x49, 0x60, 0x89))

  lemma RoundIs(s: State, key: Keys, n: nat)
    requires n > 0
    ensures CipherRound(s, key, n) == AddRoundKey(MixColumns(ShiftRows(SubBytes(CipherRound(s, key, n - 1)))), RoundKey(key, n))
  {
  }

  lemma Round0()
    ensures CipherRound(INPUT, KEYS0, 0) == STATE0
  {
    hide KeysAt;
    Start();
  }

  lemma Round1()
    ensures CipherRound(INPUT, KEYS0, 1) == STATE1
  {
    hide KeysAt;
    hide CipherRound;
    hide SubBytes;
    hide MixColumns;
    Round0();
    Start();
    RoundIs(INPUT, KEYS0, 1);
    Table1();
    Mixed1();
  }

  lemma Table1()
    ensures SubBytes(STATE0) == TABLE1
  {
  }

  lemma Mixed1()
    ensures MixColumns(ShiftRows(TABLE1)) == MIXED1
  {
  }

  lemma Round2()
    ensures CipherRound(INPUT, KEYS0, 2) == STATE2
  {
    hide KeysAt;
    hide CipherRound;
    hide SubBytes;
    hide MixColumns;
    Round1();
    Expanded1();
    RoundIs(INPUT, KEYS0, 2);
    Table2();
    Mixed2();
  }

  lemma Table2()
    ensures SubBytes(STATE1) == TABLE2
  {
  }

  lemma Mixed2()
    ensures MixColumns(ShiftRows(TABLE2)) == MIXED2
  {
  }

  lemma Round3()
    ensures CipherRound(INPUT, KEYS0, 3) == STATE3
  {
    hide KeysAt;
    hide CipherRound;
    hide SubBytes;
    hide MixColumns;
    Round2();
    Expanded1();
    RoundIs(INPUT, KEYS0, 3);
    Table3();
    Mixed3();
  }

  lemma Table3()
    ensures SubBytes(STATE2) == TABLE3
  {
  }

  lemma Mixed3()
    ensures MixColumns(ShiftRows(TABLE3)) == MIXED3
  {
  }

  lemma Round4()
    ensures CipherRound(INPUT, KEYS0, 4) == STATE4
  {
    hide KeysAt;
    hide CipherRound;
    hide SubBytes;
    hide MixColumns;
    Round3();
    Expanded2();
    RoundIs(INPUT, KEYS0, 4);
    Table4();
    Mixed4();
  }

  lemma Table4()
    ensures SubBytes(STATE3) == TABLE4
  {
  }

  lemma Mixed4()
    ensures MixColumns(ShiftRows(TABLE4)) == MIXED4
  {
  }

  lemma Round5()
    ensures CipherRound(INPUT, KEYS0, 5) == STATE5
  {
    hide KeysAt;
    hide CipherRound;
    hide SubBytes;
    hide MixColumns;
    Round4();
    Expanded2();
    RoundIs(INPUT, KEYS0, 5);
    Table5();
    Mixed5();
  }

  lemma Table5()
    ensures SubBytes(STATE4) == TABLE5
  {
  }

  lemma Mixed5()
    ensures MixColumns(ShiftRows(TABLE5)) == MIXED5
  {
  }

  lemma Round6()
    ensures CipherRound(INPUT, KEYS0, 6) == STATE6
  {
    hide KeysAt;
    hide CipherRound;
    hide SubBytes;
    hide MixColumns;
    Round5();
    Expanded3();
    RoundIs(INPUT, KEYS0, 6);
    Table6();
    Mixed6();
  }

  lemma Table6()
    ensures SubBytes(STATE5) == TABLE6
  {
  }

  lemma Mixed6()
    ensures MixColumns(ShiftRows(TABLE6)) == MIXED6
  {
  }

  lemma Round7()
    ensures CipherRound(INPUT, KEYS0, 7) == STATE7
  {
    hide KeysAt;
    hide CipherRound;
    hide SubBytes;
    hide MixColumns;
    Round6();
    Expanded3();
    RoundIs(INPUT, KEYS0, 7);
    Table7();
    Mixed7();
  }

  lemma Table7()
    ensures SubBytes(STATE6) == TABLE7
  {
  }

  lemma Mixed7()
    ensures MixColumns(ShiftRows(TABLE7)) == MIXED7
  {
  }

  lemma Round8()
    ensures CipherRound(INPUT, KEYS0, 8) == STATE8
  {
    hide KeysAt;
    hide CipherRound;
    hide SubBytes;
    hide MixColumns;
    Round7();
    Expanded4();
    RoundIs(INPUT, KEYS0, 8);
    Table8();
    Mixed8();
  }

  lemma Table8()
    ensures SubBytes(STATE7) == TABLE8
  {
  }

  lemma Mixed8()
    ensures MixColumns(ShiftRows(TABLE8)) == MIXED8
  {
  }

  lemma Round9()
    ensures CipherRound(INPUT, KEYS0, 9) == STATE9
  {
    hide KeysAt;
    hide CipherRound;
    hide SubBytes;
    hide MixColumns;
    Round8();
    Expanded4();
    RoundIs(INPUT, KEYS0, 9);
    Table9();
    Mixed9();
  }

  lemma Table9()
    ensures SubBytes(STATE8) == TABLE9
  {
  }

  lemma Mixed9()
    ensures MixColumns(ShiftRows(TABLE9)) == MIXED9
  {
  }

  lemma Round10()
    ensures CipherRound(INPUT, KEYS0, 10) == STATE10
  {
    hide KeysAt;
    hide CipherRound;
    hide SubBytes;
    hide MixColumns;
    Round9();
    Expanded5();
    RoundIs(INPUT, KEYS0, 10);
    Table10();
    Mixed10();
  }

  lemma Table10()
    ensures SubBytes(STATE9) == TABLE10
  {
  }

  lemma Mixed10()
    ensures MixColumns(ShiftRows(TABLE10)) == MIXED10
  {
  }

  lemma Round11()
    ensures CipherRound(INPUT, KEYS0, 11) == STATE11
  {
    hide KeysAt;
    hide CipherRound;
    hide SubBytes;
    hide MixColumns;
    Round10();
    Expanded5();
    RoundIs(INPUT, KEYS0, 11);
    Table11();
    Mixed11();
  }

  lemma Table11()
    ensures SubBytes(STATE10) == TABLE11
  {
  }

  lemma Mixed11()
    ensures MixColumns(ShiftRows(TABLE11)) == MIXED11
  {
  }

  lemma Round12()
    ensures CipherRound(INPUT, KEYS0, 12) == STATE12
  {
    hide KeysAt;
    hide CipherRound;
    hide SubBytes;
    hide MixColumns;
    Round11();
    Expanded6();
    RoundIs(INPUT, KEYS0, 12);
    Table12();
    Mixed12();
  }

  lemma Table12()
    ensures SubBytes(STATE11) == TABLE12
  {
  }

  lemma Mixed12()
    ensures MixColumns(ShiftRows(TABLE12)) == MIXED12
  {
  }

  lemma Round13()
    ensures CipherRound(INPUT, KEYS0, 13) == STATE13
  {
    hide KeysAt;
    hide CipherRound;
    hide SubBytes;
    hide MixColumns;
    Round12();
    Expanded6();
    RoundIs(INPUT, KEYS0, 13);
    Table13();
    Mixed13();
  }

  lemma Table13()
    ensures SubBytes(STATE12) == TABLE13
  {
  }

  lemma Mixed13()
    ensures MixColumns(ShiftRows(TABLE13)) == MIXED13
  {
  }

  lemma Table14()
    ensures SubBytes(STATE13) == TABLE14
  {
  }

  lemma LastRound()
    ensures Cipher(INPUT, KEYS0) == OUTPUT
  {
    hide KeysAt;
    hide CipherRound;
    hide SubBytes;
    Round13();
    Expanded7();
    Table14();
  }

  /** The ciphertext of appendix C.3 of FIPS 197. */
  lemma CipherVector(key: seq<bv8>, block: seq<bv8>)
    requires |key| == 32
    requires key[0..8] == [0x00, 0x01, 0x02, 0x03, 0x04, 0x05, 0x06, 0x07]
    requires key[8..16] == [0x08, 0x09, 0x0a, 0x0b, 0x0c, 0x0d, 0x0e, 0x0f]
    requires key[16..24] == [0x10, 0x11, 0x12, 0x13, 0x14, 0x15, 0x16, 0x17]
    requires key[24..32] == [0x18, 0x19, 0x1a, 0x1b, 0x1c, 0x1d, 0x1e, 0x1f]
    requires block == [0x00, 0x11, 0x22, 0x33, 0x44, 0x55, 0x66, 0x77, 0x88, 0x99, 0xaa, 0xbb, 0xcc, 0xdd, 0xee, 0xff]
    ensures Encrypted(key, block)
            == [0x8e, 0xa2, 0xb7, 0xca, 0x51, 0x67, 0x45, 0xbf, 0xea, 0xfc, 0x49, 0x90, 0x4b, 0x49, 0x60, 0x89]
  {
    hide Cipher;
    hide KeysOf;
    hide StateOf;
    hide BytesOf;
    KeyBytes(key);
    BlockBytes(block);
    LastRound();
    OutputBytes();
  }

  lemma KeyBytes(key: seq<bv8>)
    requires |key| == 32
    requires key[0..8] == [0x00, 0x01, 0x02, 0x03, 0x04, 0x05, 0x06, 0x07]
    requires key[8..16] == [0x08, 0x09, 0x0a, 0x0b, 0x0c, 0x0d, 0x0e, 0x0f]
    requires key[16..24] == [0x10, 0x11, 0x12, 0x13, 0x14, 0x15, 0x16, 0x17]
    requires key[24..32] == [0x18, 0x19, 0x1a, 0x1b, 0x1c, 0x1d, 0x1e, 0x1f]
    ensures KeysOf(key) == KEYS0
  {
    var a, b, c, d := key[0..8], key[8..16], key[16..24], key[24..32];
    assert forall i :: 0 <= i < 8 ==> key[i] == a[i] && key[8 + i] == b[i] && key[16 + i] == c[i] && key[24 + i] == d[i];
  }

  lemma BlockBytes(block: seq<bv8>)
    requires block == [0x00, 0x11, 0x22, 0x33, 0x44, 0x55, 0x66, 0x77, 0x88, 0x99, 0xaa, 0xbb, 0xcc, 0xdd, 0xee, 0xff]
    ensures StateOf(block) == INPUT
  {
  }

  lemma OutputBytes()
    ensures BytesOf(OUTPUT)
            == [0x8e, 0xa2, 0xb7, 0xca, 0x51, 0x67, 0x45, 0xbf, 0xea, 0xfc, 0x49, 0x90, 0x4b, 0x49, 0x60, 0x89]
  {
  }
}

/** MD5 of the message "", operation by operation (section A.5 of RFC 1321). */
module Md5Empty {
  import opened Common
  import opened Md5
  import opened Md5Answers

  /** The words of its padded block. */
  const EMPTY: seq<Word> := [
    0x00000080, 0x00000000, 0x00000000, 0x00000000,
    0x00000000, 0x00000000, 0x00000000, 0x00000000,
    0x00000000, 0x00000000, 0x00000000, 0x00000000,
    0x00000000, 0x00000000, 0x00000000, 0x00000000
  ]

  lemma {:induction false} MessageWords()
    ensures |EMPTY| == 16 && EMPTY[0] == 0x00000080 && EMPTY[14] == 0x00000000
    ensures forall k :: 1 <= k < 16 && k != 14 ==> EMPTY[k] == 0
  {}

  lemma {:induction false} Turn00()
    ensures Turn(0, 0x67452301, 0xefcdab89, 0x98badcfe, 0x10325476, 0x00000080, 0xd76aa478, 7) == 0xa5202774 {}
  lemma {:induction false} Turn01()
    ensures Turn(0, 0x10325476, 0xa5202774, 0xefcdab89, 0x98badcfe, 0x00000000, 0xe8c7b756, 12) == 0xf59592dd {}
  lemma {:induction false} Turn02()
    ensures Turn(0, 0x98badcfe, 0xf59592dd, 0xa5202774, 0xefcdab89, 0x00000000, 0x242070db, 17) == 0xe7f06b23 {}
  lemma {:induction false} Turn03()
    ensures Turn(0, 0xefcdab89, 0xe7f06b23, 0xf59592dd, 0xa5202774, 0x00000000, 0xc1bdceee, 22) == 0x1b163203 {}
  lemma {:induction false} Turn04()
    ensures Turn(0, 0xa5202774, 0x1b163203, 0xe7f06b23, 0xf59592dd, 0x00000000, 0xf57c0faf, 7) == 0x32033344 {}
  lemma {:induction false} Turn05()
    ensures Turn(0, 0xf59592dd, 0x32033344, 0x1b163203, 0xe7f06b23, 0x00000000, 0x4787c62a, 12) == 0x2f35d494 {}
  lemma {:induction false} Turn06()
    ensures Turn(0, 0xe7f06b23, 0x2f35d494, 0x32033344, 0x1b163203, 0x00000000, 0xa8304613, 17) == 0xf5b158db {}
  lemma {:induction false} Turn07()
    ensures Turn(0, 0x1b163203, 0xf5b158db, 0x2f35d494, 0x32033344, 0x00000000, 0xfd469501, 22) == 0x9bc13ce9 {}
  lemma {:induction false} Turn08()
    ensures Turn(0, 0x32033344, 0x9bc13ce9, 0xf5b158db, 0x2f35d494, 0x00000000, 0x698098d8, 7) == 0x3893b991 {}
  lemma {:induction false} Turn09()
    ensures Turn(0, 0x2f35d494, 0x3893b991, 0x9bc13ce9, 0xf5b158db, 0x00000000, 0x8b44f7af, 12) == 0xfce4a312 {}
  lemma {:induction false} Turn10()
    ensures Turn(0, 0xf5b158db, 0xfce4a312, 0x3893b991, 0x9bc13ce9, 0x00000000, 0xffff5bb1, 17) == 0xe1ef0576 {}
  lemma {:induction false} Turn11()
    ensures Turn(0, 0x9bc13ce9, 0xe1ef0576, 0xfce4a312, 0x3893b991, 0x00000000, 0x895cd7be, 22) == 0x70768a29 {}
  lemma {:induction false} Turn12()
    ensures Turn(0, 0x3893b991, 0x70768a29, 0xe1ef0576, 0xfce4a312, 0x00000000, 0x6b901122, 7) == 0xf56c7cf1 {}
  lemma {:induction false} Turn13()
    ensures Turn(0, 0xfce4a312, 0xf56c7cf1, 0x70768a29, 0xe1ef0576, 0x00000000, 0xfd987193, 12) == 0x374943a7 {}
  lemma {:induction false} Turn14()
    ensures Turn(0, 0xe1ef0576, 0x374943a7, 0xf56c7cf1, 0x70768a29, 0x00000000, 0xa679438e, 17) == 0x5aa53f75 {}
  lemma {:induction false} Turn15()
    ensures Turn(0, 0x70768a29, 0x5aa53f75, 0x374943a7, 0xf56c7cf1, 0x00000000, 0x49b40821, 22) == 0xd6819c6a {}
  lemma {:induction false} Turn16()
    ensures Turn(1, 0xf56c7cf1, 0xd6819c6a, 0x5aa53f75, 0x374943a7, 0x00000000, 0xf61e2562, 5) == 0x1c7d7513 {}
  lemma {:induction false} Turn17()
    ensures Turn(1, 0x374943a7, 0x1c7d7513, 0xd6819c6a, 0x5aa53f75, 0x00000000, 0xc040b340, 9) == 0x7bd57a3a {}
  lemma {:induction false} Turn18()
    ensures Turn(1, 0x5aa53f75, 0x7bd57a3a, 0x1c7d7513, 0xd6819c6a, 0x00000000, 0x265e5a51, 14) == 0xc095f13a {}
  lemma {:induction false} Turn19()
    ensures Turn(1, 0xd6819c6a, 0xc095f13a, 0x7bd57a3a, 0x1c7d7513, 0x00000080, 0xe9b6c7aa, 20) == 0xbd782e17 {}
  lemma {:induction false} Turn20()
    ensures Turn(1, 0x1c7d7513, 0xbd782e17, 0xc095f13a, 0x7bd57a3a, 0x00000000, 0xd62f105d, 5) == 0x3d1e3e6c {}
  lemma {:induction false} Turn21()
    ensures Turn(1, 0x7bd57a3a, 0x3d1e3e6c, 0xbd782e17, 0xc095f13a, 0x00000000, 0x02441453, 9) == 0x68b7b3e3 {}
  lemma {:induction false} Turn22()
    ensures Turn(1, 0xc095f13a, 0x68b7b3e3, 0x3d1e3e6c, 0xbd782e17, 0x00000000, 0xd8a1e681, 14) == 0xeb41643e {}
  lemma {:induction false} Turn23()
    ensures Turn(1, 0xbd782e17, 0xeb41643e, 0x68b7b3e3, 0x3d1e3e6c, 0x00000000, 0xe7d3fbc8, 20) == 0xe422531a {}
  lemma {:induction false} Turn24()
    ensures Turn(1, 0x3d1e3e6c, 0xe422531a, 0xeb41643e, 0x68b7b3e3, 0x00000000, 0x21e1cde6, 5) == 0x306ec122 {}
  lemma {:induction false} Turn25()
    ensures Turn(1, 0x68b7b3e3, 0x306ec122, 0xe422531a, 0xeb41643e, 0x00000000, 0xc33707d6, 9) == 0xd28c77c2 {}
  lemma {:induction false} Turn26()
    ensures Turn(1, 0xeb41643e, 0xd28c77c2, 0x306ec122, 0xe422531a, 0x00000000, 0xf4d50d87, 14) == 0xa3c663da {}
  lemma {:induction false} Turn27()
    ensures Turn(1, 0xe422531a, 0xa3c663da, 0xd28c77c2, 0x306ec122, 0x00000000, 0x455a14ed, 20) == 0xa0572807 {}
  lemma {:induction false} Turn28()
    ensures Turn(1, 0x306ec122, 0xa0572807, 0xa3c663da, 0xd28c77c2, 0x00000000, 0xa9e3e905, 5) == 0x13707036 {}
  lemma {:induction false} Turn29()
    ensures Turn(1, 0xd28c77c2, 0x13707036, 0xa0572807, 0xa3c663da, 0x00000000, 0xfcefa3f8, 9) == 0xae7813db {}
  lemma {:induction false} Turn30()
    ensures Turn(1, 0xa3c663da, 0xae7813db, 0x13707036, 0xa0572807, 0x00000000, 0x676f02d9, 14) == 0x1c31c384 {}
  lemma {:induction false} Turn31()
    ensures Turn(1, 0xa0572807, 0x1c31c384, 0xae7813db, 0x13707036, 0x00000000, 0x8d2a4c8a, 20) == 0xa2205f1f {}
  lemma {:induction false} Turn32()
    ensures Turn(2, 0x13707036, 0xa2205f1f, 0x1c31c384, 0xae7813db, 0x00000000, 0xfffa3942, 4) == 0xdf63eaa1 {}
  lemma {:induction false} Turn33()
    ensures Turn(2, 0xae7813db, 0xdf63eaa1, 0xa2205f1f, 0x1c31c384, 0x00000000, 0x8771f681, 11) == 0xc3689f5b {}
  lemma {:induction false} Turn34()
    ensures Turn(2, 0x1c31c384, 0xc3689f5b, 0xdf63eaa1, 0xa2205f1f, 0x00000000, 0x6d9d6122, 16) == 0x12f3e755 {}
  lemma {:induction false} Turn35()
    ensures Turn(2, 0xa2205f1f, 0x12f3e755, 0xc3689f5b, 0xdf63eaa1, 0x00000000, 0xfde5380c, 23) == 0x004b6669 {}
  lemma {:induction false} Turn36()
    ensures Turn(2, 0xdf63eaa1, 0x004b6669, 0x12f3e755, 0xc3689f5b, 0x00000000, 0xa4beea44, 4) == 0x5f7a9b2e {}
  lemma {:induction false} Turn37()
    ensures Turn(2, 0xc3689f5b, 0x5f7a9b2e, 0x004b6669, 0x12f3e755, 0x00000000, 0x4bdecfa9, 11) == 0xabc34e16 {}
  lemma {:induction false} Turn38()
    ensures Turn(2, 0x12f3e755, 0xabc34e16, 0x5f7a9b2e, 0x004b6669, 0x00000000, 0xf6bb4b60, 16) == 0x91ca4cb7 {}
  lemma {:induction false} Turn39()
    ensures Turn(2, 0x004b6669, 0x91ca4cb7, 0xabc34e16, 0x5f7a9b2e, 0x00000000, 0xbebfbc70, 23) == 0xc5dc8c15 {}
  lemma {:induction false} Turn40()
    ensures Turn(2, 0x5f7a9b2e, 0xc5dc8c15, 0x91ca4cb7, 0xabc34e16, 0x00000000, 0x289b7ec6, 4) == 0x4497169d {}
  lemma {:induction false} Turn41()
    ensures Turn(2, 0xabc34e16, 0x4497169d, 0xc5dc8c15, 0x91ca4cb7, 0x00000080, 0xeaa127fa, 11) == 0x76fd93d4 {}
  lemma {:induction false} Turn42()
    ensures Turn(2, 0x91ca4cb7, 0x76fd93d4, 0x4497169d, 0xc5dc8c15, 0x00000000, 0xd4ef3085, 16) == 0xfd95f243 {}
  lemma {:induction false} Turn43()
    ensures Turn(2, 0xc5dc8c15, 0xfd95f243, 0x76fd93d4, 0x4497169d, 0x00000000, 0x04881d05, 23) == 0x0fe32453 {}
  lemma {:induction false} Turn44()
    ensures Turn(2, 0x4497169d, 0x0fe32453, 0xfd95f243, 0x76fd93d4, 0x00000000, 0xd9d4d039, 4) == 0x3f55edfd {}
  lemma {:induction false} Turn45()
    ensures Turn(2, 0x76fd93d4, 0x3f55edfd, 0x0fe32453, 0xfd95f243, 0x00000000, 0xe6db99e5, 11) == 0x22a31f54 {}
  lemma {:induction false} Turn46()
    ensures Turn(2, 0xfd95f243, 0x22a31f54, 0x3f55edfd, 0x0fe32453, 0x00000000, 0x1fa27cf8, 16) == 0x68d84ea2 {}
  lemma {:induction false} Turn47()
    ensures Turn(2, 0x0fe32453, 0x68d84ea2, 0x22a31f54, 0x3f55edfd, 0x00000000, 0xc4ac5665, 23) == 0xca7d2dbd {}
  lemma {:induction false} Turn48()
    ensures Turn(3, 0x3f55edfd, 0xca7d2dbd, 0x68d84ea2, 0x22a31f54, 0x00000080, 0xf4292244, 6) == 0x93aa2577 {}
  lemma {:induction false} Turn49()
    ensures Turn(3, 0x22a31f54, 0x93aa2577, 0xca7d2dbd, 0x68d84ea2, 0x00000000, 0x432aff97, 10) == 0x1688dc85 {}
  lemma {:induction false} Turn50()
    ensures Turn(3, 0x68d84ea2, 0x1688dc85, 0x93aa2577, 0xca7d2dbd, 0x00000000, 0xab9423a7, 15) == 0xcd85b8cb {}
  lemma {:induction false} Turn51()
    ensures Turn(3, 0xca7d2dbd, 0xcd85b8cb, 0x1688dc85, 0x93aa2577, 0x00000000, 0xfc93a039, 21) == 0x561e0689 {}
  lemma {:induction false} Turn52()
    ensures Turn(3, 0x93aa2577, 0x561e0689, 0xcd85b8cb, 0x1688dc85, 0x00000000, 0x655b59c3, 6) == 0x5625a114 {}
  lemma {:induction false} Turn53()
    ensures Turn(3, 0x1688dc85, 0x5625a114, 0x561e0689, 0xcd85b8cb, 0x00000000, 0x8f0ccc92, 10) == 0x3450f42b {}
  lemma {:induction false} Turn54()
    ensures Turn(3, 0xcd85b8cb, 0x3450f42b, 0x5625a114, 0x561e0689, 0x00000000, 0xffeff47d, 15) == 0x392ad0d0 {}
  lemma {:induction false} Turn55()
    ensures Turn(3, 0x561e0689, 0x392ad0d0, 0x3450f42b, 0x5625a114, 0x00000000, 0x85845dd1, 21) == 0x1e77fa61 {}
  lemma {:induction false} Turn56()
    ensures Turn(3, 0x5625a114, 0x1e77fa61, 0x392ad0d0, 0x3450f42b, 0x00000000, 0x6fa87e4f, 6) == 0x474a9c8c {}
  lemma {:induction false} Turn57()
    ensures Turn(3, 0x3450f42b, 0x474a9c8c, 0x1e77fa61, 0x392ad0d0, 0x00000000, 0xfe2ce6e0, 10) == 0xdfce00bc {}
  lemma {:induction false} Turn58()
    ensures Turn(3, 0x392ad0d0, 0xdfce00bc, 0x474a9c8c, 0x1e77fa61, 0x00000000, 0xa3014314, 15) == 0x36594b14 {}
  lemma {:induction false} Turn59()
    ensures Turn(3, 0x1e77fa61, 0x36594b14, 0xdfce00bc, 0x474a9c8c, 0x00000000, 0x4e0811a1, 21) == 0x30130182 {}
  lemma {:induction false} Turn60()
    ensures Turn(3, 0x474a9c8c, 0x30130182, 0x36594b14, 0xdfce00bc, 0x00000000, 0xf7537e82, 6) == 0x7246fad3 {}
  lemma {:induction false} Turn61()
    ensures Turn(3, 0xdfce00bc, 0x7246fad3, 0x30130182, 0x36594b14, 0x00000000, 0xbd3af235, 10) == 0x6e10a476 {}
  lemma {:induction false} Turn62()
    ensures Turn(3, 0x36594b14, 0x6e10a476, 0x7246fad3, 0x30130182, 0x00000000, 0x2ad7d2bb, 15) == 0xff4ea3eb {}
  lemma {:induction false} Turn63()
    ensures Turn(3, 0x30130182, 0xff4ea3eb, 0x6e10a476, 0x7246fad3, 0x00000000, 0xeb86d391, 21) == 0x14e45506 {}

  lemma {:induction false} AllRounds()
    ensures |EMPTY| == 16 && Rounds(START, EMPTY, 64) == Registers(0x7246fad3, 0x14e45506, 0xff4ea3eb, 0x6e10a476)
  {
    hide *;
    MessageWords();
    FirstRound(EMPTY);
    Lines1();
    Lines2();
    Lines3();
    Lines4();
    Turn00();
    Next(EMPTY, 0, Registers(0x67452301, 0xefcdab89, 0x98badcfe, 0x10325476), 0x00000080, 0, 0xd76aa478, 7, 0xa5202774);
    Turn01();
    Next(EMPTY, 1, Registers(0x10325476, 0xa5202774, 0xefcdab89, 0x98badcfe), 0x00000000, 1, 0xe8c7b756, 12, 0xf59592dd);
    Turn02();
    Next(EMPTY, 2, Registers(0x98badcfe, 0xf59592dd, 0xa5202774, 0xefcdab89), 0x00000000, 2, 0x242070db, 17, 0xe7f06b23);
    Turn03();
    Next(EMPTY, 3, Registers(0xefcdab89, 0xe7f06b23, 0xf59592dd, 0xa5202774), 0x00000000, 3, 0xc1bdceee, 22, 0x1b163203);
    Turn04();
    Next(EMPTY, 4, Registers(0xa5202774, 0x1b163203, 0xe7f06b23, 0xf59592dd), 0x00000000, 4, 0xf57c0faf, 7, 0x32033344);
    Turn05();
    Next(EMPTY, 5, Registers(0xf59592dd, 0x32033344, 0x1b163203, 0xe7f06b23), 0x00000000, 5, 0x4787c62a, 12, 0x2f35d494);
    Turn06();
    Next(EMPTY, 6, Registers(0xe7f06b23, 0x2f35d494, 0x32033344, 0x1b163203), 0x00000000, 6, 0xa8304613, 17, 0xf5b158db);
    Turn07();
    Next(EMPTY, 7, Registers(0x1b163203, 0xf5b158db, 0x2f35d494, 0x32033344), 0x00000000, 7, 0xfd469501, 22, 0x9bc13ce9);
    Turn08();
    Next(EMPTY, 8, Registers(0x32033344, 0x9bc13ce9, 0xf5b158db, 0x2f35d494), 0x00000000, 8, 0x698098d8, 7, 0x3893b991);
    Turn09();
    Next(EMPTY, 9, Registers(0x2f35d494, 0x3893b991, 0x9bc13ce9, 0xf5b158db), 0x00000000, 9, 0x8b44f7af, 12, 0xfce4a312);
    Turn10();
    Next(EMPTY, 10, Registers(0xf5b158db, 0xfce4a312, 0x3893b991, 0x9bc13ce9), 0x00000000, 10, 0xffff5bb1, 17, 0xe1ef0576);
    Turn11();
    Next(EMPTY, 11, Registers(0x9bc13ce9, 0xe1ef0576, 0xfce4a312, 0x3893b991), 0x00000000, 11, 0x895cd7be, 22, 0x70768a29);
    Turn12();
    Next(EMPTY, 12, Registers(0x3893b991, 0x70768a29, 0xe1ef0576, 0xfce4a312), 0x00000000, 12, 0x6b901122, 7, 0xf56c7cf1);
    Turn13();
    Next(EMPTY, 13, Registers(0xfce4a312, 0xf56c7cf1, 0x70768a29, 0xe1ef0576), 0x00000000, 13, 0xfd987193, 12, 0x374943a7);
    Turn14();
    Next(EMPTY, 14, Registers(0xe1ef0576, 0x374943a7, 0xf56c7cf1, 0x70768a29), 0x00000000, 14, 0xa679438e, 17, 0x5aa53f75);
    Turn15();
    Next(EMPTY, 15, Registers(0x70768a29, 0x5aa53f75, 0x374943a7, 0xf56c7cf1), 0x00000000, 15, 0x49b40821, 22, 0xd6819c6a);
    Turn16();
    Next(EMPTY, 16, Registers(0xf56c7cf1, 0xd6819c6a, 0x5aa53f75, 0x374943a7), 0x00000000, 1, 0xf61e2562, 5, 0x1c7d7513);
    Turn17();
    Next(EMPTY, 17, Registers(0x374943a7, 0x1c7d7513, 0xd6819c6a, 0x5aa53f75), 0x00000000, 6, 0xc040b340, 9, 0x7bd57a3a);
    Turn18();
    Next(EMPTY, 18, Registers(0x5aa53f75, 0x7bd57a3a, 0x1c7d7513, 0xd6819c6a), 0x00000000, 11, 0x265e5a51, 14, 0xc095f13a);
    Turn19();
    Next(EMPTY, 19, Registers(0xd6819c6a, 0xc095f13a, 0x7bd57a3a, 0x1c7d7513), 0x00000080, 0, 0xe9b6c7aa, 20, 0xbd782e17);
    Turn20();
    Next(EMPTY, 20, Registers(0x1c7d7513, 0xbd782e17, 0xc095f13a, 0x7bd57a3a), 0x00000000, 5, 0xd62f105d, 5, 0x3d1e3e6c);
    Turn21();
    Next(EMPTY, 21, Registers(0x7bd57a3a, 0x3d1e3e6c, 0xbd782e17, 0xc095f13a), 0x00000000, 10, 0x02441453, 9, 0x68b7b3e3);
    Turn22();
    Next(EMPTY, 22, Registers(0xc095f13a, 0x68b7b3e3, 0x3d1e3e6c, 0xbd782e17), 0x00000000, 15, 0xd8a1e681, 14, 0xeb41643e);
    Turn23();
    Next(EMPTY, 23, Registers(0xbd782e17, 0xeb41643e, 0x68b7b3e3, 0x3d1e3e6c), 0x00000000, 4, 0xe7d3fbc8, 20, 0xe422531a);
    Turn24();
    Next(EMPTY, 24, Registers(0x3d1e3e6c, 0xe422531a, 0xeb41643e, 0x68b7b3e3), 0x00000000, 9, 0x21e1cde6, 5, 0x306ec122);
    Turn25();
    Next(EMPTY, 25, Registers(0x68b7b3e3, 0x306ec122, 0xe422531a, 0xeb41643e), 0x00000000, 14, 0xc33707d6, 9, 0xd28c77c2);
    Turn26();
    Next(EMPTY, 26, Registers(0xeb41643e, 0xd28c77c2, 0x306ec122, 0xe422531a), 0x00000000, 3, 0xf4d50d87, 14, 0xa3c663da);
    Turn27();
    Next(EMPTY, 27, Registers(0xe422531a, 0xa3c663da, 0xd28c77c2, 0x306ec122), 0x00000000, 8, 0x455a14ed, 20, 0xa0572807);
    Turn28();
    Next(EMPTY, 28, Registers(0x306ec122, 0xa0572807, 0xa3c663da, 0xd28c77c2), 0x00000000, 13, 0xa9e3e905, 5, 0x13707036);
    Turn29();
    Next(EMPTY, 29, Registers(0xd28c77c2, 0x13707036, 0xa0572807, 0xa3c663da), 0x00000000, 2, 0xfcefa3f8, 9, 0xae7813db);
    Turn30();
    Next(EMPTY, 30, Registers(0xa3c663da, 0xae7813db, 0x13707036, 0xa0572807), 0x00000000, 7, 0x676f02d9, 14, 0x1c31c384);
    Turn31();
    Next(EMPTY, 31, Registers(0xa0572807, 0x1c31c384, 0xae7813db, 0x13707036), 0x00000000, 12, 0x8d2a4c8a, 20, 0xa2205f1f);
    Turn32();
    Next(EMPTY, 32, Registers(0x13707036, 0xa2205f1f, 0x1c31c384, 0xae7813db), 0x00000000, 5, 0xfffa3942, 4, 0xdf63eaa1);
    Turn33();
    Next(EMPTY, 33, Registers(0xae7813db, 0xdf63eaa1, 0xa2205f1f, 0x1c31c384), 0x00000000, 8, 0x8771f681, 11, 0xc3689f5b);
    Turn34();
    Next(EMPTY, 34, Registers(0x1c31c384, 0xc3689f5b, 0xdf63eaa1, 0xa2205f1f), 0x00000000, 11, 0x6d9d6122, 16, 0x12f3e755);
    Turn35();
    Next(EMPTY, 35, Registers(0xa2205f1f, 0x12f3e755, 0xc3689f5b, 0xdf63eaa1), 0x00000000, 14, 0xfde5380c, 23, 0x004b6669);
    Turn36();
    Next(EMPTY, 36, Registers(0xdf63eaa1, 0x004b6669, 0x12f3e755, 0xc3689f5b), 0x00000000, 1, 0xa4beea44, 4, 0x5f7a9b2e);
    Turn37();
    Next(EMPTY, 37, Registers(0xc3689f5b, 0x5f7a9b2e, 0x004b6669, 0x12f3e755), 0x00000000, 4, 0x4bdecfa9, 11, 0xabc34e16);
    Turn38();
    Next(EMPTY, 38, Registers(0x12f3e755, 0xabc34e16, 0x5f7a9b2e, 0x004b6669), 0x00000000, 7, 0xf6bb4b60, 16, 0x91ca4cb7);
    Turn39();
    Next(EMPTY, 39, Registers(0x004b6669, 0x91ca4cb7, 0xabc34e16, 0x5f7a9b2e), 0x00000000, 10, 0xbebfbc70, 23, 0xc5dc8c15);
    Turn40();
    Next(EMPTY, 40, Registers(0x5f7a9b2e, 0xc5dc8c15, 0x91ca4cb7, 0xabc34e16), 0x00000000, 13, 0x289b7ec6, 4, 0x4497169d);
    Turn41();
    Next(EMPTY, 41, Registers(0xabc34e16, 0x4497169d, 0xc5dc8c15, 0x91ca4cb7), 0x00000080, 0, 0xeaa127fa, 11, 0x76fd93d4);
    Turn42();
    Next(EMPTY, 42, Registers(0x91ca4cb7, 0x76fd93d4, 0x4497169d, 0xc5dc8c15), 0x00000000, 3, 0xd4ef3085, 16, 0xfd95f243);
    Turn43();
    Next(EMPTY, 43, Registers(0xc5dc8c15, 0xfd95f243, 0x76fd93d4, 0x4497169d), 0x00000000, 6, 0x04881d05, 23, 0x0fe32453);
    Turn44();
    Next(EMPTY, 44, Registers(0x4497169d, 0x0fe32453, 0xfd95f243, 0x76fd93d4), 0x00000000, 9, 0xd9d4d039, 4, 0x3f55edfd);
    Turn45();
    Next(EMPTY, 45, Registers(0x76fd93d4, 0x3f55edfd, 0x0fe32453, 0xfd95f243), 0x00000000, 12, 0xe6db99e5, 11, 0x22a31f54);
    Turn46();
    Next(EMPTY, 46, Registers(0xfd95f243, 0x22a31f54, 0x3f55edfd, 0x0fe32453), 0x00000000, 15, 0x1fa27cf8, 16, 0x68d84ea2);
    Turn47();
    Next(EMPTY, 47, Registers(0x0fe32453, 0x68d84ea2, 0x22a31f54, 0x3f55edfd), 0x00000000, 2, 0xc4ac5665, 23, 0xca7d2dbd);
    Turn48();
    Next(EMPTY, 48, Registers(0x3f55edfd, 0xca7d2dbd, 0x68d84ea2, 0x22a31f54), 0x00000080, 0, 0xf4292244, 6, 0x93aa2577);
    Turn49();
    Next(EMPTY, 49, Registers(0x22a31f54, 0x93aa2577, 0xca7d2dbd, 0x68d84ea2), 0x00000000, 7, 0x432aff97, 10, 0x1688dc85);
    Turn50();
    Next(EMPTY, 50, Registers(0x68d84ea2, 0x1688dc85, 0x93aa2577, 0xca7d2dbd), 0x00000000, 14, 0xab9423a7, 15, 0xcd85b8cb);
    Turn51();
    Next(EMPTY, 51, Registers(0xca7d2dbd, 0xcd85b8cb, 0x1688dc85, 0x93aa2577), 0x00000000, 5, 0xfc93a039, 21, 0x561e0689);
    Turn52();
    Next(EMPTY, 52, Registers(0x93aa2577, 0x561e0689, 0xcd85b8cb, 0x1688dc85), 0x00000000, 12, 0x655b59c3, 6, 0x5625a114);
    Turn53();
    Next(EMPTY, 53, Registers(0x1688dc85, 0x5625a114, 0x561e0689, 0xcd85b8cb), 0x00000000, 3, 0x8f0ccc92, 10, 0x3450f42b);
    Turn54();
    Next(EMPTY, 54, Registers(0xcd85b8cb, 0x3450f42b, 0x5625a114, 0x561e0689), 0x00000000, 10, 0xffeff47d, 15, 0x392ad0d0);
    Turn55();
    Next(EMPTY, 55, Registers(0x561e0689, 0x392ad0d0, 0x3450f42b, 0x5625a114), 0x00000000, 1, 0x85845dd1, 21, 0x1e77fa61);
    Turn56();
    Next(EMPTY, 56, Registers(0x5625a114, 0x1e77fa61, 0x392ad0d0, 0x3450f42b), 0x00000000, 8, 0x6fa87e4f, 6, 0x474a9c8c);
    Turn57();
    Next(EMPTY, 57, Registers(0x3450f42b, 0x474a9c8c, 0x1e77fa61, 0x392ad0d0), 0x00000000, 15, 0xfe2ce6e0, 10, 0xdfce00bc);
    Turn58();
    Next(EMPTY, 58, Registers(0x392ad0d0, 0xdfce00bc, 0x474a9c8c, 0x1e77fa61), 0x00000000, 6, 0xa3014314, 15, 0x36594b14);
    Turn59();
    Next(EMPTY, 59, Registers(0x1e77fa61, 0x36594b14, 0xdfce00bc, 0x474a9c8c), 0x00000000, 13, 0x4e0811a1, 21, 0x30130182);
    Turn60();
    Next(EMPTY, 60, Registers(0x474a9c8c, 0x30130182, 0x36594b14, 0xdfce00bc), 0x00000000, 4, 0xf7537e82, 6, 0x7246fad3);
    Turn61();
    Next(EMPTY, 61, Registers(0xdfce00bc, 0x7246fad3, 0x30130182, 0x36594b14), 0x00000000, 11, 0xbd3af235, 10, 0x6e10a476);
    Turn62();
    Next(EMPTY, 62, Registers(0x36594b14, 0x6e10a476, 0x7246fad3, 0x30130182), 0x00000000, 2, 0x2ad7d2bb, 15, 0xff4ea3eb);
    Turn63();
    Next(EMPTY, 63, Registers(0x30130182, 0xff4ea3eb, 0x6e10a476, 0x7246fad3), 0x00000000, 9, 0xeb86d391, 21, 0x14e45506);
  }

  /** MD5 ("") = d41d8cd98f00b204e9800998ecf8427e */
  lemma {:induction false} KnownDigest()
    ensures Digest([])
         == [0xd4, 0x1d, 0x8c, 0xd9, 0x8f, 0x00, 0xb2, 0x04,
             0xe9, 0x80, 0x09, 0x98, 0xec, 0xf8, 0x42, 0x7e]
  {
    hide *;
    var m: seq<Octet> := [];
    var r := Registers(0x7246fad3, 0x14e45506, 0xff4ea3eb, 0x6e10a476);
    Ends();
    LengthWord(8 * |m|);
    BlockWords(m, 0);
    MessageWords();
    assert Decode(Padded(m)) == EMPTY;
    AllRounds();
    OneBlock(m, EMPTY, r);
  }

  lemma {:induction false} LengthWord(n: int)
    requires n == 0
    ensures n as Word == 0 as Octet as Word
  {}

  lemma {:induction false} Ends()
    ensures LittleWord(0x80, 0x00, 0x00, 0x00) == 0x00000080
    ensures var s := Sums(INITIAL, Registers(0x7246fad3, 0x14e45506, 0xff4ea3eb, 0x6e10a476));
            LittleBytes(s[0]) + LittleBytes(s[1]) + (LittleBytes(s[2]) + LittleBytes(s[3]))
            == [0xd4, 0x1d, 0x8c, 0xd9, 0x8f, 0x00, 0xb2, 0x04,
                0xe9, 0x80, 0x09, 0x98, 0xec, 0xf8, 0x42, 0x7e]
  {}
}

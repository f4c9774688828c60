/** MD5 of the message "abc", operation by operation (section A.5 of RFC 1321). */
module Md5Abc {
  import opened Common
  import opened Md5
  import opened Md5Answers

  /** The words of its padded block. */
  const ABC: seq<Word> := [
    0x80636261, 0x00000000, 0x00000000, 0x00000000,
    0x00000000, 0x00000000, 0x00000000, 0x00000000,
    0x00000000, 0x00000000, 0x00000000, 0x00000000,
    0x00000000, 0x00000000, 0x00000018, 0x00000000
  ]

  lemma {:induction false} MessageWords()
    ensures |ABC| == 16 && ABC[0] == 0x80636261 && ABC[14] == 0x00000018
    ensures forall k :: 1 <= k < 16 && k != 14 ==> ABC[k] == 0
  {}

  lemma {:induction false} Turn00()
    ensures Turn(0, 0x67452301, 0xefcdab89, 0x98badcfe, 0x10325476, 0x80636261, 0xd76aa478, 7) == 0xd6d117b4 {}
  lemma {:induction false} Turn01()
    ensures Turn(0, 0x10325476, 0xd6d117b4, 0xefcdab89, 0x98badcfe, 0x00000000, 0xe8c7b756, 12) == 0x344a8432 {}
  lemma {:induction false} Turn02()
    ensures Turn(0, 0x98badcfe, 0x344a8432, 0xd6d117b4, 0xefcdab89, 0x00000000, 0x242070db, 17) == 0x2f6fbd72 {}
  lemma {:induction false} Turn03()
    ensures Turn(0, 0xefcdab89, 0x2f6fbd72, 0x344a8432, 0xd6d117b4, 0x00000000, 0xc1bdceee, 22) == 0x7ad956f2 {}
  lemma {:induction false} Turn04()
    ensures Turn(0, 0xd6d117b4, 0x7ad956f2, 0x2f6fbd72, 0x344a8432, 0x00000000, 0xf57c0faf, 7) == 0xc73741ef {}
  lemma {:induction false} Turn05()
    ensures Turn(0, 0x344a8432, 0xc73741ef, 0x7ad956f2, 0x2f6fbd72, 0x00000000, 0x4787c62a, 12) == 0x8bac3051 {}
  lemma {:induction false} Turn06()
    ensures Turn(0, 0x2f6fbd72, 0x8bac3051, 0xc73741ef, 0x7ad956f2, 0x00000000, 0xa8304613, 17) == 0x207dc67b {}
  lemma {:induction false} Turn07()
    ensures Turn(0, 0x7ad956f2, 0x207dc67b, 0x8bac3051, 0xc73741ef, 0x00000000, 0xfd469501, 22) == 0x928d99f6 {}
  lemma {:induction false} Turn08()
    ensures Turn(0, 0xc73741ef, 0x928d99f6, 0x207dc67b, 0x8bac3051, 0x00000000, 0x698098d8, 7) == 0x854b3712 {}
  lemma {:induction false} Turn09()
    ensures Turn(0, 0x8bac3051, 0x854b3712, 0x928d99f6, 0x207dc67b, 0x00000000, 0x8b44f7af, 12) == 0x74e2f284 {}
  lemma {:induction false} Turn10()
    ensures Turn(0, 0x207dc67b, 0x74e2f284, 0x854b3712, 0x928d99f6, 0x00000000, 0xffff5bb1, 17) == 0x3020401c {}
  lemma {:induction false} Turn11()
    ensures Turn(0, 0x928d99f6, 0x3020401c, 0x74e2f284, 0x854b3712, 0x00000000, 0x895cd7be, 22) == 0x5ed49596 {}
  lemma {:induction false} Turn12()
    ensures Turn(0, 0x854b3712, 0x5ed49596, 0x3020401c, 0x74e2f284, 0x00000000, 0x6b901122, 7) == 0xdda9b9a6 {}
  lemma {:induction false} Turn13()
    ensures Turn(0, 0x74e2f284, 0xdda9b9a6, 0x5ed49596, 0x3020401c, 0x00000000, 0xfd987193, 12) == 0xa1051895 {}
  lemma {:induction false} Turn14()
    ensures Turn(0, 0x3020401c, 0xa1051895, 0xdda9b9a6, 0x5ed49596, 0x00000018, 0xa679438e, 17) == 0xe396856b {}
  lemma {:induction false} Turn15()
    ensures Turn(0, 0x5ed49596, 0xe396856b, 0xa1051895, 0xdda9b9a6, 0x00000000, 0x49b40821, 22) == 0x72aff2e0 {}
  lemma {:induction false} Turn16()
    ensures Turn(1, 0xdda9b9a6, 0x72aff2e0, 0xe396856b, 0xa1051895, 0x00000000, 0xf61e2562, 5) == 0x3e9e9126 {}
  lemma {:induction false} Turn17()
    ensures Turn(1, 0xa1051895, 0x3e9e9126, 0x72aff2e0, 0xe396856b, 0x00000000, 0xc040b340, 9) == 0x4a1d804e {}
  lemma {:induction false} Turn18()
    ensures Turn(1, 0xe396856b, 0x4a1d804e, 0x3e9e9126, 0x72aff2e0, 0x00000000, 0x265e5a51, 14) == 0xe25e1652 {}
  lemma {:induction false} Turn19()
    ensures Turn(1, 0x72aff2e0, 0xe25e1652, 0x4a1d804e, 0x3e9e9126, 0x80636261, 0xe9b6c7aa, 20) == 0xb5b204e4 {}
  lemma {:induction false} Turn20()
    ensures Turn(1, 0x3e9e9126, 0xb5b204e4, 0xe25e1652, 0x4a1d804e, 0x00000000, 0xd62f105d, 5) == 0x59a8ffda {}
  lemma {:induction false} Turn21()
    ensures Turn(1, 0x4a1d804e, 0x59a8ffda, 0xb5b204e4, 0xe25e1652, 0x00000000, 0x02441453, 9) == 0x6d002f1e {}
  lemma {:induction false} Turn22()
    ensures Turn(1, 0xe25e1652, 0x6d002f1e, 0x59a8ffda, 0xb5b204e4, 0x00000000, 0xd8a1e681, 14) == 0xabfc7920 {}
  lemma {:induction false} Turn23()
    ensures Turn(1, 0xb5b204e4, 0xabfc7920, 0x6d002f1e, 0x59a8ffda, 0x00000000, 0xe7d3fbc8, 20) == 0x47092c07 {}
  lemma {:induction false} Turn24()
    ensures Turn(1, 0x59a8ffda, 0x47092c07, 0xabfc7920, 0x6d002f1e, 0x00000000, 0x21e1cde6, 5) == 0xb7f268cf {}
  lemma {:induction false} Turn25()
    ensures Turn(1, 0x6d002f1e, 0xb7f268cf, 0x47092c07, 0xabfc7920, 0x00000018, 0xc33707d6, 9) == 0x09388eff {}
  lemma {:induction false} Turn26()
    ensures Turn(1, 0xabfc7920, 0x09388eff, 0xb7f268cf, 0x47092c07, 0x00000000, 0xf4d50d87, 14) == 0xfe1623b1 {}
  lemma {:induction false} Turn27()
    ensures Turn(1, 0x47092c07, 0xfe1623b1, 0x09388eff, 0xb7f268cf, 0x00000000, 0x455a14ed, 20) == 0x786acb8f {}
  lemma {:induction false} Turn28()
    ensures Turn(1, 0xb7f268cf, 0x786acb8f, 0xfe1623b1, 0x09388eff, 0x00000000, 0xa9e3e905, 5) == 0x790a77fb {}
  lemma {:induction false} Turn29()
    ensures Turn(1, 0x09388eff, 0x790a77fb, 0x786acb8f, 0xfe1623b1, 0x00000000, 0xfcefa3f8, 9) == 0x9f47e4f8 {}
  lemma {:induction false} Turn30()
    ensures Turn(1, 0xfe1623b1, 0x9f47e4f8, 0x790a77fb, 0x786acb8f, 0x00000000, 0x676f02d9, 14) == 0xa62884aa {}
  lemma {:induction false} Turn31()
    ensures Turn(1, 0x786acb8f, 0xa62884aa, 0x9f47e4f8, 0x790a77fb, 0x00000000, 0x8d2a4c8a, 20) == 0x726342d3 {}
  lemma {:induction false} Turn32()
    ensures Turn(2, 0x790a77fb, 0x726342d3, 0xa62884aa, 0x9f47e4f8, 0x00000000, 0xfffa3942, 4) == 0xb3707ebf {}
  lemma {:induction false} Turn33()
    ensures Turn(2, 0x9f47e4f8, 0xb3707ebf, 0x726342d3, 0xa62884aa, 0x00000000, 0x8771f681, 11) == 0x60127b2e {}
  lemma {:induction false} Turn34()
    ensures Turn(2, 0xa62884aa, 0x60127b2e, 0xb3707ebf, 0x726342d3, 0x00000000, 0x6d9d6122, 16) == 0x8d212ff5 {}
  lemma {:induction false} Turn35()
    ensures Turn(2, 0x726342d3, 0x8d212ff5, 0x60127b2e, 0xb3707ebf, 0x00000018, 0xfde5380c, 23) == 0x3b0875c7 {}
  lemma {:induction false} Turn36()
    ensures Turn(2, 0xb3707ebf, 0x3b0875c7, 0x8d212ff5, 0x60127b2e, 0x00000000, 0xa4beea44, 4) == 0x21b117b9 {}
  lemma {:induction false} Turn37()
    ensures Turn(2, 0x60127b2e, 0x21b117b9, 0x3b0875c7, 0x8d212ff5, 0x00000000, 0x4bdecfa9, 11) == 0x6e7429d5 {}
  lemma {:induction false} Turn38()
    ensures Turn(2, 0x8d212ff5, 0x6e7429d5, 0x21b117b9, 0x3b0875c7, 0x00000000, 0xf6bb4b60, 16) == 0x3575227e {}
  lemma {:induction false} Turn39()
    ensures Turn(2, 0x3b0875c7, 0x3575227e, 0x6e7429d5, 0x21b117b9, 0x00000000, 0xbebfbc70, 23) == 0x5a2f5ea5 {}
  lemma {:induction false} Turn40()
    ensures Turn(2, 0x21b117b9, 0x5a2f5ea5, 0x3575227e, 0x6e7429d5, 0x00000000, 0x289b7ec6, 4) == 0x11de1779 {}
  lemma {:induction false} Turn41()
    ensures Turn(2, 0x6e7429d5, 0x11de1779, 0x5a2f5ea5, 0x3575227e, 0x80636261, 0xeaa127fa, 11) == 0xfadcaa38 {}
  lemma {:induction false} Turn42()
    ensures Turn(2, 0x3575227e, 0xfadcaa38, 0x11de1779, 0x5a2f5ea5, 0x00000000, 0xd4ef3085, 16) == 0x31c465ca {}
  lemma {:induction false} Turn43()
    ensures Turn(2, 0x5a2f5ea5, 0x31c465ca, 0xfadcaa38, 0x11de1779, 0x00000000, 0x04881d05, 23) == 0x4c6124f4 {}
  lemma {:induction false} Turn44()
    ensures Turn(2, 0x11de1779, 0x4c6124f4, 0x31c465ca, 0xfadcaa38, 0x00000000, 0xd9d4d039, 4) == 0x7f2e507b {}
  lemma {:induction false} Turn45()
    ensures Turn(2, 0xfadcaa38, 0x7f2e507b, 0x4c6124f4, 0x31c465ca, 0x00000000, 0xe6db99e5, 11) == 0x99d9679d {}
  lemma {:induction false} Turn46()
    ensures Turn(2, 0x31c465ca, 0x99d9679d, 0x7f2e507b, 0x4c6124f4, 0x00000000, 0x1fa27cf8, 16) == 0x8fae6399 {}
  lemma {:induction false} Turn47()
    ensures Turn(2, 0x4c6124f4, 0x8fae6399, 0x99d9679d, 0x7f2e507b, 0x00000000, 0xc4ac5665, 23) == 0x7beb9700 {}
  lemma {:induction false} Turn48()
    ensures Turn(3, 0x7f2e507b, 0x7beb9700, 0x8fae6399, 0x99d9679d, 0x80636261, 0xf4292244, 6) == 0x7b201df8 {}
  lemma {:induction false} Turn49()
    ensures Turn(3, 0x99d9679d, 0x7b201df8, 0x7beb9700, 0x8fae6399, 0x00000000, 0x432aff97, 10) == 0xf4e8e96e {}
  lemma {:induction false} Turn50()
    ensures Turn(3, 0x8fae6399, 0xf4e8e96e, 0x7b201df8, 0x7beb9700, 0x00000018, 0xab9423a7, 15) == 0xb298cefd {}
  lemma {:induction false} Turn51()
    ensures Turn(3, 0x7beb9700, 0xb298cefd, 0xf4e8e96e, 0x7b201df8, 0x00000000, 0xfc93a039, 21) == 0x8bf025c4 {}
  lemma {:induction false} Turn52()
    ensures Turn(3, 0x7b201df8, 0x8bf025c4, 0xb298cefd, 0xf4e8e96e, 0x00000000, 0x655b59c3, 6) == 0x06cc5e8a {}
  lemma {:induction false} Turn53()
    ensures Turn(3, 0xf4e8e96e, 0x06cc5e8a, 0x8bf025c4, 0xb298cefd, 0x00000000, 0x8f0ccc92, 10) == 0x5b0d97aa {}
  lemma {:induction false} Turn54()
    ensures Turn(3, 0xb298cefd, 0x5b0d97aa, 0x06cc5e8a, 0x8bf025c4, 0x00000000, 0xffeff47d, 15) == 0x7d632dd0 {}
  lemma {:induction false} Turn55()
    ensures Turn(3, 0x8bf025c4, 0x7d632dd0, 0x5b0d97aa, 0x06cc5e8a, 0x00000000, 0x85845dd1, 21) == 0x3bfa2c27 {}
  lemma {:induction false} Turn56()
    ensures Turn(3, 0x06cc5e8a, 0x3bfa2c27, 0x7d632dd0, 0x5b0d97aa, 0x00000000, 0x6fa87e4f, 6) == 0x7f81cc35 {}
  lemma {:induction false} Turn57()
    ensures Turn(3, 0x5b0d97aa, 0x7f81cc35, 0x3bfa2c27, 0x7d632dd0, 0x00000000, 0xfe2ce6e0, 10) == 0x094454ab {}
  lemma {:induction false} Turn58()
    ensures Turn(3, 0x7d632dd0, 0x094454ab, 0x7f81cc35, 0x3bfa2c27, 0x00000000, 0xa3014314, 15) == 0x4f9dbe3f {}
  lemma {:induction false} Turn59()
    ensures Turn(3, 0x3bfa2c27, 0x4f9dbe3f, 0x094454ab, 0x7f81cc35, 0x00000000, 0x4e0811a1, 21) == 0x7327d604 {}
  lemma {:induction false} Turn60()
    ensures Turn(3, 0x7f81cc35, 0x7327d604, 0x4f9dbe3f, 0x094454ab, 0x00000000, 0xf7537e82, 6) == 0x310ade8f {}
  lemma {:induction false} Turn61()
    ensures Turn(3, 0x094454ab, 0x310ade8f, 0x7327d604, 0x4f9dbe3f, 0x00000000, 0xbd3af235, 10) == 0x624d8cb2 {}
  lemma {:induction false} Turn62()
    ensures Turn(3, 0x4f9dbe3f, 0x624d8cb2, 0x310ade8f, 0x7327d604, 0x00000000, 0x2ad7d2bb, 15) == 0xe484b9d8 {}
  lemma {:induction false} Turn63()
    ensures Turn(3, 0x7327d604, 0xe484b9d8, 0x624d8cb2, 0x310ade8f, 0x00000000, 0xeb86d391, 21) == 0xc08226b3 {}

  lemma {:induction false} AllRounds()
    ensures |ABC| == 16 && Rounds(START, ABC, 64) == Registers(0x310ade8f, 0xc08226b3, 0xe484b9d8, 0x624d8cb2)
  {
    hide *;
    MessageWords();
    FirstRound(ABC);
    Lines1();
    Lines2();
    Lines3();
    Lines4();
    Turn00();
    Next(ABC, 0, Registers(0x67452301, 0xefcdab89, 0x98badcfe, 0x10325476), 0x80636261, 0, 0xd76aa478, 7, 0xd6d117b4);
    Turn01();
    Next(ABC, 1, Registers(0x10325476, 0xd6d117b4, 0xefcdab89, 0x98badcfe), 0x00000000, 1, 0xe8c7b756, 12, 0x344a8432);
    Turn02();
    Next(ABC, 2, Registers(0x98badcfe, 0x344a8432, 0xd6d117b4, 0xefcdab89), 0x00000000, 2, 0x242070db, 17, 0x2f6fbd72);
    Turn03();
    Next(ABC, 3, Registers(0xefcdab89, 0x2f6fbd72, 0x344a8432, 0xd6d117b4), 0x00000000, 3, 0xc1bdceee, 22, 0x7ad956f2);
    Turn04();
    Next(ABC, 4, Registers(0xd6d117b4, 0x7ad956f2, 0x2f6fbd72, 0x344a8432), 0x00000000, 4, 0xf57c0faf, 7, 0xc73741ef);
    Turn05();
    Next(ABC, 5, Registers(0x344a8432, 0xc73741ef, 0x7ad956f2, 0x2f6fbd72), 0x00000000, 5, 0x4787c62a, 12, 0x8bac3051);
    Turn06();
    Next(ABC, 6, Registers(0x2f6fbd72, 0x8bac3051, 0xc73741ef, 0x7ad956f2), 0x00000000, 6, 0xa8304613, 17, 0x207dc67b);
    Turn07();
    Next(ABC, 7, Registers(0x7ad956f2, 0x207dc67b, 0x8bac3051, 0xc73741ef), 0x00000000, 7, 0xfd469501, 22, 0x928d99f6);
    Turn08();
    Next(ABC, 8, Registers(0xc73741ef, 0x928d99f6, 0x207dc67b, 0x8bac3051), 0x00000000, 8, 0x698098d8, 7, 0x854b3712);
    Turn09();
    Next(ABC, 9, Registers(0x8bac3051, 0x854b3712, 0x928d99f6, 0x207dc67b), 0x00000000, 9, 0x8b44f7af, 12, 0x74e2f284);
    Turn10();
    Next(ABC, 10, Registers(0x207dc67b, 0x74e2f284, 0x854b3712, 0x928d99f6), 0x00000000, 10, 0xffff5bb1, 17, 0x3020401c);
    Turn11();
    Next(ABC, 11, Registers(0x928d99f6, 0x3020401c, 0x74e2f284, 0x854b3712), 0x00000000, 11, 0x895cd7be, 22, 0x5ed49596);
    Turn12();
    Next(ABC, 12, Registers(0x854b3712, 0x5ed49596, 0x3020401c, 0x74e2f284), 0x00000000, 12, 0x6b901122, 7, 0xdda9b9a6);
    Turn13();
    Next(ABC, 13, Registers(0x74e2f284, 0xdda9b9a6, 0x5ed49596, 0x3020401c), 0x00000000, 13, 0xfd987193, 12, 0xa1051895);
    Turn14();
    Next(ABC, 14, Registers(0x3020401c, 0xa1051895, 0xdda9b9a6, 0x5ed49596), 0x00000018, 14, 0xa679438e, 17, 0xe396856b);
    Turn15();
    Next(ABC, 15, Registers(0x5ed49596, 0xe396856b, 0xa1051895, 0xdda9b9a6), 0x00000000, 15, 0x49b40821, 22, 0x72aff2e0);
    Turn16();
    Next(ABC, 16, Registers(0xdda9b9a6, 0x72aff2e0, 0xe396856b, 0xa1051895), 0x00000000, 1, 0xf61e2562, 5, 0x3e9e9126);
    Turn17();
    Next(ABC, 17, Registers(0xa1051895, 0x3e9e9126, 0x72aff2e0, 0xe396856b), 0x00000000, 6, 0xc040b340, 9, 0x4a1d804e);
    Turn18();
    Next(ABC, 18, Registers(0xe396856b, 0x4a1d804e, 0x3e9e9126, 0x72aff2e0), 0x00000000, 11, 0x265e5a51, 14, 0xe25e1652);
    Turn19();
    Next(ABC, 19, Registers(0x72aff2e0, 0xe25e1652, 0x4a1d804e, 0x3e9e9126), 0x80636261, 0, 0xe9b6c7aa, 20, 0xb5b204e4);
    Turn20();
    Next(ABC, 20, Registers(0x3e9e9126, 0xb5b204e4, 0xe25e1652, 0x4a1d804e), 0x00000000, 5, 0xd62f105d, 5, 0x59a8ffda);
    Turn21();
    Next(ABC, 21, Registers(0x4a1d804e, 0x59a8ffda, 0xb5b204e4, 0xe25e1652), 0x00000000, 10, 0x02441453, 9, 0x6d002f1e);
    Turn22();
    Next(ABC, 22, Registers(0xe25e1652, 0x6d002f1e, 0x59a8ffda, 0xb5b204e4), 0x00000000, 15, 0xd8a1e681, 14, 0xabfc7920);
    Turn23();
    Next(ABC, 23, Registers(0xb5b204e4, 0xabfc7920, 0x6d002f1e, 0x59a8ffda), 0x00000000, 4, 0xe7d3fbc8, 20, 0x47092c07);
    Turn24();
    Next(ABC, 24, Registers(0x59a8ffda, 0x47092c07, 0xabfc7920, 0x6d002f1e), 0x00000000, 9, 0x21e1cde6, 5, 0xb7f268cf);
    Turn25();
    Next(ABC, 25, Registers(0x6d002f1e, 0xb7f268cf, 0x47092c07, 0xabfc7920), 0x00000018, 14, 0xc33707d6, 9, 0x09388eff);
    Turn26();
    Next(ABC, 26, Registers(0xabfc7920, 0x09388eff, 0xb7f268cf, 0x47092c07), 0x00000000, 3, 0xf4d50d87, 14, 0xfe1623b1);
    Turn27();
    Next(ABC, 27, Registers(0x47092c07, 0xfe1623b1, 0x09388eff, 0xb7f268cf), 0x00000000, 8, 0x455a14ed, 20, 0x786acb8f);
    Turn28();
    Next(ABC, 28, Registers(0xb7f268cf, 0x786acb8f, 0xfe1623b1, 0x09388eff), 0x00000000, 13, 0xa9e3e905, 5, 0x790a77fb);
    Turn29();
    Next(ABC, 29, Registers(0x09388eff, 0x790a77fb, 0x786acb8f, 0xfe1623b1), 0x00000000, 2, 0xfcefa3f8, 9, 0x9f47e4f8);
    Turn30();
    Next(ABC, 30, Registers(0xfe1623b1, 0x9f47e4f8, 0x790a77fb, 0x786acb8f), 0x00000000, 7, 0x676f02d9, 14, 0xa62884aa);
    Turn31();
    Next(ABC, 31, Registers(0x786acb8f, 0xa62884aa, 0x9f47e4f8, 0x790a77fb), 0x00000000, 12, 0x8d2a4c8a, 20, 0x726342d3);
    Turn32();
    Next(ABC, 32, Registers(0x790a77fb, 0x726342d3, 0xa62884aa, 0x9f47e4f8), 0x00000000, 5, 0xfffa3942, 4, 0xb3707ebf);
    Turn33();
    Next(ABC, 33, Registers(0x9f47e4f8, 0xb3707ebf, 0x726342d3, 0xa62884aa), 0x00000000, 8, 0x8771f681, 11, 0x60127b2e);
    Turn34();
    Next(ABC, 34, Registers(0xa62884aa, 0x60127b2e, 0xb3707ebf, 0x726342d3), 0x00000000, 11, 0x6d9d6122, 16, 0x8d212ff5);
    Turn35();
    Next(ABC, 35, Registers(0x726342d3, 0x8d212ff5, 0x60127b2e, 0xb3707ebf), 0x00000018, 14, 0xfde5380c, 23, 0x3b0875c7);
    Turn36();
    Next(ABC, 36, Registers(0xb3707ebf, 0x3b0875c7, 0x8d212ff5, 0x60127b2e), 0x00000000, 1, 0xa4beea44, 4, 0x21b117b9);
    Turn37();
    Next(ABC, 37, Registers(0x60127b2e, 0x21b117b9, 0x3b0875c7, 0x8d212ff5), 0x00000000, 4, 0x4bdecfa9, 11, 0x6e7429d5);
    Turn38();
    Next(ABC, 38, Registers(0x8d212ff5, 0x6e7429d5, 0x21b117b9, 0x3b0875c7), 0x00000000, 7, 0xf6bb4b60, 16, 0x3575227e);
    Turn39();
    Next(ABC, 39, Registers(0x3b0875c7, 0x3575227e, 0x6e7429d5, 0x21b117b9), 0x00000000, 10, 0xbebfbc70, 23, 0x5a2f5ea5);
    Turn40();
    Next(ABC, 40, Registers(0x21b117b9, 0x5a2f5ea5, 0x3575227e, 0x6e7429d5), 0x00000000, 13, 0x289b7ec6, 4, 0x11de1779);
    Turn41();
    Next(ABC, 41, Registers(0x6e7429d5, 0x11de1779, 0x5a2f5ea5, 0x3575227e), 0x80636261, 0, 0xeaa127fa, 11, 0xfadcaa38);
    Turn42();
    Next(ABC, 42, Registers(0x3575227e, 0xfadcaa38, 0x11de1779, 0x5a2f5ea5), 0x00000000, 3, 0xd4ef3085, 16, 0x31c465ca);
    Turn43();
    Next(ABC, 43, Registers(0x5a2f5ea5, 0x31c465ca, 0xfadcaa38, 0x11de1779), 0x00000000, 6, 0x04881d05, 23, 0x4c6124f4);
    Turn44();
    Next(ABC, 44, Registers(0x11de1779, 0x4c6124f4, 0x31c465ca, 0xfadcaa38), 0x00000000, 9, 0xd9d4d039, 4, 0x7f2e507b);
    Turn45();
    Next(ABC, 45, Registers(0xfadcaa38, 0x7f2e507b, 0x4c6124f4, 0x31c465ca), 0x00000000, 12, 0xe6db99e5, 11, 0x99d9679d);
    Turn46();
    Next(ABC, 46, Registers(0x31c465ca, 0x99d9679d, 0x7f2e507b, 0x4c6124f4), 0x00000000, 15, 0x1fa27cf8, 16, 0x8fae6399);
    Turn47();
    Next(ABC, 47, Registers(0x4c6124f4, 0x8fae6399, 0x99d9679d, 0x7f2e507b), 0x00000000, 2, 0xc4ac5665, 23, 0x7beb9700);
    Turn48();
    Next(ABC, 48, Registers(0x7f2e507b, 0x7beb9700, 0x8fae6399, 0x99d9679d), 0x80636261, 0, 0xf4292244, 6, 0x7b201df8);
    Turn49();
    Next(ABC, 49, Registers(0x99d9679d, 0x7b201df8, 0x7beb9700, 0x8fae6399), 0x00000000, 7, 0x432aff97, 10, 0xf4e8e96e);
    Turn50();
    Next(ABC, 50, Registers(0x8fae6399, 0xf4e8e96e, 0x7b201df8, 0x7beb9700), 0x00000018, 14, 0xab9423a7, 15, 0xb298cefd);
    Turn51();
    Next(ABC, 51, Registers(0x7beb9700, 0xb298cefd, 0xf4e8e96e, 0x7b201df8), 0x00000000, 5, 0xfc93a039, 21, 0x8bf025c4);
    Turn52();
    Next(ABC, 52, Registers(0x7b201df8, 0x8bf025c4, 0xb298cefd, 0xf4e8e96e), 0x00000000, 12, 0x655b59c3, 6, 0x06cc5e8a);
    Turn53();
    Next(ABC, 53, Registers(0xf4e8e96e, 0x06cc5e8a, 0x8bf025c4, 0xb298cefd), 0x00000000, 3, 0x8f0ccc92, 10, 0x5b0d97aa);
    Turn54();
    Next(ABC, 54, Registers(0xb298cefd, 0x5b0d97aa, 0x06cc5e8a, 0x8bf025c4), 0x00000000, 10, 0xffeff47d, 15, 0x7d632dd0);
    Turn55();
    Next(ABC, 55, Registers(0x8bf025c4, 0x7d632dd0, 0x5b0d97aa, 0x06cc5e8a), 0x00000000, 1, 0x85845dd1, 21, 0x3bfa2c27);
    Turn56();
    Next(ABC, 56, Registers(0x06cc5e8a, 0x3bfa2c27, 0x7d632dd0, 0x5b0d97aa), 0x00000000, 8, 0x6fa87e4f, 6, 0x7f81cc35);
    Turn57();
    Next(ABC, 57, Registers(0x5b0d97aa, 0x7f81cc35, 0x3bfa2c27, 0x7d632dd0), 0x00000000, 15, 0xfe2ce6e0, 10, 0x094454ab);
    Turn58();
    Next(ABC, 58, Registers(0x7d632dd0, 0x094454ab, 0x7f81cc35, 0x3bfa2c27), 0x00000000, 6, 0xa3014314, 15, 0x4f9dbe3f);
    Turn59();
    Next(ABC, 59, Registers(0x3bfa2c27, 0x4f9dbe3f, 0x094454ab, 0x7f81cc35), 0x00000000, 13, 0x4e0811a1, 21, 0x7327d604);
    Turn60();
    Next(ABC, 60, Registers(0x7f81cc35, 0x7327d604, 0x4f9dbe3f, 0x094454ab), 0x00000000, 4, 0xf7537e82, 6, 0x310ade8f);
    Turn61();
    Next(ABC, 61, Registers(0x094454ab, 0x310ade8f, 0x7327d604, 0x4f9dbe3f), 0x00000000, 11, 0xbd3af235, 10, 0x624d8cb2);
    Turn62();
    Next(ABC, 62, Registers(0x4f9dbe3f, 0x624d8cb2, 0x310ade8f, 0x7327d604), 0x00000000, 2, 0x2ad7d2bb, 15, 0xe484b9d8);
    Turn63();
    Next(ABC, 63, Registers(0x7327d604, 0xe484b9d8, 0x624d8cb2, 0x310ade8f), 0x00000000, 9, 0xeb86d391, 21, 0xc08226b3);
  }

  /** MD5 ("abc") = 900150983cd24fb0d6963f7d28e17f72 */
  lemma {:induction false} KnownDigest()
    ensures Digest([0x61, 0x62, 0x63])
         == [0x90, 0x01, 0x50, 0x98, 0x3c, 0xd2, 0x4f, 0xb0,
             0xd6, 0x96, 0x3f, 0x7d, 0x28, 0xe1, 0x7f, 0x72]
  {
    hide *;
    var m: seq<Octet> := [0x61, 0x62, 0x63];
    var r := Registers(0x310ade8f, 0xc08226b3, 0xe484b9d8, 0x624d8cb2);
    Ends();
    LengthWord(8 * |m|);
    BlockWords(m, 24);
    MessageWords();
    assert Decode(Padded(m)) == ABC;
    AllRounds();
    OneBlock(m, ABC, r);
  }

  lemma {:induction false} LengthWord(n: int)
    requires n == 24
    ensures n as Word == 24 as Octet as Word
  {}

  lemma {:induction false} Ends()
    ensures LittleWord(0x61, 0x62, 0x63, 0x80) == 0x80636261
    ensures var s := Sums(INITIAL, Registers(0x310ade8f, 0xc08226b3, 0xe484b9d8, 0x624d8cb2));
            LittleBytes(s[0]) + LittleBytes(s[1]) + (LittleBytes(s[2]) + LittleBytes(s[3]))
            == [0x90, 0x01, 0x50, 0x98, 0x3c, 0xd2, 0x4f, 0xb0,
                0xd6, 0x96, 0x3f, 0x7d, 0x28, 0xe1, 0x7f, 0x72]
  {}
}

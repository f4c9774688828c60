/**
 * What MD5 computes, apart from its definition: the macros bit by bit, the constants as
 * the source lists them, and two answers of section A.5 of RFC 1321, operation by
 * operation.
 */
module Md5Answers {
  import opened Common
  import opened Md5

  // ------------------------------------------------------------- the macros

  /** F takes c where b is set, d elsewhere. */
  lemma {:induction false} FBits(b: Word, c: Word, d: Word)
    ensures Mix(0, b, c, d) & b == c & b
    ensures Mix(0, b, c, d) & !b == d & !b
  {}

  /** G takes b where d is set, c elsewhere. */
  lemma {:induction false} GBits(b: Word, c: Word, d: Word)
    ensures Mix(1, b, c, d) & d == b & d
    ensures Mix(1, b, c, d) & !d == c & !d
  {}

  /** H is the parity: with two of the words it gives the third. */
  lemma {:induction false} HBits(b: Word, c: Word, d: Word)
    ensures Mix(2, b, c, d) ^ b ^ c == d
  {}

  /** I flips c where b is set or d is not, and keeps it elsewhere. */
  lemma {:induction false} IBits(b: Word, c: Word, d: Word)
    ensures Mix(3, b, c, d) & (b | !d) == !c & (b | !d)
    ensures Mix(3, b, c, d) & (!b & d) == c & (!b & d)
  {}

  /** A rotation multiplies by 2^n and adds what leaves the word back at the bottom. */
  lemma {:induction false} RotateCarries(w: Word, n: Word)
    requires 0 < n < 32
    ensures var p := (w as bv64) << (n as bv64);
            RotateLeft(w, n) as bv64 == (p & 0xffff_ffff) + (p >> 32)
  {}

  // --------------------------------------------------------------- the bytes

  lemma {:induction false} EncodeOne(a: Word)
    ensures Encode([a]) == LittleBytes(a)
  {
    hide LittleBytes;
    assert [a][1..] == [] && LittleBytes(a) + [] == LittleBytes(a);
  }

  lemma {:induction false} EncodeTwo(a: Word, b: Word)
    ensures Encode([a, b]) == LittleBytes(a) + LittleBytes(b)
  {
    hide LittleBytes;
    EncodeOne(b);
    assert [a, b][1..] == [b];
  }

  lemma {:induction false} EncodeFour(w: Words4)
    ensures Encode(w) == LittleBytes(w[0]) + LittleBytes(w[1]) + (LittleBytes(w[2]) + LittleBytes(w[3]))
  {
    hide LittleBytes;
    EncodeTwo(w[2], w[3]);
    assert w[1..][1..] == w[2..] == [w[2], w[3]];
    assert Encode(w[1..]) == LittleBytes(w[1]) + Encode(w[2..]);
  }

  /** The initial registers, low byte first. */
  lemma {:induction false} InitialBytes()
    ensures Encode(INITIAL) == [0x01, 0x23, 0x45, 0x67, 0x89, 0xab, 0xcd, 0xef,
                                0xfe, 0xdc, 0xba, 0x98, 0x76, 0x54, 0x32, 0x10]
  {
    EncodeFour(INITIAL);
  }

  /** A short length takes the first of its eight bytes. */
  lemma {:induction false} ShortLength(bits: int, octet: Octet)
    requires 0 <= bits < 256 && bits as Word == octet as Word
    ensures LengthBytes(bits) == [octet, 0, 0, 0, 0, 0, 0, 0]
  {
    EncodeTwo(octet as Word, 0);
    SmallBytes(octet);
    ZeroWord(bits / TWO_32);
    hide Encode, LittleBytes;
  }

  lemma {:induction false} ZeroWord(n: int)
    requires n == 0
    ensures n as Word == 0
  {}

  lemma {:induction false} SmallBytes(octet: Octet)
    ensures LittleBytes(octet as Word) == [octet, 0, 0, 0] && LittleBytes(0) == [0, 0, 0, 0]
  {}

  lemma {:induction false} WordAt(b: seq<Octet>, k: nat)
    requires |b| % 4 == 0 && 4 * k < |b|
    ensures Decode(b)[k] == LittleWord(b[4 * k], b[4 * k + 1], b[4 * k + 2], b[4 * k + 3])
  {
    hide LittleWord;
    if k > 0 {
      WordAt(b[4..], k - 1);
    }
  }

  // --------------------------------------------- the 64 lines of MD5::transform

  /** Operation `i` takes input word `k`, rotates by `n` and adds `sine`. */
  predicate IsLine(i: nat, k: nat, n: Word, sine: Word)
    requires i < 64
  {
    WordIndex(i) == k && Shift(i) == n && Sine(i) == sine
  }

  lemma {:induction false} Lines1a()
    ensures IsLine(0, 0, 7, 0xd76aa478)
    ensures IsLine(1, 1, 12, 0xe8c7b756)
    ensures IsLine(2, 2, 17, 0x242070db)
    ensures IsLine(3, 3, 22, 0xc1bdceee)
  {}

  lemma {:induction false} Lines1b()
    ensures IsLine(4, 4, 7, 0xf57c0faf)
    ensures IsLine(5, 5, 12, 0x4787c62a)
    ensures IsLine(6, 6, 17, 0xa8304613)
    ensures IsLine(7, 7, 22, 0xfd469501)
  {}

  lemma {:induction false} Lines1c()
    ensures IsLine(8, 8, 7, 0x698098d8)
    ensures IsLine(9, 9, 12, 0x8b44f7af)
    ensures IsLine(10, 10, 17, 0xffff5bb1)
    ensures IsLine(11, 11, 22, 0x895cd7be)
  {}

  lemma {:induction false} Lines1d()
    ensures IsLine(12, 12, 7, 0x6b901122)
    ensures IsLine(13, 13, 12, 0xfd987193)
    ensures IsLine(14, 14, 17, 0xa679438e)
    ensures IsLine(15, 15, 22, 0x49b40821)
  {}

  lemma {:induction false} Lines1()
    ensures IsLine(0, 0, 7, 0xd76aa478)
    ensures IsLine(1, 1, 12, 0xe8c7b756)
    ensures IsLine(2, 2, 17, 0x242070db)
    ensures IsLine(3, 3, 22, 0xc1bdceee)
    ensures IsLine(4, 4, 7, 0xf57c0faf)
    ensures IsLine(5, 5, 12, 0x4787c62a)
    ensures IsLine(6, 6, 17, 0xa8304613)
    ensures IsLine(7, 7, 22, 0xfd469501)
    ensures IsLine(8, 8, 7, 0x698098d8)
    ensures IsLine(9, 9, 12, 0x8b44f7af)
    ensures IsLine(10, 10, 17, 0xffff5bb1)
    ensures IsLine(11, 11, 22, 0x895cd7be)
    ensures IsLine(12, 12, 7, 0x6b901122)
    ensures IsLine(13, 13, 12, 0xfd987193)
    ensures IsLine(14, 14, 17, 0xa679438e)
    ensures IsLine(15, 15, 22, 0x49b40821)
  {
    hide IsLine;
    Lines1a();
    Lines1b();
    Lines1c();
    Lines1d();
  }

  lemma {:induction false} Lines2a()
    ensures IsLine(16, 1, 5, 0xf61e2562)
    ensures IsLine(17, 6, 9, 0xc040b340)
    ensures IsLine(18, 11, 14, 0x265e5a51)
    ensures IsLine(19, 0, 20, 0xe9b6c7aa)
  {}

  lemma {:induction false} Lines2b()
    ensures IsLine(20, 5, 5, 0xd62f105d)
    ensures IsLine(21, 10, 9, 0x02441453)
    ensures IsLine(22, 15, 14, 0xd8a1e681)
    ensures IsLine(23, 4, 20, 0xe7d3fbc8)
  {}

  lemma {:induction false} Lines2c()
    ensures IsLine(24, 9, 5, 0x21e1cde6)
    ensures IsLine(25, 14, 9, 0xc33707d6)
    ensures IsLine(26, 3, 14, 0xf4d50d87)
    ensures IsLine(27, 8, 20, 0x455a14ed)
  {}

  lemma {:induction false} Lines2d()
    ensures IsLine(28, 13, 5, 0xa9e3e905)
    ensures IsLine(29, 2, 9, 0xfcefa3f8)
    ensures IsLine(30, 7, 14, 0x676f02d9)
    ensures IsLine(31, 12, 20, 0x8d2a4c8a)
  {}

  lemma {:induction false} Lines2()
    ensures IsLine(16, 1, 5, 0xf61e2562)
    ensures IsLine(17, 6, 9, 0xc040b340)
    ensures IsLine(18, 11, 14, 0x265e5a51)
    ensures IsLine(19, 0, 20, 0xe9b6c7aa)
    ensures IsLine(20, 5, 5, 0xd62f105d)
    ensures IsLine(21, 10, 9, 0x02441453)
    ensures IsLine(22, 15, 14, 0xd8a1e681)
    ensures IsLine(23, 4, 20, 0xe7d3fbc8)
    ensures IsLine(24, 9, 5, 0x21e1cde6)
    ensures IsLine(25, 14, 9, 0xc33707d6)
    ensures IsLine(26, 3, 14, 0xf4d50d87)
    ensures IsLine(27, 8, 20, 0x455a14ed)
    ensures IsLine(28, 13, 5, 0xa9e3e905)
    ensures IsLine(29, 2, 9, 0xfcefa3f8)
    ensures IsLine(30, 7, 14, 0x676f02d9)
    ensures IsLine(31, 12, 20, 0x8d2a4c8a)
  {
    hide IsLine;
    Lines2a();
    Lines2b();
    Lines2c();
    Lines2d();
  }

  lemma {:induction false} Lines3a()
    ensures IsLine(32, 5, 4, 0xfffa3942)
    ensures IsLine(33, 8, 11, 0x8771f681)
    ensures IsLine(34, 11, 16, 0x6d9d6122)
    ensures IsLine(35, 14, 23, 0xfde5380c)
  {}

  lemma {:induction false} Lines3b()
    ensures IsLine(36, 1, 4, 0xa4beea44)
    ensures IsLine(37, 4, 11, 0x4bdecfa9)
    ensures IsLine(38, 7, 16, 0xf6bb4b60)
    ensures IsLine(39, 10, 23, 0xbebfbc70)
  {}

  lemma {:induction false} Lines3c()
    ensures IsLine(40, 13, 4, 0x289b7ec6)
    ensures IsLine(41, 0, 11, 0xeaa127fa)
    ensures IsLine(42, 3, 16, 0xd4ef3085)
    ensures IsLine(43, 6, 23, 0x04881d05)
  {}

  lemma {:induction false} Lines3d()
    ensures IsLine(44, 9, 4, 0xd9d4d039)
    ensures IsLine(45, 12, 11, 0xe6db99e5)
    ensures IsLine(46, 15, 16, 0x1fa27cf8)
    ensures IsLine(47, 2, 23, 0xc4ac5665)
  {}

  lemma {:induction false} Lines3()
    ensures IsLine(32, 5, 4, 0xfffa3942)
    ensures IsLine(33, 8, 11, 0x8771f681)
    ensures IsLine(34, 11, 16, 0x6d9d6122)
    ensures IsLine(35, 14, 23, 0xfde5380c)
    ensures IsLine(36, 1, 4, 0xa4beea44)
    ensures IsLine(37, 4, 11, 0x4bdecfa9)
    ensures IsLine(38, 7, 16, 0xf6bb4b60)
    ensures IsLine(39, 10, 23, 0xbebfbc70)
    ensures IsLine(40, 13, 4, 0x289b7ec6)
    ensures IsLine(41, 0, 11, 0xeaa127fa)
    ensures IsLine(42, 3, 16, 0xd4ef3085)
    ensures IsLine(43, 6, 23, 0x04881d05)
    ensures IsLine(44, 9, 4, 0xd9d4d039)
    ensures IsLine(45, 12, 11, 0xe6db99e5)
    ensures IsLine(46, 15, 16, 0x1fa27cf8)
    ensures IsLine(47, 2, 23, 0xc4ac5665)
  {
    hide IsLine;
    Lines3a();
    Lines3b();
    Lines3c();
    Lines3d();
  }

  lemma {:induction false} Lines4a()
    ensures IsLine(48, 0, 6, 0xf4292244)
    ensures IsLine(49, 7, 10, 0x432aff97)
    ensures IsLine(50, 14, 15, 0xab9423a7)
    ensures IsLine(51, 5, 21, 0xfc93a039)
  {}

  lemma {:induction false} Lines4b()
    ensures IsLine(52, 12, 6, 0x655b59c3)
    ensures IsLine(53, 3, 10, 0x8f0ccc92)
    ensures IsLine(54, 10, 15, 0xffeff47d)
    ensures IsLine(55, 1, 21, 0x85845dd1)
  {}

  lemma {:induction false} Lines4c()
    ensures IsLine(56, 8, 6, 0x6fa87e4f)
    ensures IsLine(57, 15, 10, 0xfe2ce6e0)
    ensures IsLine(58, 6, 15, 0xa3014314)
    ensures IsLine(59, 13, 21, 0x4e0811a1)
  {}

  lemma {:induction false} Lines4d()
    ensures IsLine(60, 4, 6, 0xf7537e82)
    ensures IsLine(61, 11, 10, 0xbd3af235)
    ensures IsLine(62, 2, 15, 0x2ad7d2bb)
    ensures IsLine(63, 9, 21, 0xeb86d391)
  {}

  lemma {:induction false} Lines4()
    ensures IsLine(48, 0, 6, 0xf4292244)
    ensures IsLine(49, 7, 10, 0x432aff97)
    ensures IsLine(50, 14, 15, 0xab9423a7)
    ensures IsLine(51, 5, 21, 0xfc93a039)
    ensures IsLine(52, 12, 6, 0x655b59c3)
    ensures IsLine(53, 3, 10, 0x8f0ccc92)
    ensures IsLine(54, 10, 15, 0xffeff47d)
    ensures IsLine(55, 1, 21, 0x85845dd1)
    ensures IsLine(56, 8, 6, 0x6fa87e4f)
    ensures IsLine(57, 15, 10, 0xfe2ce6e0)
    ensures IsLine(58, 6, 15, 0xa3014314)
    ensures IsLine(59, 13, 21, 0x4e0811a1)
    ensures IsLine(60, 4, 6, 0xf7537e82)
    ensures IsLine(61, 11, 10, 0xbd3af235)
    ensures IsLine(62, 2, 15, 0x2ad7d2bb)
    ensures IsLine(63, 9, 21, 0xeb86d391)
  {
    hide IsLine;
    Lines4a();
    Lines4b();
    Lines4c();
    Lines4d();
  }

  // ------------------------------------------------ one block from the start

  const START := Registers(0x67452301, 0xefcdab89, 0x98badcfe, 0x10325476)

  lemma {:induction false} FirstRound(x: seq<Word>)
    requires |x| == 16
    ensures Rounds(START, x, 0) == Registers(0x67452301, 0xefcdab89, 0x98badcfe, 0x10325476)
  {}

  lemma {:induction false} Next(x: seq<Word>, i: nat, r: Registers, word: Word, k: nat, sine: Word, n: Word, a: Word)
    requires |x| == 16 && i < 64 && k < 16 && 0 < n < 32 && Rounds(START, x, i) == r
    requires x[k] == word && IsLine(i, k, n, sine) && Turn(i / 16, r.a, r.b, r.c, r.d, word, sine, n) == a
    ensures Rounds(START, x, i + 1) == Registers(r.d, a, r.b, r.c)
  {
    hide Turn, WordIndex, Shift, Sine;
  }

  /** The padded block of a message of less than four bytes. */
  lemma {:induction false} BlockBytes(m: seq<Octet>, octet: Octet)
    requires |m| < 4 && (8 * |m|) as Word == octet as Word
    ensures var b := Padded(m);
            && |b| == 64 && b[..4] == (m + [0x80, 0, 0, 0])[..4]
            && (forall i :: 4 <= i < 64 && i != 56 ==> b[i] == 0) && b[56] == octet
  {
    hide LengthBytes;
    ShortLength(8 * |m|, octet);
    var tail: seq<Octet> := [octet, 0, 0, 0, 0, 0, 0, 0];
    assert Padded(m) == m + Padding(56 - |m|) + tail;
  }

  /** Its words. */
  lemma {:induction false} BlockWords(m: seq<Octet>, octet: Octet)
    requires |m| < 4 && (8 * |m|) as Word == octet as Word
    ensures |Padded(m)| == 64
    ensures var p := m + [0x80, 0, 0, 0];
            var x := Decode(Padded(m));
            && x[0] == LittleWord(p[0], p[1], p[2], p[3])
            && (forall k :: 1 <= k < 16 && k != 14 ==> x[k] == 0) && x[14] == octet as Word
  {
    BlockBytes(m, octet);
    SmallWords(octet);
    hide Decode, Padded, LittleWord;
    var b := Padded(m);
    var p := m + [0x80, 0, 0, 0];
    assert b[0] == b[..4][0] == p[0] && b[1] == b[..4][1] == p[1] && b[2] == b[..4][2] == p[2] && b[3] == b[..4][3] == p[3];
    WordAt(b, 0);
    WordAt(b, 14);
    forall k | 1 <= k < 16 && k != 14 ensures Decode(b)[k] == 0 {
      WordAt(b, k);
    }
  }

  lemma {:induction false} SmallWords(octet: Octet)
    ensures LittleWord(0, 0, 0, 0) == 0 && LittleWord(octet, 0, 0, 0) == octet as Word
  {}

  lemma {:induction false} FoldOne(state: Words4, b: Block)
    ensures Fold(state, b) == Compress(state, b)
  {
    hide Compress;
    assert b[..64] == b && b[64..] == [];
  }

  /** The digest of a message whose padded form is one block of the words `x`. */
  lemma {:induction false} OneBlock(m: seq<Octet>, x: seq<Word>, r: Registers)
    requires |Padded(m)| == 64 && Decode(Padded(m)) == x && Rounds(START, x, 64) == r
    ensures var s := Sums(INITIAL, r);
            Digest(m) == LittleBytes(s[0]) + LittleBytes(s[1]) + (LittleBytes(s[2]) + LittleBytes(s[3]))
  {
    hide Decode, Rounds, Sums, Encode, Padded, LittleBytes;
    FoldOne(INITIAL, Padded(m));
    assert Loaded(INITIAL) == START;
    EncodeFour(Sums(INITIAL, r));
  }
}

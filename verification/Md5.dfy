/**
 * MD5 (RFC 1321) as a stream: the block buffer, the two-word bit counter, and the
 * padding of MD5::update and MD5::finalization.
 */
module Md5 {
  import opened Common

  type Octet = bv8
  type Word = bv32
  type Words4 = w: seq<Word> | |w| == 4 witness [0, 0, 0, 0]
  type Block = b: seq<Octet> | |b| == 64 witness seq(64, i => 0)

  datatype Registers = Registers(a: Word, b: Word, c: Word, d: Word)

  /** One of the two words of the bit counter. */
  type Count = x: int | 0 <= x < TWO_32

  // -------------------------------------------------------------- one block

  /** The additive constants of the four rounds. */
  const SINES: seq<seq<Word>> := [
    [0xd76aa478, 0xe8c7b756, 0x242070db, 0xc1bdceee,
     0xf57c0faf, 0x4787c62a, 0xa8304613, 0xfd469501,
     0x698098d8, 0x8b44f7af, 0xffff5bb1, 0x895cd7be,
     0x6b901122, 0xfd987193, 0xa679438e, 0x49b40821],
    [0xf61e2562, 0xc040b340, 0x265e5a51, 0xe9b6c7aa,
     0xd62f105d, 0x02441453, 0xd8a1e681, 0xe7d3fbc8,
     0x21e1cde6, 0xc33707d6, 0xf4d50d87, 0x455a14ed,
     0xa9e3e905, 0xfcefa3f8, 0x676f02d9, 0x8d2a4c8a],
    [0xfffa3942, 0x8771f681, 0x6d9d6122, 0xfde5380c,
     0xa4beea44, 0x4bdecfa9, 0xf6bb4b60, 0xbebfbc70,
     0x289b7ec6, 0xeaa127fa, 0xd4ef3085, 0x04881d05,
     0xd9d4d039, 0xe6db99e5, 0x1fa27cf8, 0xc4ac5665],
    [0xf4292244, 0x432aff97, 0xab9423a7, 0xfc93a039,
     0x655b59c3, 0x8f0ccc92, 0xffeff47d, 0x85845dd1,
     0x6fa87e4f, 0xfe2ce6e0, 0xa3014314, 0x4e0811a1,
     0xf7537e82, 0xbd3af235, 0x2ad7d2bb, 0xeb86d391]
  ]

  /** The rotations of the four rounds. */
  const SHIFTS: seq<seq<Word>> := [[7, 12, 17, 22], [5, 9, 14, 20], [4, 11, 16, 23], [6, 10, 15, 21]]

  /** The macros F, G, H and I. */
  function Mix(round: nat, b: Word, c: Word, d: Word): (w: Word)
    requires round < 4
  {
    if round == 0 then (b & c) | (!b & d)
    else if round == 1 then (b & d) | (c & !d)
    else if round == 2 then b ^ c ^ d
    else c ^ (b | !d)
  }

  /** ROTATE_LEFT. */
  function RotateLeft(w: Word, n: Word): (r: Word)
    requires 0 < n < 32
  {
    (w << n) | (w >> (32 - n))
  }

  /** The input word operation `i` uses. */
  function WordIndex(i: nat): (k: nat)
    ensures k < 16
  {
    if i < 16 then i
    else if i < 32 then (1 + 5 * i) % 16
    else if i < 48 then (5 + 3 * i) % 16
    else (7 * i) % 16
  }

  /** The macros FF, GG, HH and II: the new value of register `a`. */
  function Turn(round: nat, a: Word, b: Word, c: Word, d: Word, x: Word, sine: Word, n: Word): (w: Word)
    requires round < 4 && 0 < n < 32
  {
    RotateLeft(a + Mix(round, b, c, d) + x + sine, n) + b
  }

  function Shift(i: nat): (n: Word)
    requires i < 64
    ensures 0 < n < 32
  {
    SHIFTS[i / 16][i % 4]
  }

  function Sine(i: nat): (w: Word)
    requires i < 64
  {
    SINES[i / 16][i % 16]
  }

  /**
   * Operation `i` on the registers, which then change places: the next operation
   * works on d, with the new value in the place of b.
   */
  function Operate(r: Registers, x: seq<Word>, i: nat): (s: Registers)
    requires |x| == 16 && i < 64
  {
    Registers(r.d, Turn(i / 16, r.a, r.b, r.c, r.d, x[WordIndex(i)], Sine(i), Shift(i)), r.b, r.c)
  }

  function Rounds(r: Registers, x: seq<Word>, n: nat): (s: Registers)
    requires |x| == 16 && n <= 64
  {
    if n == 0 then r else Operate(Rounds(r, x, n - 1), x, n - 1)
  }

  /** Little-endian words of a block, and back. */
  function Decode(b: seq<Octet>): (w: seq<Word>)
    requires |b| % 4 == 0
    ensures |w| == |b| / 4
  {
    if b == [] then [] else [LittleWord(b[0], b[1], b[2], b[3])] + Decode(b[4..])
  }

  function LittleWord(a: Octet, b: Octet, c: Octet, d: Octet): (w: Word) {
    (a as Word) | ((b as Word) << 8) | ((c as Word) << 16) | ((d as Word) << 24)
  }

  function LittleBytes(w: Word): (b: seq<Octet>)
    ensures |b| == 4
  {
    [(w & 0xff) as Octet, ((w >> 8) & 0xff) as Octet, ((w >> 16) & 0xff) as Octet, ((w >> 24) & 0xff) as Octet]
  }

  function Encode(w: seq<Word>): (b: seq<Octet>)
    ensures |b| == 4 * |w|
  {
    if w == [] then [] else LittleBytes(w[0]) + Encode(w[1..])
  }

  /** The compression function. */
  function Compress(state: Words4, block: Block): (s: Words4) {
    Sums(state, Rounds(Loaded(state), Decode(block), 64))
  }

  function Loaded(state: Words4): (r: Registers) {
    Registers(state[0], state[1], state[2], state[3])
  }

  function Sums(state: Words4, r: Registers): (w: Words4) {
    [state[0] + r.a, state[1] + r.b, state[2] + r.c, state[3] + r.d]
  }

  /** MD5::encode then MD5::decode, on whole words. */
  lemma {:induction false} DecodeEncode(w: seq<Word>)
    ensures Decode(Encode(w)) == w
  {
    if w != [] {
      var e := Encode(w);
      assert e[4..] == Encode(w[1..]);
      DecodeEncode(w[1..]);
      LittleEndian(w[0]);
    }
  }

  lemma {:induction false} LittleEndian(w: Word)
    ensures var b := LittleBytes(w); LittleWord(b[0], b[1], b[2], b[3]) == w
  {}

  /** MD5::encode: words into bytes, low byte first. */
  method EncodeWords(output: array<Octet>, input: seq<Word>)
    requires output.Length == 4 * |input|
    modifies output
    ensures output[..] == Encode(input)
  {
    hide Encode, LittleBytes;
    var i, j := 0, 0;
    assert input[0..] == input;
    while j < output.Length
      invariant 0 <= i <= |input| && j == 4 * i
      invariant output[..j] + Encode(input[i..]) == Encode(input)
    {
      EncodeTurn(input, i);
      ghost var was := output[..j];
      var k := input[i];
      PutWord(output, j, k);
      ghost var word := LittleBytes(k);
      assert output[..j + 4] == was + word;
      assert was + (word + Encode(input[i + 1..])) == was + word + Encode(input[i + 1..]);
      i, j := i + 1, j + 4;
    }
    EncodeNone(input[i..]);
    assert output[..j] == output[..];
  }

  /** The four statements in the loop of MD5::encode. */
  method PutWord(output: array<Octet>, j: nat, k: Word)
    requires j + 4 <= output.Length
    modifies output
    ensures output[..j] == old(output[..j]) && output[j..j + 4] == LittleBytes(k)
  {
    output[j] := (k & 0xff) as Octet;
    output[j + 1] := ((k >> 8) & 0xff) as Octet;
    output[j + 2] := ((k >> 16) & 0xff) as Octet;
    output[j + 3] := ((k >> 24) & 0xff) as Octet;
  }

  lemma {:induction false} EncodeTurn(w: seq<Word>, i: nat)
    requires i < |w|
    ensures Encode(w[i..]) == LittleBytes(w[i]) + Encode(w[i + 1..])
  {
    assert w[i..][1..] == w[i + 1..];
  }

  lemma {:induction false} EncodeNone(w: seq<Word>)
    ensures w == [] ==> Encode(w) == [] && forall b: seq<Octet> :: b + Encode(w) == b
  {}

  /** MD5::decode: bytes into words, low byte first. */
  method DecodeBytes(output: array<Word>, input: seq<Octet>)
    requires |input| == 4 * output.Length
    modifies output
    ensures output[..] == Decode(input)
  {
    hide Decode;
    var i, j := 0, 0;
    assert input[0..] == input;
    while j < |input|
      invariant 0 <= i <= output.Length && j == 4 * i
      invariant output[..i] + Decode(input[j..]) == Decode(input)
    {
      DecodeTurn(input, j);
      ghost var was := output[..i];
      output[i] := LittleWord(input[j], input[j + 1], input[j + 2], input[j + 3]);
      assert output[..i + 1] == was + [output[i]];
      assert was + ([output[i]] + Decode(input[j + 4..])) == was + [output[i]] + Decode(input[j + 4..]);
      i, j := i + 1, j + 4;
    }
    DecodeNone(input[j..]);
    assert output[..i] == output[..];
  }

  lemma {:induction false} DecodeTurn(b: seq<Octet>, j: nat)
    requires j + 4 <= |b| && |b| % 4 == 0 && j % 4 == 0
    ensures Decode(b[j..]) == [LittleWord(b[j], b[j + 1], b[j + 2], b[j + 3])] + Decode(b[j + 4..])
  {
    assert b[j..][4..] == b[j + 4..];
  }

  lemma {:induction false} DecodeNone(b: seq<Octet>)
    ensures b == [] ==> Decode(b) == [] && forall w: seq<Word> :: w + Decode([]) == w
  {}

  // ------------------------------------------------------------- the digest

  const INITIAL: Words4 := [0x67452301, 0xefcdab89, 0x98badcfe, 0x10325476]

  /** Compression of the whole blocks of `m`, in order. */
  function Fold(state: Words4, m: seq<Octet>): (s: Words4)
    decreases |m|
  {
    if |m| < 64 then state else Fold(Compress(state, m[..64]), m[64..])
  }

  lemma {:induction false} FoldAppend(state: Words4, u: seq<Octet>, v: seq<Octet>)
    requires |u| % 64 == 0
    ensures Fold(state, u + v) == Fold(Fold(state, u), v)
    decreases |u|
  {
    hide Compress;
    if u == [] {
      assert u + v == v;
    } else {
      assert (u + v)[..64] == u[..64] && (u + v)[64..] == u[64..] + v;
      FoldAppend(Compress(state, u[..64]), u[64..], v);
    }
  }

  lemma {:induction false} FoldBlock(state: Words4, u: seq<Octet>, block: Block)
    requires |u| % 64 == 0
    ensures Fold(state, u + block) == Compress(Fold(state, u), block)
  {
    hide Compress;
    FoldAppend(state, u, block);
    assert block[..64] == block && block[64..] == [];
  }

  function Zeros(n: nat): (z: seq<Octet>)
    ensures |z| == n
  {
    seq(n, i => 0)
  }

  /** A number below 2^64 as eight little-endian bytes. */
  function LengthBytes(bits: int): (b: seq<Octet>)
    requires 0 <= bits < TWO_64
    ensures |b| == 8
  {
    Encode([(bits % TWO_32) as Word, (bits / TWO_32) as Word])
  }

  /** How many bytes bring a message of `n` bytes to 56 modulo 64; at least one. */
  function PadLength(n: nat): (k: nat)
    ensures 1 <= k <= 64 && (n + k) % 64 == 56
  {
    if n % 64 < 56 then 56 - n % 64 else 120 - n % 64
  }

  /** The first `k` bytes of the array PADDING. */
  function Padding(k: nat): (b: seq<Octet>)
    requires 1 <= k <= 64
    ensures |b| == k
  {
    [0x80] + Zeros(k - 1)
  }

  lemma {:induction false} WholeBlocks(n: nat)
    ensures (n + PadLength(n) + 8) % 64 == 0
  {}

  /** Sections 3.1 and 3.2 of RFC 1321: a one bit, zeros, and the length in bits modulo 2^64. */
  function Padded(m: seq<Octet>): (p: seq<Octet>)
    ensures |p| % 64 == 0
  {
    WholeBlocks(|m|);
    m + Padding(PadLength(|m|)) + LengthBytes(8 * |m| % TWO_64)
  }

  function Digest(m: seq<Octet>): (d: seq<Octet>)
    ensures |d| == 16
  {
    Encode(Fold(INITIAL, Padded(m)))
  }

  // ------------------------------------------------------------- bit counter

  function Wrap(x: int): (w: Count) {
    x % TWO_32
  }

  /** The two counter words after `len` more bytes, with the source's 32-bit casts and carry. */
  function AddBits(count0: Count, count1: Count, len: nat): (c: (Count, Count))
  {
    var low := Wrap(Wrap(len) * 8);
    var c0 := Wrap(count0 as int + low);
    var carry := if c0 < low then 1 else 0;
    (c0, Wrap(count1 as int + carry + Wrap(len) / 0x2000_0000))
  }

  function Count64(c: (Count, Count)): (n: int) {
    c.0 + TWO_32 * c.1
  }

  /** The pair counts eight bits a byte modulo 2^64, but only of the length modulo 2^32. */
  lemma {:induction false} AddBitsMeaning(count0: Count, count1: Count, len: nat)
    ensures Count64(AddBits(count0, count1, len)) == (Count64((count0, count1)) + 8 * Wrap(len)) % TWO_64
  {
    var n := Wrap(len);
    var low := Wrap((n as int) * 8);
    var high := n / 0x2000_0000;
    assert (n as int) * 8 == low + TWO_32 * high;
    var sum := count0 as int + low;
    var c0 := Wrap(sum);
    var carry := if c0 < low then 1 else 0;
    assert sum == c0 + TWO_32 * carry;
    var top := count1 as int + carry + high;
    var total := Count64((count0, count1)) + 8 * (n as int);
    assert total == c0 + TWO_32 * top;
    HighWord(c0, top);
  }

  lemma {:induction false} HighWord(low: Count, top: nat)
    ensures (low + TWO_32 * top) % TWO_64 == low + TWO_32 * Wrap(top)
  {
    var q, r := top / TWO_32, Wrap(top);
    assert top == TWO_32 * q + r;
    assert low + TWO_32 * top == TWO_64 * q + (low + TWO_32 * r);
    ModUnique(q, low + TWO_32 * r);
  }

  lemma {:induction false} ModUnique(q: int, r: int)
    requires 0 <= r < TWO_64
    ensures (TWO_64 * q + r) % TWO_64 == r
  {}

  /** The counter is the true bit count modulo 2^64 exactly when the 32-bit casts lose nothing modulo 2^61. */
  lemma {:induction false} CounterExact(count0: Count, count1: Count, len: nat)
    ensures Count64(AddBits(count0, count1, len)) == (Count64((count0, count1)) + 8 * len) % TWO_64
       <==> len / TWO_32 % 0x2000_0000 == 0
  {
    AddBitsMeaning(count0, count1, len);
    var base, lost := Count64((count0, count1)) + 8 * Wrap(len), len / TWO_32;
    assert len == Wrap(len) + TWO_32 * lost;
    var q, r := lost / 0x2000_0000, lost % 0x2000_0000;
    assert 8 * len == 8 * Wrap(len) + TWO_64 * q + (8 * TWO_32) * r;
    AddedMultiple(base, q, (8 * TWO_32) * r);
  }

  lemma {:induction false} AddedMultiple(base: nat, q: int, d: int)
    requires 0 <= d < TWO_64
    ensures (base + (TWO_64 * q + d)) % TWO_64 == base % TWO_64 <==> d == 0
  {
    var a, b := base / TWO_64, base % TWO_64;
    assert base == TWO_64 * a + b;
    if b + d < TWO_64 {
      assert base + (TWO_64 * q + d) == TWO_64 * (a + q) + (b + d);
      ModUnique(a + q, b + d);
    } else {
      assert base + (TWO_64 * q + d) == TWO_64 * (a + q + 1) + (b + d - TWO_64);
      ModUnique(a + q + 1, b + d - TWO_64);
    }
  }

  // ------------------------------------------------------------- the stream

  /** Whether the 32-bit loop index of update stays below its type's bound: the test after the last block. */
  predicate IndexFits(idx: nat, len: nat)
    requires idx < 64
  {
    len < 64 - idx || len - (len - (64 - idx)) % 64 + 63 < TWO_32
  }

  /** Every length up to 2^32 - 64 fits, whatever is buffered. */
  lemma {:induction false} ShortFits(idx: nat, len: nat)
    requires idx < 64 && len <= TWO_32 - 64
    ensures IndexFits(idx, len)
  {}

  /** Otherwise the loop does not stop after the last whole block, because the sum in its test wraps. */
  lemma {:induction false} IndexWraps(idx: nat, len: nat)
    requires idx < 64 && len < TWO_32
    ensures var last := len - (len - (64 - idx)) % 64;
            !IndexFits(idx, len) <==> len >= 64 - idx && (last + 63) % TWO_32 < len
  {}

  class MD5 {
    const state: array<Word>   // m_ctx.state
    var count0: Count          // m_ctx.count[0]
    var count1: Count          // m_ctx.count[1]
    const buffer: array<Octet>  // m_ctx.buffer
    ghost var message: seq<Octet>

    /** The state is the fold of the whole blocks so far, the buffer starts with the rest. */
    ghost predicate Valid()
      reads this, state, buffer
    {
      && state.Length == 4 && buffer.Length == 64
      && Count64((count0, count1)) == 8 * |message| % TWO_64
      && state[..] == Fold(INITIAL, message[..Whole(|message|)])
      && buffer[..|message| % 64] == message[Whole(|message|)..]
    }

    /** MD5::init. */
    constructor ()
      ensures Valid() && message == [] && fresh(state) && fresh(buffer)
    {
      state := new Word[4](i requires 0 <= i < 4 => INITIAL[i]);
      buffer := new Octet[64](i => 0);
      count0, count1 := 0, 0;
      message := [];
      new;
      assert state[..] == INITIAL;
    }

    /** MD5::transform: the 64 operations on the registers, added to the state. */
    method Transform(block: Block)
      requires state.Length == 4
      modifies state
      ensures state[..] == Compress(old(state[..]), block)
    {
      hide Operate, Decode, Rounds, Sums;
      var words := new Word[16];
      DecodeBytes(words, block);
      var x := words[..];
      ghost var start := state[..];
      var r := Registers(state[0], state[1], state[2], state[3]);
      NoRounds(Loaded(start), x);
      for i := 0 to 64
        invariant r == Rounds(Loaded(start), x, i)
        invariant state[..] == start
      {
        OneRound(Loaded(start), x, i);
        r := Operate(r, x, i);
      }
      AddRegisters(r);
    }

    method AddRegisters(r: Registers)
      requires state.Length == 4
      modifies state
      ensures state[..] == Sums(old(state[..]), r)
    {
      hide Sums;
      var sums := Sums(state[..], r);
      forall k | 0 <= k < 4 { state[k] := sums[k]; }
    }

    /** MD5::update. */
    method Update(input: seq<Octet>)
      requires Valid() && |input| < TWO_32 && IndexFits(|message| % 64, |input|)
      modifies this, state, buffer
      ensures Valid() && message == old(message) + input
    {
      hide Fold, Compress, Count64, IndexFits;
      ghost var m := message;
      BufferedBytes(count0, count1, |m|);
      var idx := count0 / 8 % 64;
      CountBytes(|input|, |m|);
      var i := 0;
      if |input| >= 64 - idx {
        i := Blocks(idx, input, m);
        idx := 0;
        RestOf(m, input, i);
      } else {
        RestOfShort(m, input);
      }
      Fill(idx, input[i..]);
      message := m + input;
    }

    /** MD5::finalization: pads, appends the length as it was before, and clears the context. */
    method Finalization() returns (digest: seq<Octet>)
      requires Valid()
      modifies this, state, buffer
      ensures digest == Digest(old(message))
    {
      hide Fold, Encode, Padded, Count64, Whole;
      ghost var m := message;
      Pad();
      WholePadded(m);
      assert message[..|message|] == message;
      var result := new Octet[16];
      EncodeWords(result, state[..]);
      digest := result[..];
      Clear();
    }

    /** The two updates of finalization. */
    method Pad()
      requires Valid()
      modifies this, state, buffer
      ensures Valid() && message == Padded(old(message))
    {
      hide Fold, Encode;
      ghost var m := message;
      var bits := LengthField(8 * |m| % TWO_64);
      BufferedBytes(count0, count1, |m|);
      var idx := count0 / 8 % 64;
      var padLen := if idx < 56 then 56 - idx else 120 - idx;
      ShortFits(|m| % 64, padLen);
      Update(Padding(padLen));
      ShortFits(|message| % 64, 8);
      Update(bits);
    }

    /** The memset of the context. */
    method Clear()
      modifies this`count0, this`count1, state, buffer
    {
      forall k | 0 <= k < state.Length { state[k] := 0; }
      forall k | 0 <= k < buffer.Length { buffer[k] := 0; }
      count0, count1 := 0, 0;
    }

    /** The counter as eight bytes. */
    method LengthField(ghost total: int) returns (bits: seq<Octet>)
      requires 0 <= total < TWO_64 && Count64((count0, count1)) == total
      ensures bits == LengthBytes(total)
    {
      hide Encode;
      var output := new Octet[8];
      EncodeWords(output, [count0 as Word, count1 as Word]);
      bits := output[..];
      SplitCount(count0, count1);
    }

    /** The counting part of update: `m` bytes were counted before. */
    method CountBytes(len: nat, ghost m: nat)
      requires len < TWO_32 && Count64((count0, count1)) == 8 * m % TWO_64
      modifies this`count0, this`count1
      ensures Count64((count0, count1)) == 8 * (m + len) % TWO_64
    {
      hide Count64, Wrap;
      var low := Wrap(Wrap(len) as int * 8);
      count0 := Wrap(count0 as int + low);
      if count0 < low { count1 := Wrap(count1 as int + 1); }
      count1 := Wrap(count1 as int + Wrap(len) / 0x2000_0000);
      CountAdvanced(old(count0), old(count1), count0, count1, m, len);
    }

    /** The block part of update: completes the buffered block, then takes blocks from the input. */
    method Blocks(idx: nat, input: seq<Octet>, ghost m: seq<Octet>) returns (i: nat)
      requires state.Length == 4 && buffer.Length == 64
      requires idx == |m| % 64 && 64 - idx <= |input| < TWO_32 && IndexFits(idx, |input|)
      requires state[..] == Fold(INITIAL, m[..Whole(|m|)]) && buffer[..idx] == m[Whole(|m|)..]
      modifies state, buffer
      ensures i <= |input| && |input| - i < 64 && (|m| + i) % 64 == 0
      ensures state[..] == Fold(INITIAL, (m + input)[..|m| + i])
    {
      hide Fold, Compress, Whole;
      var partLen := 64 - idx;
      CompleteBlock(idx, input, m);
      i := partLen;
      while (i + 63) % TWO_32 < |input|
        invariant partLen <= i <= |input| && (i - partLen) % 64 == 0 && i + 63 < TWO_32
        invariant (|m| + i) % 64 == 0
        invariant state[..] == Fold(INITIAL, (m + input)[..|m| + i])
        decreases |input| - i
      {
        NextBlock(m, input, i);
        FoldBlock(INITIAL, (m + input)[..|m| + i], input[i..i + 64]);
        Transform(input[i..i + 64]);
        i := i + 64;
        StillFits(idx, |input|, i);
      }
    }

    /** The buffered bytes and the first of the input, compressed. */
    method CompleteBlock(idx: nat, input: seq<Octet>, ghost m: seq<Octet>)
      requires state.Length == 4 && buffer.Length == 64
      requires idx == |m| % 64 && 64 - idx <= |input|
      requires state[..] == Fold(INITIAL, m[..Whole(|m|)]) && buffer[..idx] == m[Whole(|m|)..]
      modifies state, buffer
      ensures (|m| + (64 - idx)) % 64 == 0
      ensures state[..] == Fold(INITIAL, (m + input)[..|m| + (64 - idx)])
    {
      hide Fold, Compress;
      var partLen := 64 - idx;
      Fill(idx, input[..partLen]);
      FirstBlock(m, input, partLen);
      assert buffer[..] == m[Whole(|m|)..] + input[..partLen];
      FoldBlock(INITIAL, m[..Whole(|m|)], buffer[..]);
      Transform(buffer[..]);
    }

    /** memcpy into the buffer at `at`. */
    method Fill(at: nat, data: seq<Octet>)
      requires buffer.Length == 64 && at + |data| <= 64
      modifies buffer
      ensures buffer[..at] == old(buffer[..at]) && buffer[at..at + |data|] == data
    {
      forall k | 0 <= k < |data| { buffer[at + k] := data[k]; }
    }
  }

  lemma {:induction false} WholePadded(m: seq<Octet>)
    ensures Whole(|Padded(m)|) == |Padded(m)|
  {}

  lemma {:induction false} NoRounds(r: Registers, x: seq<Word>)
    requires |x| == 16
    ensures Rounds(r, x, 0) == r
  {}

  lemma {:induction false} OneRound(r: Registers, x: seq<Word>, i: nat)
    requires |x| == 16 && i < 64
    ensures Rounds(r, x, i + 1) == Operate(Rounds(r, x, i), x, i)
  {}

  /** The bytes of a message in whole blocks. */
  function Whole(n: nat): (w: nat)
    ensures w <= n && w % 64 == 0 && n - w == n % 64
  {
    n - n % 64
  }

  lemma {:induction false} SplitCount(count0: Count, count1: Count)
    ensures 0 <= Count64((count0, count1)) < TWO_64
    ensures Count64((count0, count1)) % TWO_32 == count0 && Count64((count0, count1)) / TWO_32 == count1
  {}

  lemma {:induction false} BufferedBytes(count0: Count, count1: Count, n: nat)
    requires Count64((count0, count1)) == 8 * n % TWO_64
    ensures count0 / 8 % 64 == n % 64
  {
    var q, a := 8 * n / TWO_64, count0 / 8;
    assert 8 * n == TWO_64 * q + count0 + TWO_32 * count1;
    assert count0 == 8 * a;
    assert n == 64 * (0x80_0000_0000_0000 * q + 0x80_0000 * count1) + a;
    Modulo64(0x80_0000_0000_0000 * q + 0x80_0000 * count1, a);
  }

  lemma {:induction false} Modulo64(q: int, a: nat)
    ensures (64 * q + a) % 64 == a % 64
  {}

  lemma {:induction false} WrapTwice(a: int, b: int)
    ensures Wrap(Wrap(a) as int + b) == Wrap(a + b)
  {}

  lemma {:induction false} CountAdvanced(c0: Count, c1: Count, d0: Count, d1: Count, n: nat, len: nat)
    requires Count64((c0, c1)) == 8 * n % TWO_64 && len < TWO_32
    requires d0 == Wrap(c0 as int + Wrap(Wrap(len) as int * 8))
    requires d1 == Wrap((if d0 < Wrap(Wrap(len) as int * 8) then Wrap(c1 as int + 1) else c1) as int + Wrap(len) / 0x2000_0000)
    ensures Count64((d0, d1)) == 8 * (n + len) % TWO_64
  {
    hide Count64, AddBits;
    CounterWords(c0, c1, d0, d1, len);
    AddBitsMeaning(c0, c1, len);
    assert Wrap(len) == len;
    hide Wrap;
    SumModulo(Count64((c0, c1)), 8 * n, 8 * len);
  }

  /** The statements of update compute the pair of AddBits. */
  lemma {:induction false} CounterWords(c0: Count, c1: Count, d0: Count, d1: Count, len: nat)
    requires d0 == Wrap(c0 as int + Wrap(Wrap(len) as int * 8))
    requires d1 == Wrap((if d0 < Wrap(Wrap(len) as int * 8) then Wrap(c1 as int + 1) else c1) as int + Wrap(len) / 0x2000_0000)
    ensures (d0, d1) == AddBits(c0, c1, len)
  {
    hide Wrap;
    WrapTwice(c1 as int + 1, Wrap(len) / 0x2000_0000);
  }

  lemma {:induction false} SumModulo(c: int, a: nat, b: nat)
    requires c == a % TWO_64
    ensures (c + b) % TWO_64 == (a + b) % TWO_64
  {
    var q := a / TWO_64;
    assert a + b == c + b + (TWO_64 * q + 0);
    AddedMultiple(c + b, q, 0);
  }

  lemma {:induction false} StillFits(idx: nat, len: nat, i: nat)
    requires idx < 64 && 64 - idx <= i <= len < TWO_32 && IndexFits(idx, len) && (i - (64 - idx)) % 64 == 0
    ensures i + 63 < TWO_32
  {
    var d, n := i - (64 - idx), len - (64 - idx);
    assert d <= n - n % 64;
  }

  lemma {:induction false} WholeOf(n: nat, i: nat, k: nat)
    requires n + k >= i && (n + k - i) % 64 == 0 && i < 64
    ensures Whole(n + k) == n + k - i && (n + k) % 64 == i
  {}

  /** What is left in the buffer after the blocks are taken. */
  lemma {:induction false} RestOf(m: seq<Octet>, input: seq<Octet>, i: nat)
    requires i <= |input| && (|m| + i) % 64 == 0 && |input| - i < 64
    ensures Whole(|m + input|) == |m| + i && (m + input)[Whole(|m + input|)..] == input[i..]
            && |m + input| % 64 == |input| - i
  {
    WholeOf(|m|, |input| - i, |input|);
    hide Whole;
  }

  /** And when there was no whole block. */
  lemma {:induction false} RestOfShort(m: seq<Octet>, input: seq<Octet>)
    requires |m| % 64 + |input| < 64
    ensures Whole(|m + input|) == Whole(|m|) && (m + input)[..Whole(|m|)] == m[..Whole(|m|)]
            && (m + input)[Whole(|m + input|)..] == m[Whole(|m|)..] + input
            && |m + input| % 64 == |m| % 64 + |input|
  {
    assert |m| == Whole(|m|) + |m| % 64;
    WholeOf(|m|, |m| % 64 + |input|, |input|);
    hide Whole;
  }

  /** The buffered tail and the first bytes of the input make the next block. */
  lemma {:induction false} FirstBlock(m: seq<Octet>, input: seq<Octet>, part: nat)
    requires part == 64 - |m| % 64 && part <= |input|
    ensures m[..Whole(|m|)] + (m[Whole(|m|)..] + input[..part]) == (m + input)[..|m| + part]
  {}

  lemma {:induction false} NextBlock(m: seq<Octet>, input: seq<Octet>, i: nat)
    requires i + 64 <= |input|
    ensures (m + input)[..|m| + i] + input[i..i + 64] == (m + input)[..|m| + i + 64]
  {}

  function Concat(pieces: seq<seq<Octet>>): (m: seq<Octet>) {
    if pieces == [] then [] else pieces[0] + Concat(pieces[1..])
  }

  lemma {:induction false} ConcatSnoc(pieces: seq<seq<Octet>>, i: nat)
    requires i < |pieces|
    ensures Concat(pieces[..i + 1]) == Concat(pieces[..i]) + pieces[i]
  {
    if i == 0 {
      var first := pieces[..1];
      assert first[0] == pieces[0] && first[1..] == pieces[..0];
    } else {
      ConcatSnoc(pieces[1..], i - 1);
      assert pieces[..i + 1][1..] == pieces[1..][..i] && pieces[..i][1..] == pieces[1..][..i - 1];
      assert pieces[0] + (Concat(pieces[1..][..i - 1]) + pieces[i]) == pieces[0] + Concat(pieces[1..][..i - 1]) + pieces[i];
    }
  }

  /** init, any sequence of updates, finalization: the digest of the concatenated pieces. */
  method Hash(pieces: seq<seq<Octet>>) returns (digest: seq<Octet>)
    requires forall k :: 0 <= k < |pieces| ==> |pieces[k]| <= TWO_32 - 64
    ensures digest == Digest(Concat(pieces))
  {
    hide Concat, Digest, Fold, Count64, Whole;
    var md5 := new MD5();
    var i := 0;
    EmptyConcat();
    assert pieces[..0] == [];
    while i < |pieces|
      invariant 0 <= i <= |pieces|
      invariant md5.Valid() && fresh(md5) && fresh(md5.state) && fresh(md5.buffer)
      invariant md5.message == Concat(pieces[..i])
    {
      ShortFits(|md5.message| % 64, |pieces[i]|);
      ConcatSnoc(pieces, i);
      md5.Update(pieces[i]);
      i := i + 1;
    }
    assert pieces[..i] == pieces;
    digest := md5.Finalization();
  }

  lemma {:induction false} EmptyConcat()
    ensures Concat([]) == []
  {}
}

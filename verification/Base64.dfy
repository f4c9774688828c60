/**
 * Base64::encode, decodeLen and decodeBinary (section 4 of RFC 4648).
 *
 * Shifted operands never overlap, so a shift to the left is a product, a shift to the
 * right a quotient, and | a sum.
 */
module Base64 {
  import opened Common

  const ALPHABET := "ABCDEFGHIJKLMNOPQRSTUVWXYZabcdefghijklmnopqrstuvwxyz0123456789+/="

  /** pr2six: the value of a character, 64 for all that are not in the alphabet. */
  function Six(c: char): (v: nat)
    ensures v <= 64
  {
    if 'A' <= c <= 'Z' then c as int - 'A' as int
    else if 'a' <= c <= 'z' then c as int - 'a' as int + 26
    else if '0' <= c <= '9' then c as int - '0' as int + 52
    else if c == '+' then 62
    else if c == '/' then 63
    else 64
  }

  type sextet = v: int | 0 <= v < 64

  function Letter(v: sextet): (c: char)
    ensures Six(c) == v
  {
    if v < 26 then ('A' as int + v) as char
    else if v < 52 then ('a' as int + v - 26) as char
    else if v < 62 then ('0' as int + v - 52) as char
    else if v == 62 then '+'
    else '/'
  }

  lemma {:induction false} AlphabetLetters(v: sextet)
    ensures |ALPHABET| == 65 && ALPHABET[v] == Letter(v)
  {
    if v < 26 {
      Upper(v);
    } else if v < 52 {
      LowerLetters(v);
    }
  }

  lemma {:induction false} Upper(v: sextet)
    requires v < 26
    ensures ALPHABET[v] as int == 'A' as int + v
  {
    var letters := "ABCDEFGHIJKLMNOPQRSTUVWXYZ";
    assert ALPHABET[v] == letters[v];
  }

  lemma {:induction false} LowerLetters(v: sextet)
    requires 26 <= v < 52
    ensures ALPHABET[v] as int == 'a' as int + v - 26
  {}

  // ------------------------------------------------------------------ encoding

  function First(a: byte): (v: sextet) { a / 4 }
  function Second(a: byte, b: byte): (v: sextet) { a % 4 * 16 + b / 16 }
  function Third(b: byte, c: byte): (v: sextet) { b % 16 * 4 + c / 64 }
  function Fourth(c: byte): (v: sextet) { c % 64 }

  function Quad(a: byte, b: byte, c: byte): (s: string)
    ensures |s| == 4
  {
    [Letter(First(a)), Letter(Second(a, b)), Letter(Third(b, c)), Letter(Fourth(c))]
  }

  function Encode(m: seq<byte>): (s: string)
    decreases |m|
  {
    if m == [] then ""
    else if |m| == 1 then [Letter(First(m[0])), Letter(Second(m[0], 0)), '=', '=']
    else if |m| == 2 then [Letter(First(m[0])), Letter(Second(m[0], m[1])), Letter(Third(m[1], 0)), '=']
    else Quad(m[0], m[1], m[2]) + Encode(m[3..])
  }

  /** The length computed for the buffer. */
  function OutLen(n: nat): (k: nat) {
    n * 4 / 3 + if n % 3 > 0 then 4 - n % 3 else 0
  }

  /** Four characters for every three bytes begun, and that is what the buffer has room for. */
  lemma {:induction false} EncodedLength(m: seq<byte>)
    ensures |Encode(m)| == OutLen(|m|) == (|m| + 2) / 3 * 4
    decreases |m|
  {
    hide Letter, First, Second, Third, Fourth, OutLen;
    OutLenIs(|m|);
    if |m| >= 3 {
      EncodedLength(m[3..]);
      OutLenIs(|m| - 3);
      ThreeMore(|m| - 3);
    }
  }

  lemma {:induction false} ThreeMore(n: nat)
    ensures (n + 5) / 3 * 4 == (n + 2) / 3 * 4 + 4
  {
    assert n + 5 == (n + 2) + 3;
  }

  lemma {:induction false} OutLenIs(n: nat)
    ensures OutLen(n) == (n + 2) / 3 * 4
  {
    var q, r := n / 3, n % 3;
    assert n == 3 * q + r && n * 4 == 3 * (4 * q) + 4 * r;
    assert n * 4 / 3 == 4 * q + 4 * r / 3;
  }

  // ------------------------------------------------------------------ decoding

  function High(a: sextet, b: sextet): (v: byte) { (a as int) * 4 + b / 16 }
  function Middle(b: sextet, c: sextet): (v: byte) { (b as int) % 16 * 16 + c / 4 }
  function Low(c: sextet, d: sextet): (v: byte) { (c as int) % 4 * 64 + d }

  /** The bytes of some sextets; a single one left over gives none. */
  function Bytes(d: seq<sextet>): (m: seq<byte>)
    decreases |d|
  {
    if |d| < 2 then []
    else if |d| == 2 then [High(d[0], d[1])]
    else if |d| == 3 then [High(d[0], d[1]), Middle(d[1], d[2])]
    else [High(d[0], d[1]), Middle(d[1], d[2]), Low(d[2], d[3])] + Bytes(d[4..])
  }

  /** Length of the longest beginning in the alphabet. */
  function Prefix(s: string): (n: nat)
    ensures n <= |s| && (forall i :: 0 <= i < n ==> Six(s[i]) < 64) && (n < |s| ==> Six(s[n]) == 64)
  {
    if s == "" || Six(s[0]) == 64 then 0 else 1 + Prefix(s[1..])
  }

  function Sixes(s: string, n: nat): (d: seq<sextet>)
    requires n <= |s| && forall i :: 0 <= i < n ==> Six(s[i]) < 64
    ensures |d| == n
  {
    seq(n, i requires 0 <= i < n => Six(s[i]))
  }

  function Decode(s: string): (m: seq<byte>) {
    Bytes(Sixes(s, Prefix(s)))
  }

  /** What decodeBinary returns for n characters, of which r are left to the end of the loop. */
  lemma {:induction false} BytesLength(d: seq<sextet>)
    ensures |Bytes(d)| == |d| * 3 / 4 <= (|d| + 3) / 4 * 3
    decreases |d|
  {
    if |d| >= 4 {
      BytesLength(d[4..]);
      ThreeQuarters(|d| - 4);
    }
  }

  lemma {:induction false} ThreeQuarters(n: nat)
    ensures (n + 4) * 3 / 4 == n * 3 / 4 + 3 && (n + 7) / 4 * 3 == (n + 3) / 4 * 3 + 3
  {
    assert (n + 4) * 3 == n * 3 + 4 * 3;
    assert n + 7 == (n + 3) + 4;
  }

  // ---------------------------------------------------------------- round trips

  function Letters(d: seq<sextet>): (s: string)
    ensures |s| == |d| && forall i :: 0 <= i < |d| ==> Six(s[i]) == d[i]
  {
    seq(|d|, i requires 0 <= i < |d| => Letter(d[i]))
  }

  /** The sextets of some bytes. */
  function Split(m: seq<byte>): (d: seq<sextet>)
    decreases |m|
  {
    if m == [] then []
    else if |m| == 1 then [First(m[0]), Second(m[0], 0)]
    else if |m| == 2 then [First(m[0]), Second(m[0], m[1]), Third(m[1], 0)]
    else [First(m[0]), Second(m[0], m[1]), Third(m[1], m[2]), Fourth(m[2])] + Split(m[3..])
  }

  function Padding(n: nat): (s: string) {
    if n % 3 == 1 then "==" else if n % 3 == 2 then "=" else ""
  }

  lemma {:induction false} EncodeIsLetters(m: seq<byte>)
    ensures Encode(m) == Letters(Split(m)) + Padding(|m|)
    decreases |m|
  {
    hide Letter, First, Second, Third, Fourth, Six;
    if |m| >= 3 {
      EncodeIsLetters(m[3..]);
      var d := [First(m[0]), Second(m[0], m[1]), Third(m[1], m[2]), Fourth(m[2])];
      assert Letters(d + Split(m[3..])) == Letters(d) + Letters(Split(m[3..]));
      assert Letters(d) == Quad(m[0], m[1], m[2]);
      assert Padding(|m|) == Padding(|m| - 3);
    }
  }

  lemma {:induction false} PrefixStops(s: string, n: nat)
    requires n <= |s| && (forall i :: 0 <= i < n ==> Six(s[i]) < 64) && (n < |s| ==> Six(s[n]) == 64)
    ensures Prefix(s) == n
    decreases n
  {
    hide Six;
    if n > 0 {
      assert Six(s[0]) < 64;
      forall i | 0 <= i < n - 1 ensures Six(s[1..][i]) < 64 { assert s[1..][i] == s[i + 1]; }
      PrefixStops(s[1..], n - 1);
    }
  }

  lemma {:induction false} QuadRoundTrip(a: byte, b: byte, c: byte)
    ensures High(First(a), Second(a, b)) == a
    ensures Middle(Second(a, b), Third(b, c)) == b
    ensures Low(Third(b, c), Fourth(c)) == c
  {}

  lemma {:induction false} BytesOfSplit(m: seq<byte>)
    ensures Bytes(Split(m)) == m
    decreases |m|
  {
    hide High, Middle, Low, First, Second, Third, Fourth;
    if m == [] {
    } else if |m| == 1 {
      QuadRoundTrip(m[0], 0, 0);
    } else if |m| == 2 {
      QuadRoundTrip(m[0], m[1], 0);
    } else {
      QuadRoundTrip(m[0], m[1], m[2]);
      BytesOfSplit(m[3..]);
      assert Split(m)[4..] == Split(m[3..]);
      assert m == [m[0], m[1], m[2]] + m[3..];
    }
  }

  /** Decoding an encoding gives back every byte sequence. */
  lemma {:induction false} DecodeEncode(m: seq<byte>)
    ensures Decode(Encode(m)) == m
  {
    hide Letter, Split, Bytes, Encode;
    var d := Split(m);
    var s := Letters(d) + Padding(|m|);
    EncodeIsLetters(m);
    assert forall i :: 0 <= i < |d| ==> s[i] == Letters(d)[i];
    PrefixStops(s, |d|);
    assert Sixes(s, |d|) == d;
    BytesOfSplit(m);
  }

  lemma {:induction false} SextetRoundTrip(a: sextet, b: sextet, c: sextet, d: sextet)
    ensures First(High(a, b)) == a
    ensures Second(High(a, b), Middle(b, c)) == b
    ensures Third(Middle(b, c), Low(c, d)) == c
    ensures Fourth(Low(c, d)) == d
  {}

  lemma {:induction false} SplitOfBytes(d: seq<sextet>)
    requires |d| % 4 == 0
    ensures Split(Bytes(d)) == d && |Bytes(d)| % 3 == 0
    decreases |d|
  {
    hide High, Middle, Low, First, Second, Third, Fourth;
    if |d| >= 4 {
      SextetRoundTrip(d[0], d[1], d[2], d[3]);
      SplitOfBytes(d[4..]);
      assert Bytes(d)[3..] == Bytes(d[4..]);
      assert d == [d[0], d[1], d[2], d[3]] + d[4..];
    }
  }

  /** Encoding a decoded text of full quads gives back the text: no two texts of that kind mean the same. */
  lemma {:induction false} EncodeDecode(s: string)
    requires |s| % 4 == 0 && forall i :: 0 <= i < |s| ==> Six(s[i]) < 64
    ensures Encode(Decode(s)) == s
  {
    hide Split, Bytes, Encode;
    PrefixStops(s, |s|);
    var d := Sixes(s, |s|);
    SplitOfBytes(d);
    EncodeIsLetters(Bytes(d));
    forall i | 0 <= i < |s| ensures Letters(d)[i] == s[i] {
      LetterOfSix(s[i]);
    }
  }

  lemma {:induction false} LetterOfSix(c: char)
    requires Six(c) < 64
    ensures Letter(Six(c)) == c
  {}

  // -------------------------------------------------------------------- methods

  /** Base64::encode; `buffer` has room for the text and its NUL. */
  method EncodeText(text: seq<byte>) returns (ret: string)
    ensures ret == Encode(text)
  {
    hide Encode, OutLen, Quad;
    var inlen := |text|;
    var outlen := inlen * 4 / 3;
    if inlen % 3 > 0 { outlen := outlen + 4 - inlen % 3; }
    OutLenMeans(inlen);
    EncodedLength(text);
    var buffer := new char[outlen + 1];
    var point, at := 0, 0;
    assert text[0..] == text;
    while inlen >= 3
      invariant 0 <= inlen && at + inlen == |text|
      invariant point + |Encode(text[at..])| == outlen
      invariant buffer[..point] + Encode(text[at..]) == Encode(text)
      decreases inlen
    {
      EncodeTurn(text, at);
      Regroup(buffer[..point], Quad(text[at], text[at + 1], text[at + 2]), Encode(text[at + 3..]));
      PutQuad(buffer, point, text[at], text[at + 1], text[at + 2]);
      point, inlen, at := point + 4, inlen - 3, at + 3;
    }
    if inlen > 0 {
      point := PutLast(buffer, point, text[at..]);
    } else {
      EncodeNothing(text[at..]);
    }
    buffer[point] := '\0';
    ret := buffer[..point];
  }

  lemma {:induction false} EncodeNothing(m: seq<byte>)
    requires m == []
    ensures Encode(m) == "" && forall s: string :: s + Encode(m) == s
  {}

  lemma {:induction false} Regroup<T>(a: seq<T>, b: seq<T>, c: seq<T>)
    ensures a + (b + c) == a + b + c
  {}

  /** The trailing one or two bytes. */
  method PutLast(buffer: array<char>, point: nat, t: seq<byte>) returns (end: nat)
    requires 1 <= |t| <= 2 && point + |Encode(t)| < buffer.Length
    modifies buffer
    ensures end == point + |Encode(t)| && buffer[..end] == old(buffer[..point]) + Encode(t)
  {
    hide Letter, ALPHABET, Encode;
    EncodeShort(t);
    var last := if |t| == 2 then t[1] else 0;
    AlphabetLetters(First(t[0]));
    AlphabetLetters(Second(t[0], last));
    AlphabetLetters(Third(last, 0));
    buffer[point] := ALPHABET[t[0] / 4];
    buffer[point + 1] := ALPHABET[t[0] % 4 * 16 + if |t| == 2 then t[1] / 16 else 0];
    buffer[point + 2] := if |t| == 1 then '=' else ALPHABET[t[1] % 16 * 4];
    buffer[point + 3] := '=';
    end := point + 4;
  }

  lemma {:induction false} EncodeShort(t: seq<byte>)
    requires 1 <= |t| <= 2
    ensures var last := if |t| == 2 then t[1] else 0;
      Encode(t) == [Letter(First(t[0])), Letter(Second(t[0], last)), if |t| == 1 then '=' else Letter(Third(last, 0)), '=']
  {}

  lemma {:induction false} OutLenMeans(n: nat)
    ensures OutLen(n) == n * 4 / 3 + if n % 3 > 0 then 4 - n % 3 else 0
  {}

  lemma {:induction false} EncodeTurn(text: seq<byte>, at: nat)
    requires at + 3 <= |text|
    ensures Encode(text[at..]) == Quad(text[at], text[at + 1], text[at + 2]) + Encode(text[at + 3..])
  {
    assert text[at..][3..] == text[at + 3..];
  }

  method PutQuad(buffer: array<char>, point: nat, a: byte, b: byte, c: byte)
    requires point + 4 <= buffer.Length
    modifies buffer
    ensures buffer[..point + 4] == old(buffer[..point]) + Quad(a, b, c)
  {
    AlphabetLetters(First(a));
    AlphabetLetters(Second(a, b));
    AlphabetLetters(Third(b, c));
    AlphabetLetters(Fourth(c));
    hide ALPHABET, Letter;
    buffer[point] := ALPHABET[a / 4];
    buffer[point + 1] := ALPHABET[a % 4 * 16 + b / 16];
    buffer[point + 2] := ALPHABET[b % 16 * 4 + c / 64];
    buffer[point + 3] := ALPHABET[c % 64];
  }

  /** The scan for the first character outside the alphabet; the text ends with a NUL, which is outside. */
  method CountPrefix(text: string) returns (nprbytes: nat)
    ensures nprbytes == Prefix(text)
  {
    hide Six;
    var z := text + "\0";
    NulIsOutside();
    var bufin := 0;
    while Six(z[bufin]) <= 63
      invariant bufin <= |text| && forall i :: 0 <= i < bufin ==> Six(text[i]) < 64
      decreases |text| - bufin
    {
      bufin := bufin + 1;
    }
    PrefixStops(text, bufin);
    nprbytes := bufin;
  }

  lemma {:induction false} NulIsOutside()
    ensures Six('\0') == 64
  {}

  /** Base64::decodeLen: more than any decoding of the text needs. */
  method DecodeLen(text: string) returns (n: nat)
    ensures n == (Prefix(text) + 3) / 4 * 3 + 1 > |Decode(text)|
  {
    var nprbytes := CountPrefix(text);
    BytesLength(Sixes(text, nprbytes));
    n := (nprbytes + 3) / 4 * 3 + 1;
  }

  /** A full group of the loop of decodeBinary. */
  method PutBytes(bufplain: array<byte>, bufout: nat, a: sextet, b: sextet, c: sextet, d: sextet)
    requires bufout + 3 <= bufplain.Length
    modifies bufplain
    ensures bufplain[..bufout + 3] == old(bufplain[..bufout]) + [High(a, b), Middle(b, c), Low(c, d)]
    ensures bufplain[bufout + 3..] == old(bufplain[bufout + 3..])
  {
    hide High, Middle, Low;
    bufplain[bufout] := High(a, b);
    bufplain[bufout + 1] := Middle(b, c);
    bufplain[bufout + 2] := Low(c, d);
  }

  /** The last one to four sextets of decodeBinary. */
  method PutTail(bufplain: array<byte>, bufout: nat, d: seq<sextet>) returns (end: nat)
    requires |d| <= 4 && bufout + |Bytes(d)| <= bufplain.Length
    modifies bufplain
    ensures end == bufout + |Bytes(d)| && bufplain[..end] == old(bufplain[..bufout]) + Bytes(d)
    ensures bufplain[end..] == old(bufplain[end..])
  {
    hide High, Middle, Low, Bytes;
    BytesTail(d);
    end := bufout;
    if |d| > 1 {
      bufplain[end] := High(d[0], d[1]);
      end := end + 1;
    }
    if |d| > 2 {
      bufplain[end] := Middle(d[1], d[2]);
      end := end + 1;
    }
    if |d| > 3 {
      bufplain[end] := Low(d[2], d[3]);
      end := end + 1;
    }
  }

  /** Base64::decodeBinary: writes exactly as many bytes as it returns. */
  method DecodeBinary(bufplain: array<byte>, text: string) returns (n: nat)
    requires bufplain.Length >= (Prefix(text) + 3) / 4 * 3 + 1
    modifies bufplain
    ensures n == |Decode(text)| < bufplain.Length && bufplain[..n] == Decode(text)
    ensures bufplain[n..] == old(bufplain[n..])
  {
    hide *;
    var nprbytes := CountPrefix(text);
    PrefixIsSixes(text);
    var nbytesdecoded := (nprbytes + 3) / 4 * 3;
    var d := Sixes(text, nprbytes);
    BytesLength(d);
    ghost var orig := bufplain[..];
    var bufout, bufin := 0, 0;
    assert d[0..] == d;
    while nprbytes > 4
      invariant 0 <= nprbytes && bufin + nprbytes == |d|
      invariant bufout + |Bytes(d[bufin..])| == |Bytes(d)|
      invariant nbytesdecoded == bufout + (nprbytes + 3) / 4 * 3
      invariant bufplain[..bufout] + Bytes(d[bufin..]) == Bytes(d)
      invariant bufplain[bufout..] == orig[bufout..]
      decreases nprbytes
    {
      BytesTurn(d, bufin);
      Regroup(bufplain[..bufout], [High(d[bufin], d[bufin + 1]), Middle(d[bufin + 1], d[bufin + 2]), Low(d[bufin + 2], d[bufin + 3])],
              Bytes(d[bufin + 4..]));
      ghost var was := bufplain[..];
      PutBytes(bufplain, bufout, d[bufin], d[bufin + 1], d[bufin + 2], d[bufin + 3]);
      LaterPart(orig, was, bufplain[..], bufout);
      bufin, bufout, nprbytes := bufin + 4, bufout + 3, nprbytes - 4;
    }
    BytesLength(d[bufin..]);
    TailCount(nprbytes);
    ghost var was := bufplain[..];
    var end := PutTail(bufplain, bufout, d[bufin..]);
    LaterEnd(orig, was, bufplain[..], bufout, end);
    n := nbytesdecoded - (4 - nprbytes) % 4;
  }

  lemma {:induction false} PrefixIsSixes(text: string)
    ensures var n := Prefix(text);
      n <= |text| && (forall i :: 0 <= i < n ==> Six(text[i]) < 64) && Decode(text) == Bytes(Sixes(text, n))
  {}

  lemma {:induction false} TailCount(r: nat)
    requires r <= 4
    ensures (r + 3) / 4 * 3 - (4 - r) % 4 == r * 3 / 4
  {}

  lemma {:induction false} LaterPart(o: seq<byte>, was: seq<byte>, now: seq<byte>, k: nat)
    requires k + 3 <= |o| == |was| == |now| && was[k..] == o[k..] && now[k + 3..] == was[k + 3..]
    ensures now[k + 3..] == o[k + 3..]
  {
    assert was[k..][3..] == was[k + 3..] && o[k..][3..] == o[k + 3..];
  }

  lemma {:induction false} LaterEnd(o: seq<byte>, was: seq<byte>, now: seq<byte>, k: nat, end: nat)
    requires k <= end <= |o| == |was| == |now| && was[k..] == o[k..] && now[end..] == was[end..]
    ensures now[end..] == o[end..]
  {
    assert was[k..][end - k..] == was[end..] && o[k..][end - k..] == o[end..];
  }

  lemma {:induction false} BytesTurn(d: seq<sextet>, at: nat)
    requires at + 4 <= |d|
    ensures Bytes(d[at..]) == [High(d[at], d[at + 1]), Middle(d[at + 1], d[at + 2]), Low(d[at + 2], d[at + 3])] + Bytes(d[at + 4..])
  {
    assert d[at..][4..] == d[at + 4..];
  }

  lemma {:induction false} BytesTail(d: seq<sextet>)
    requires |d| <= 4
    ensures Bytes(d) ==
      if |d| < 2 then []
      else if |d| == 2 then [High(d[0], d[1])]
      else if |d| == 3 then [High(d[0], d[1]), Middle(d[1], d[2])]
      else [High(d[0], d[1]), Middle(d[1], d[2]), Low(d[2], d[3])]
  {
    if |d| == 4 { assert d[4..] == []; }
  }
}

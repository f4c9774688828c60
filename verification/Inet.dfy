/**
 * The IPv4 and IPv6 text codec: the printers inet_ntop4/inet_ntop6 and the
 * parsers inet_pton4/inet_pton6.
 *
 * A text is the sequence of characters before the terminating NUL.
 */
module Inet {
  import opened Common

  // ---------------------------------------------------------------- numerals

  function DigitChar(d: nat): (c: char)
    requires d < 16
  {
    if d < 10 then (d + '0' as int) as char else (d - 10 + 'a' as int) as char
  }

  /** printf "%x" */
  function Hex(n: nat): (s: string)
    ensures |s| > 0
  {
    if n < 16 then [DigitChar(n)] else Hex(n / 16) + [DigitChar(n % 16)]
  }

  /** printf "%u" */
  function Dec(n: nat): (s: string)
    ensures |s| > 0
  {
    if n < 10 then [DigitChar(n)] else Dec(n / 10) + [DigitChar(n % 10)]
  }

  function ToLower(c: char): (r: char)
  {
    if 'A' <= c <= 'Z' then (c as int + 32) as char else c
  }

  predicate IsHexDigit(c: char) {
    '0' <= c <= '9' || 'a' <= c <= 'f'
  }

  /** Position of a character in the parser's digit table. */
  function HexValue(c: char): (v: nat)
    requires IsHexDigit(c)
    ensures v < 16 && DigitChar(v) == c
  {
    if c <= '9' then c as int - '0' as int else c as int - 'a' as int + 10
  }

  lemma {:induction false} DigitCharIsHex(d: nat)
    requires d < 16
    ensures IsHexDigit(DigitChar(d)) && HexValue(DigitChar(d)) == d
    ensures ToLower(DigitChar(d)) == DigitChar(d)
    ensures d < 10 ==> '0' <= DigitChar(d) <= '9' && DigitChar(d) as int - '0' as int == d
  {}

  // ------------------------------------------------------------------- IPv4

  type Bytes4 = b: seq<byte> | |b| == 4 witness [0, 0, 0, 0]

  /** The dotted quad of four octets. */
  function Text4(b: Bytes4): (s: string)
  {
    Dec(b[0]) + "." + Dec(b[1]) + "." + Dec(b[2]) + "." + Dec(b[3])
  }

  method NtoP4(src: Bytes4, size: int) returns (dst: Option<string>)
    ensures dst == if |Text4(src)| < size then Some(Text4(src)) else None
  {
    var tmp := Dec(src[0]) + "." + Dec(src[1]) + "." + Dec(src[2]) + "." + Dec(src[3]);
    if |tmp| >= size { return None; }
    return Some(tmp);
  }

  /**
   * One character of inet_pton4: `done` are the finished octets, `cur` the octet
   * under construction (`*tp`), `saw` the flag saw_digit.  The count `octets` of
   * the source is |done| plus one when a digit was seen.
   */
  function Scan4(rest: string, done: seq<byte>, cur: byte, saw: bool): (r: Option<seq<byte>>)
    requires |done| <= 3
    ensures r.Some? ==> |r.value| == 4
    decreases |rest|
  {
    if rest == "" then
      if |done| == 3 && saw then Some(done + [cur]) else None
    else
      var ch := rest[0];
      if '0' <= ch <= '9' then
        var n := cur * 10 + (ch as int - '0' as int);
        if saw && cur == 0 then None
        else if n > 255 then None
        else Scan4(rest[1..], done, n, true)
      else if ch == '.' && saw then
        if |done| == 3 then None else Scan4(rest[1..], done + [cur], 0, false)
      else None
  }

  function Parse4(s: string): (r: Option<seq<byte>>)
    ensures r.Some? ==> |r.value| == 4
  {
    Scan4(s, [], 0, false)
  }

  /** inet_pton4: a character loop that fills `tmp` through the index `tp`. */
  method PtoN4(src: string) returns (dst: Option<seq<byte>>)
    ensures dst == Parse4(src)
  {
    var tmp := new byte[4];
    var tp, octets, saw := 0, 0, false;
    tmp[0] := 0;
    var i := 0;
    while i < |src|
      invariant 0 <= i <= |src| && 0 <= tp <= 3
      invariant octets == tp + (if saw then 1 else 0)
      invariant !saw ==> tmp[tp] == 0
      invariant Scan4(src[i..], tmp[..tp], tmp[tp], saw) == Parse4(src)
    {
      var ch := src[i];
      assert src[i..][1..] == src[i + 1..];
      if '0' <= ch <= '9' {
        var n := tmp[tp] * 10 + (ch as int - '0' as int);
        if saw && tmp[tp] == 0 { return None; }
        if n > 255 { return None; }
        tmp[tp] := n;
        if !saw {
          octets := octets + 1;
          if octets > 4 { return None; }
          saw := true;
        }
      } else if ch == '.' && saw {
        if octets == 4 { return None; }
        ghost var before := tmp[..tp] + [tmp[tp]];
        tp := tp + 1;
        tmp[tp] := 0;
        assert tmp[..tp] == before;
        saw := false;
      } else {
        return None;
      }
      i := i + 1;
    }
    if octets < 4 { return None; }
    assert tmp[..] == tmp[..tp] + [tmp[tp]];
    return Some(tmp[..]);
  }

  /** Scanning the decimal numeral of an octet, from a position where no digit was seen. */
  lemma {:induction false} ScanDec4(n: byte, rest: string, done: seq<byte>)
    requires |done| <= 3
    ensures Scan4(Dec(n) + rest, done, 0, false) == Scan4(rest, done, n, true)
  {
    DigitCharIsHex(n % 10);
    if n < 10 {
      assert (Dec(n) + rest)[1..] == rest;
    } else {
      var tail := [DigitChar(n % 10)] + rest;
      assert Dec(n) + rest == Dec(n / 10) + tail;
      ScanDec4(n / 10, tail, done);
      assert tail[1..] == rest;
    }
  }

  lemma {:induction false} ScanOctetDot(n: byte, rest: string, done: seq<byte>)
    requires |done| < 3
    ensures Scan4(Dec(n) + "." + rest, done, 0, false) == Scan4(rest, done + [n], 0, false)
  {
    assert Dec(n) + "." + rest == Dec(n) + ("." + rest);
    ScanDec4(n, "." + rest, done);
    assert ("." + rest)[1..] == rest;
  }

  /** Printing then parsing an IPv4 address gives it back. */
  lemma {:induction false} RoundTrip4(b: Bytes4)
    ensures Parse4(Text4(b)) == Some(b)
  {
    var r3 := Dec(b[3]);
    var r2 := Dec(b[2]) + "." + r3;
    var r1 := Dec(b[1]) + "." + r2;
    assert Text4(b) == Dec(b[0]) + "." + r1;
    ScanOctetDot(b[0], r1, []);
    ScanOctetDot(b[1], r2, [] + [b[0]]);
    ScanOctetDot(b[2], r3, [] + [b[0]] + [b[1]]);
    ScanDec4(b[3], "", [] + [b[0]] + [b[1]] + [b[2]]);
    assert r3 + "" == r3;
    assert [] + [b[0]] + [b[1]] + [b[2]] + [b[3]] == b;
  }

  /** What Scan4 has already read, as text. */
  function Seen4(done: seq<byte>, cur: byte, saw: bool): (s: string)
  {
    if done == [] then (if saw then Dec(cur) else "")
    else Dec(done[0]) + "." + Seen4(done[1..], cur, saw)
  }

  lemma {:induction false} SeenDot(done: seq<byte>, cur: byte)
    ensures Seen4(done + [cur], 0, false) == Seen4(done, cur, true) + "."
  {
    if done == [] {
      assert (done + [cur])[1..] == [];
    } else {
      SeenDot(done[1..], cur);
      assert (done + [cur])[1..] == done[1..] + [cur];
      assert Dec(done[0]) + "." + (Seen4(done[1..], cur, true) + ".")
          == Dec(done[0]) + "." + Seen4(done[1..], cur, true) + ".";
    }
  }

  lemma {:induction false} SeenDigit(done: seq<byte>, cur: byte, saw: bool, d: nat)
    requires d < 10 && cur * 10 + d < 256 && (saw ==> cur != 0) && (!saw ==> cur == 0)
    ensures Seen4(done, cur * 10 + d, true) == Seen4(done, cur, saw) + [DigitChar(d)]
  {
    if done == [] {
      assert (cur * 10 + d) / 10 == cur && (cur * 10 + d) % 10 == d;
    } else {
      SeenDigit(done[1..], cur, saw, d);
      assert Dec(done[0]) + "." + (Seen4(done[1..], cur, saw) + [DigitChar(d)])
          == Dec(done[0]) + "." + Seen4(done[1..], cur, saw) + [DigitChar(d)];
    }
  }

  lemma {:induction false} SeenAll(done: seq<byte>, cur: byte)
    requires |done| == 3
    ensures Seen4(done, cur, true) == Text4(done + [cur])
  {
    var d1 := done[1..];
    var d2 := d1[1..];
    assert d2[1..] == [] && d1[0] == done[1] && d2[0] == done[2];
    assert Seen4(d2, cur, true) == Dec(done[2]) + "." + Dec(cur);
    assert Seen4(d1, cur, true) == Dec(done[1]) + "." + Seen4(d2, cur, true);
  }

  lemma {:induction false} DotStep(t: string, rest: string, done: seq<byte>, cur: byte)
    requires rest != "" && rest[0] == '.'
    requires t == Seen4(done + [cur], 0, false) + rest[1..]
    ensures t == Seen4(done, cur, true) + rest
  {
    SeenDot(done, cur);
    assert rest == "." + rest[1..];
  }

  lemma {:induction false} DigitStep(t: string, rest: string, done: seq<byte>, cur: byte, saw: bool, d: nat)
    requires d < 10 && cur * 10 + d < 256 && (saw ==> cur != 0) && (!saw ==> cur == 0)
    requires rest != "" && rest[0] == DigitChar(d)
    requires t == Seen4(done, cur * 10 + d, true) + rest[1..]
    ensures t == Seen4(done, cur, saw) + rest
  {
    SeenDigit(done, cur, saw, d);
    assert rest == [DigitChar(d)] + rest[1..];
  }

  lemma {:induction false} ScanSound4(rest: string, done: seq<byte>, cur: byte, saw: bool, b: Bytes4, t: string)
    requires |done| <= 3 && (!saw ==> cur == 0)
    requires Scan4(rest, done, cur, saw) == Some(b) && t == Text4(b)
    ensures t == Seen4(done, cur, saw) + rest
    decreases |rest|
  {
    if rest == "" {
      SeenAll(done, cur);
    } else if rest[0] == '.' {
      ScanSound4(rest[1..], done + [cur], 0, false, b, t);
      DotStep(t, rest, done, cur);
    } else {
      var d := rest[0] as int - '0' as int;
      DigitCharIsHex(d);
      ScanSound4(rest[1..], done, cur * 10 + d, true, b, t);
      DigitStep(t, rest, done, cur, saw, d);
    }
  }

  /**
   * The parser accepts exactly the texts the printer writes: no leading zeros,
   * no missing or extra octet, no other character.
   */
  lemma {:induction false} Parse4Exact(s: string, b: Bytes4)
    ensures Parse4(s) == Some(b) <==> s == Text4(b)
  {
    RoundTrip4(b);
    if Parse4(s) == Some(b) {
      ScanSound4(s, [], 0, false, b, Text4(b));
      assert Seen4([], 0, false) + s == s;
    }
  }
}

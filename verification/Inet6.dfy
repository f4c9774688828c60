/**
 * The IPv6 text codec: inet_ntop6 (longest zero run, "::", embedded IPv4) and
 * inet_pton6 (one scan, then an in-place shift of the bytes after "::").
 */
module Inet6 {
  import opened Common
  import opened Inet

  type Bytes16 = b: seq<byte> | |b| == 16 witness seq(16, i => 0)
  type Word = w: int | 0 <= w < 0x10000
  type Words = w: seq<Word> | |w| == 8 witness seq(8, i => 0)

  function Zeros(n: nat): (z: seq<byte>)
    ensures |z| == n && forall i :: 0 <= i < n ==> z[i] == 0
  {
    seq(n, i => 0)
  }

  // ------------------------------------------------------------------ words

  function Pair(hi: byte, lo: byte): (w: Word) {
    (hi as int) * 256 + (lo as int)
  }

  function WordsOf(src: Bytes16): (w: Words) {
    seq(8, i requires 0 <= i < 8 => Pair(src[2 * i], src[2 * i + 1]))
  }

  /** Two big-endian bytes. */
  function WordBytes(w: Word): (b: seq<byte>)
    ensures |b| == 2
  {
    [w / 256, w % 256]
  }

  function BytesOf(ws: seq<Word>): (b: seq<byte>)
    ensures |b| == 2 * |ws|
  {
    if ws == [] then [] else WordBytes(ws[0]) + BytesOf(ws[1..])
  }

  lemma {:induction false} BytesOfAt(ws: seq<Word>, i: nat)
    requires i < |ws|
    ensures BytesOf(ws)[2 * i] == ws[i] / 256 && BytesOf(ws)[2 * i + 1] == ws[i] % 256
  {
    if i > 0 {
      BytesOfAt(ws[1..], i - 1);
    }
  }

  lemma {:induction false} PairHalves(hi: byte, lo: byte)
    ensures Pair(hi, lo) / 256 == hi && Pair(hi, lo) % 256 == lo
  {}

  lemma {:induction false} BytesOfWordsOf(src: Bytes16)
    ensures BytesOf(WordsOf(src)) == src
  {
    hide BytesOf, Pair;
    var b := BytesOf(WordsOf(src));
    forall j | 0 <= j < 16 ensures b[j] == src[j] {
      var i := j / 2;
      BytesOfAt(WordsOf(src), i);
      PairHalves(src[2 * i], src[2 * i + 1]);
      assert j == 2 * i || j == 2 * i + 1;
    }
  }

  lemma {:induction false} BytesOfConcat(u: seq<Word>, v: seq<Word>)
    ensures BytesOf(u + v) == BytesOf(u) + BytesOf(v)
  {
    if u == [] {
      assert u + v == v;
    } else {
      var w, b, c := WordBytes(u[0]), BytesOf(u[1..]), BytesOf(v);
      BytesOfConcat(u[1..], v);
      assert (u + v)[1..] == u[1..] + v;
      assert w + (b + c) == w + b + c;
    }
  }

  // -------------------------------------------------------------- zero runs

  /** ws[base..base+len] is a run of zero words that cannot be extended. */
  predicate IsRun(ws: seq<Word>, base: int, len: int) {
    && 0 <= base && 0 < len && base + len <= |ws|
    && (forall k :: base <= k < base + len ==> ws[k] == 0)
    && (base == 0 || ws[base - 1] != 0)
    && (base + len == |ws| || ws[base + len] != 0)
  }

  /** The longest run, and the first one of that length. */
  ghost predicate IsBestRun(ws: seq<Word>, base: int, len: int) {
    && IsRun(ws, base, len)
    && forall b, l :: IsRun(ws, b, l) ==> l < len || (l == len && base <= b)
  }

  /** The run that "::" replaces: the best one if it has two words or more. */
  ghost predicate IsCompressed(ws: seq<Word>, base: int, len: int) {
    if base == -1 then forall b, l :: IsRun(ws, b, l) ==> l < 2
    else len >= 2 && IsBestRun(ws, base, len)
  }

  lemma {:induction false} CompressedUnique(ws: seq<Word>, b0: int, l0: int, b1: int, l1: int)
    requires IsCompressed(ws, b0, l0) && IsCompressed(ws, b1, l1)
    ensures b0 == b1 && (b0 != -1 ==> l0 == l1)
  {}

  /** Every zero word lies in a run, so the state (best, cur) of the scan covers all runs. */
  ghost predicate BestSoFar(ws: seq<Word>, i: int, bestBase: int, bestLen: int) {
    && (bestBase != -1 ==> IsRun(ws, bestBase, bestLen) && bestBase + bestLen < i)
    && (forall b, l :: IsRun(ws, b, l) && b + l < i ==>
          bestBase != -1 && (l < bestLen || (l == bestLen && bestBase <= b)))
  }

  method FindRun(ws: Words) returns (base: int, len: int)
    ensures IsCompressed(ws, base, len)
  {
    base, len := -1, 0;
    var curBase, curLen := -1, 0;
    var i := 0;
    while i < 8
      invariant 0 <= i <= 8
      invariant curBase == -1 ==> i == 0 || ws[i - 1] != 0
      invariant curBase != -1 ==> 0 <= curBase && 0 < curLen && curBase + curLen == i
      invariant curBase != -1 ==> (curBase == 0 || ws[curBase - 1] != 0)
      invariant curBase != -1 ==> forall k :: curBase <= k < i ==> ws[k] == 0
      invariant BestSoFar(ws, i, base, len)
    {
      if ws[i] == 0 {
        if curBase == -1 {
          curBase, curLen := i, 1;
        } else {
          curLen := curLen + 1;
        }
        NoRunEndsBeforeZero(ws, i);
      } else {
        if curBase != -1 {
          RunEndsHere(ws, i, curBase, curLen);
          if base == -1 || curLen > len {
            base, len := curBase, curLen;
          }
          curBase := -1;
        } else {
          NoRunEndsAfterNonzero(ws, i);
        }
      }
      i := i + 1;
    }
    if curBase != -1 {
      RunEndsHere(ws, 8, curBase, curLen);
      if base == -1 || curLen > len {
        base, len := curBase, curLen;
      }
    } else {
      NoRunEndsAfterNonzero(ws, 8);
    }
    assert forall b, l :: IsRun(ws, b, l) ==> base != -1 && (l < len || (l == len && base <= b));
    if base != -1 && len < 2 {
      base := -1;
    }
  }

  lemma {:induction false} NoRunEndsBeforeZero(ws: seq<Word>, i: int)
    requires 0 <= i < |ws| && ws[i] == 0
    ensures forall b, l :: IsRun(ws, b, l) ==> b + l != i
  {}

  lemma {:induction false} NoRunEndsAfterNonzero(ws: seq<Word>, i: int)
    requires 0 <= i <= |ws| && (i == 0 || ws[i - 1] != 0)
    ensures forall b, l :: IsRun(ws, b, l) ==> b + l != i
  {
    forall b, l | IsRun(ws, b, l) ensures b + l != i {
      assert ws[b + l - 1] == 0;
    }
  }

  /** A maximal run ending at `i` is the one the scan is tracking. */
  lemma {:induction false} RunEndsHere(ws: seq<Word>, i: int, base: int, len: int)
    requires 0 <= base && 0 < len && base + len == i <= |ws|
    requires base == 0 || ws[base - 1] != 0
    requires forall k :: base <= k < i ==> ws[k] == 0
    requires i == |ws| || ws[i] != 0
    ensures IsRun(ws, base, len)
    ensures forall b, l :: IsRun(ws, b, l) && b + l == i ==> b == base && l == len
  {
    forall b, l | IsRun(ws, b, l) && b + l == i ensures b == base && l == len {
      assert b < base ==> b <= base - 1 < b + l;
      assert base < b ==> base <= b - 1 < i;
    }
  }

  // ------------------------------------------------------------ printed form

  /** Each word as ":" and its hexadecimal numeral. */
  function Colons(ws: seq<Word>): (s: string) {
    if ws == [] then "" else ":" + Hex(ws[0]) + Colons(ws[1..])
  }

  function Join(ws: seq<Word>): (s: string) {
    if ws == [] then "" else Hex(ws[0]) + Colons(ws[1..])
  }

  lemma {:induction false} ColonsSnoc(ws: seq<Word>, w: Word)
    ensures Colons(ws + [w]) == Colons(ws) + (":" + Hex(w))
  {
    hide Hex;
    if ws == [] {
      assert (ws + [w])[1..] == [];
    } else {
      ColonsSnoc(ws[1..], w);
      assert (ws + [w])[1..] == ws[1..] + [w];
    }
  }

  lemma {:induction false} JoinSnoc(ws: seq<Word>, w: Word)
    ensures Join(ws + [w]) == Join(ws) + (if ws == [] then "" else ":") + Hex(w)
  {
    hide Hex;
    if ws == [] {
      assert (ws + [w])[1..] == [];
    } else {
      ColonsSnoc(ws[1..], w);
      assert (ws + [w])[1..] == ws[1..] + [w];
    }
  }

  /** Whether the last four bytes are printed as a dotted quad. */
  predicate DottedTail(ws: Words, base: int, len: int) {
    base == 0 && (len == 6 || (len == 5 && ws[5] == 0xffff))
  }

  /**
   * The text of an address whose compressed run is (base, len): the words before
   * the run, "::", the words after it, the last two as a dotted quad when the
   * address embeds an IPv4 one.
   */
  function TextWith(src: Bytes16, base: int, len: int): (s: string)
    requires base == -1 || (0 <= base && 2 <= len && base + len <= 8)
  {
    var ws := WordsOf(src);
    if base == -1 then Join(ws)
    else if DottedTail(ws, base, len) then
      "::" + (if len == 5 then "ffff:" else "") + Text4(src[12..16])
    else Join(ws[..base]) + "::" + Join(ws[base + len..])
  }

  /** What the format loop has written before word `i`. */
  function Written(ws: Words, base: int, len: int, i: nat): (s: string)
    requires i <= 8 && (base == -1 || (0 <= base && 2 <= len && base + len <= 8))
  {
    if base == -1 || i <= base then Join(ws[..i])
    else if i <= base + len then Join(ws[..base]) + ":"
    else Join(ws[..base]) + ":" + Colons(ws[base + len..i])
  }

  /** Before the run: a separator unless this is the first word, then the numeral. */
  lemma {:induction false} WrittenBefore(ws: Words, base: int, len: int, i: nat)
    requires i < 8 && (base == -1 || (0 <= base && 2 <= len && base + len <= 8))
    requires base == -1 || i < base
    ensures Written(ws, base, len, i + 1) == Written(ws, base, len, i) + (if i != 0 then ":" else "") + Hex(ws[i])
  {
    assert ws[..i + 1] == ws[..i] + [ws[i]];
    JoinSnoc(ws[..i], ws[i]);
  }

  lemma {:induction false} WrittenAfter(ws: Words, base: int, len: int, i: nat)
    requires i < 8 && 0 <= base && 2 <= len && base + len <= i
    ensures Written(ws, base, len, i + 1) == Written(ws, base, len, i) + ":" + Hex(ws[i])
  {
    hide Hex, Join;
    var pre, tail, h := Join(ws[..base]) + ":", ws[base + len..i], Hex(ws[i]);
    assert ws[base + len..i + 1] == tail + [ws[i]];
    ColonsSnoc(tail, ws[i]);
    assert pre + (Colons(tail) + (":" + h)) == pre + Colons(tail) + ":" + h;
    assert tail == [] ==> pre + Colons(tail) == pre;
  }

  lemma {:induction false} DoubleColon(pre: string, h: string, c: string)
    ensures pre + ":" + (":" + h + c) == pre + "::" + (h + c)
    ensures pre + ":" + ":" == pre + "::" + ""
  {
    assert ":" + ":" == "::";
  }

  /** After the last word, with the extra ":" of a trailing run, the text is complete. */
  lemma {:induction false} WrittenEnd(src: Bytes16, base: int, len: int)
    requires base == -1 || (0 <= base && 2 <= len && base + len <= 8)
    requires !DottedTail(WordsOf(src), base, len)
    ensures TextWith(src, base, len)
         == Written(WordsOf(src), base, len, 8) + (if base != -1 && base + len == 8 then ":" else "")
  {
    var ws := WordsOf(src);
    assert ws[..8] == ws;
    if base != -1 {
      var post := ws[base + len..];
      assert post == ws[base + len..8];
      if post == [] {
        DoubleColon(Join(ws[..base]), "", "");
      } else {
        DoubleColon(Join(ws[..base]), Hex(post[0]), Colons(post[1..]));
      }
    }
  }

  /** Up to the dotted quad the loop has written ":" or "::ffff", and the quad fits the buffer. */
  lemma {:induction false} DottedWritten(src: Bytes16, base: int, len: int)
    requires base == 0 && (len == 5 || len == 6) && DottedTail(WordsOf(src), base, len)
    ensures Written(WordsOf(src), base, len, 6) == (if len == 6 then ":" else "::ffff")
    ensures TextWith(src, base, len) == Written(WordsOf(src), base, len, 6) + ":" + Text4(src[12..16])
    ensures |Text4(src[12..16])| <= 15
  {
    var ws := WordsOf(src);
    var q := src[12..16];
    assert Join(ws[..0]) + ":" == ":";
    DecLength(q[0]); DecLength(q[1]); DecLength(q[2]); DecLength(q[3]);
    if len == 5 {
      var five := ws[5..6];
      assert five == [0xffff] && five[1..] == [];
      HexFfff();
      assert Colons(five) == ":" + "ffff" + "";
      assert ":" + (":" + "ffff") + ":" == "::" + "ffff:";
    } else {
      assert ":" + ":" == "::" + "";
    }
  }

  predicate InRun(base: int, len: int, i: int) {
    base != -1 && base <= i < base + len
  }

  /** The successive values of the output buffer, one before each word. */
  lemma {:induction false} FormatTrace(src: Bytes16, ws: Words, base: int, len: int) returns (w: seq<string>)
    requires ws == WordsOf(src)
    requires base == -1 || (0 <= base && 2 <= len && base + len <= 8)
    ensures |w| == 9 && w[0] == ""
    ensures forall i :: 0 <= i < 8 && InRun(base, len, i) ==> w[i + 1] == w[i] + (if i == base then ":" else "")
    ensures forall i :: 0 <= i < 8 && !InRun(base, len, i) ==>
              w[i + 1] == w[i] + (if i != 0 then ":" else "") + Hex(ws[i])
    ensures !DottedTail(ws, base, len) ==>
              TextWith(src, base, len) == w[8] + (if base != -1 && base + len == 8 then ":" else "")
    ensures DottedTail(ws, base, len) ==>
              |w[6]| <= 6 && |Text4(src[12..16])| <= 15 && TextWith(src, base, len) == w[6] + ":" + Text4(src[12..16])
  {
    w := seq(9, i requires 0 <= i < 9 => Written(ws, base, len, i));
    forall i | 0 <= i < 8
      ensures InRun(base, len, i) ==> w[i + 1] == w[i] + (if i == base then ":" else "")
      ensures !InRun(base, len, i) ==> w[i + 1] == w[i] + (if i != 0 then ":" else "") + Hex(ws[i])
    {
      if InRun(base, len, i) {
        assert i != base ==> w[i] + "" == w[i];
      } else if base == -1 || i < base {
        WrittenBefore(ws, base, len, i);
      } else {
        WrittenAfter(ws, base, len, i);
      }
    }
    if DottedTail(ws, base, len) {
      DottedWritten(src, base, len);
    } else {
      WrittenEnd(src, base, len);
    }
  }

  /**
   * The source's test at word 6.  Its middle disjunct never decides anything: a run
   * of seven words from 0 contains word 6, which is then skipped before the test.
   */
  predicate EncapsulatesIPv4(words: Words, base: int, len: int) {
    base == 0 && (len == 6 || (len == 7 && words[7] != 0x0001) || (len == 5 && words[5] == 0xffff))
  }

  /** The format loop of inet_ntop6, for an already chosen run. */
  method Format(src: Bytes16, words: Words, base: int, len: int) returns (tp: string)
    requires words == WordsOf(src)
    requires base == -1 || (0 <= base && 2 <= len && base + len <= 8)
    ensures tp == TextWith(src, base, len)
  {
    hide TextWith, Text4, Hex;
    ghost var w := FormatTrace(src, words, base, len);
    tp := "";
    var i := 0;
    while i < 8
      invariant 0 <= i <= 8
      invariant tp == w[i]
      invariant DottedTail(words, base, len) ==> i <= 6
    {
      if base != -1 && i >= base && i < base + len {
        assert InRun(base, len, i);
        if i == base { tp := tp + ":"; }
        i := i + 1;
        continue;
      }
      assert !InRun(base, len, i);
      if i != 0 { tp := tp + ":"; }
      if i == 6 && EncapsulatesIPv4(words, base, len) {
        var quad := NtoP4(src[12..16], 46 - |tp|);
        tp := tp + quad.value;
        return;
      }
      tp := tp + Hex(words[i]);
      i := i + 1;
    }
    if base != -1 && base + len == 8 {
      tp := tp + ":";
    }
  }

  /** inet_ntop6: the text with the compressed run replaced; `base` and `len` name that run. */
  method NtoP6(src: Bytes16, size: int) returns (dst: Option<string>, ghost base: int, ghost len: int)
    ensures IsCompressed(WordsOf(src), base, len)
    ensures dst == if |TextWith(src, base, len)| < size then Some(TextWith(src, base, len)) else None
    ensures forall b, l :: IsCompressed(WordsOf(src), b, l) ==>
              dst == if |TextWith(src, b, l)| < size then Some(TextWith(src, b, l)) else None
  {
    var words := LoadWords(src);
    var b, l := FindRun(words);
    base, len := b, l;
    OneText(src, b, l);
    var tp := Format(src, words, b, l);
    if |tp| + 1 > size { return None, base, len; }
    return Some(tp), base, len;
  }

  lemma {:induction false} OneText(src: Bytes16, base: int, len: int)
    requires IsCompressed(WordsOf(src), base, len)
    ensures forall b, l :: IsCompressed(WordsOf(src), b, l) ==> TextWith(src, b, l) == TextWith(src, base, len)
  {
    hide Join, Text4, WordsOf, Colons;
    forall b, l | IsCompressed(WordsOf(src), b, l) ensures TextWith(src, b, l) == TextWith(src, base, len) {
      CompressedUnique(WordsOf(src), base, len, b, l);
    }
  }

  lemma {:induction false} HexFfff()
    ensures Hex(0xffff) == "ffff"
  {
    assert Hex(0xf) == "f";
    assert Hex(0xff) == Hex(0xf) + "f";
    assert Hex(0xfff) == Hex(0xff) + "f";
  }

  lemma {:induction false} DecLength(n: byte)
    ensures |Dec(n)| <= 3
  {
    if n >= 100 {
      assert Dec(n / 10) == Dec(n / 10 / 10) + [DigitChar(n / 10 % 10)];
      assert |Dec(n / 10 / 10)| == 1;
    }
  }

  /** Copies the bytes into words: each pair of bytes lands in disjoint halves. */
  method LoadWords(src: Bytes16) returns (w: Words)
    ensures w == WordsOf(src)
  {
    var words := new Word[8](i => 0);
    var i := 0;
    while i < 16
      invariant 0 <= i <= 16
      invariant forall k :: 0 <= k < 8 && 2 * k + 2 <= i ==> words[k] == Pair(src[2 * k], src[2 * k + 1])
      invariant forall k :: 0 <= k < 8 && 2 * k + 1 == i ==> words[k] == Pair(src[2 * k], 0)
      invariant forall k :: 0 <= k < 8 && i <= 2 * k ==> words[k] == 0
    {
      words[i / 2] := words[i / 2] + (if i % 2 == 0 then Pair(src[i], 0) else src[i]);
      i := i + 1;
    }
    w := words[..];
  }

  // ------------------------------------------------------------------ parser

  /** Bytes written so far (`tmp` up to `tp`) and the position of "::" in them, or -1. */
  datatype Parsed = Parsed(out: seq<byte>, colon: int)

  /**
   * The scan of inet_pton6: `tok` is the text from the current token on (curtok),
   * `out` the bytes written, `colon` the position recorded for "::" (-1 for NULL),
   * `val` and `saw` the word under construction.
   */
  function Scan6(rest: string, tok: string, out: seq<byte>, colon: int, val: nat, saw: bool): (r: Option<Parsed>)
    requires |out| <= 16 && -1 <= colon <= |out| && val <= 0xffff
    ensures r.Some? ==> |r.value.out| <= 16 && -1 <= r.value.colon <= |r.value.out|
    decreases |rest|
  {
    if rest == "" then
      if !saw then Some(Parsed(out, colon))
      else if |out| + 2 > 16 then None
      else Some(Parsed(out + WordBytes(val), colon))
    else
      var ch := ToLower(rest[0]);
      if IsHexDigit(ch) then
        var v := val * 16 + HexValue(ch);
        if v > 0xffff then None else Scan6(rest[1..], tok, out, colon, v, true)
      else if ch == ':' then
        if !saw then
          if colon != -1 then None else Scan6(rest[1..], rest[1..], out, |out|, val, saw)
        else if rest[1..] == "" then None
        else if |out| + 2 > 16 then None
        else Scan6(rest[1..], rest[1..], out + WordBytes(val), colon, 0, false)
      else if ch == '.' && |out| + 4 <= 16 && Parse4(tok).Some? then
        Some(Parsed(out + Parse4(tok).value, colon))
      else None
  }

  /** Inserts the zero bytes "::" stands for. */
  function Expand(p: Parsed): (r: Option<seq<byte>>)
    requires |p.out| <= 16 && -1 <= p.colon <= |p.out|
    ensures r.Some? ==> |r.value| == 16
  {
    if p.colon == -1 then (if |p.out| == 16 then Some(p.out) else None)
    else if |p.out| == 16 then None
    else Some(p.out[..p.colon] + Zeros(16 - |p.out|) + p.out[p.colon..])
  }

  function Parse6(s: string): (r: Option<seq<byte>>)
    ensures r.Some? ==> |r.value| == 16
  {
    if |s| > 0 && s[0] == ':' && (|s| == 1 || s[1] != ':') then None
    else
      var start := if |s| > 0 && s[0] == ':' then s[1..] else s;
      match Scan6(start, start, [], -1, 0, false)
      case None => None
      case Some(p) => Expand(p)
  }

  /** The hand-written shift of inet_pton6: moves out[colon..tp] to the end of the array, over itself. */
  method ShiftToEnd(tmp: array<byte>, colon: nat, tp: nat)
    requires tmp.Length == 16 && colon <= tp < 16
    requires forall k :: tp <= k < 16 ==> tmp[k] == 0
    modifies tmp
    ensures Expand(Parsed(old(tmp[..tp]), colon)) == Some(tmp[..])
  {
    var n := tp - colon;
    var i := 1;
    while i <= n
      invariant 1 <= i <= n + 1
      invariant forall k :: 0 <= k < tp - (i - 1) ==> tmp[k] == old(tmp[k])
      invariant forall k :: tp - (i - 1) <= k < 16 - (i - 1) ==> tmp[k] == 0
      invariant forall k :: 16 - (i - 1) <= k < 16 ==> tmp[k] == old(tmp[k - (16 - tp)])
    {
      tmp[16 - i] := tmp[colon + n - i];
      tmp[colon + n - i] := 0;
      i := i + 1;
    }
    ghost var out := old(tmp[..tp]);
    assert tmp[..] == out[..colon] + Zeros(16 - tp) + out[colon..];
  }

  /** Writes bytes at `tp`, leaving zeros behind them. */
  method Store(tmp: array<byte>, tp: nat, bytes: seq<byte>)
    requires tmp.Length == 16 && tp + |bytes| <= 16
    requires forall k :: tp <= k < 16 ==> tmp[k] == 0
    modifies tmp
    ensures tmp[..tp + |bytes|] == old(tmp[..tp]) + bytes
    ensures forall k :: tp + |bytes| <= k < 16 ==> tmp[k] == 0
  {
    forall k | 0 <= k < |bytes| { tmp[tp + k] := bytes[k]; }
  }

  /** The scan loop of inet_pton6 from position `from`. */
  method ScanText(src: string, from: nat, tmp: array<byte>) returns (ok: bool, tp: nat, colon: int)
    requires from <= |src| && tmp.Length == 16
    requires forall k :: 0 <= k < 16 ==> tmp[k] == 0
    modifies tmp
    ensures ok ==> tp <= 16 && -1 <= colon <= tp && forall k :: tp <= k < 16 ==> tmp[k] == 0
    ensures Scan6(src[from..], src[from..], [], -1, 0, false)
         == if ok then Some(Parsed(tmp[..tp], colon)) else None
  {
    ok, tp, colon := false, 0, -1;
    var s, tok, val, saw := from, from, 0, false;
    ghost var answer := Scan6(src[from..], src[from..], [], -1, 0, false);
    while s < |src|
      invariant 0 <= tok <= s <= |src| && 0 <= tp <= 16 && -1 <= colon <= tp && 0 <= val <= 0xffff
      invariant forall k :: tp <= k < 16 ==> tmp[k] == 0
      invariant Scan6(src[s..], src[tok..], tmp[..tp], colon, val, saw) == answer
      invariant !ok
    {
      var ch := ToLower(src[s]);
      assert src[s..][1..] == src[s + 1..];
      s := s + 1;
      if IsHexDigit(ch) {
        val := val * 16 + HexValue(ch);
        if val > 0xffff { return; }
        saw := true;
      } else if ch == ':' {
        tok := s;
        if !saw {
          if colon != -1 { return; }
          colon := tp;
        } else {
          if s == |src| || tp + 2 > 16 { return; }
          Store(tmp, tp, WordBytes(val));
          tp, saw, val := tp + 2, false, 0;
        }
      } else {
        if ch != '.' || tp + 4 > 16 { return; }
        var quad := PtoN4(src[tok..]);
        if quad.None? { return; }
        Store(tmp, tp, quad.value);
        tp, ok := tp + 4, true;
        return;
      }
    }
    if saw {
      if tp + 2 > 16 { return; }
      Store(tmp, tp, WordBytes(val));
      tp := tp + 2;
    }
    ok := true;
  }

  /** inet_pton6. */
  method PtoN6(src: string) returns (dst: Option<seq<byte>>)
    ensures dst == Parse6(src)
  {
    var tmp := new byte[16](i => 0);
    var from := 0;
    assert src[0..] == src;
    if |src| > 0 && src[0] == ':' {
      from := 1;
      if |src| == 1 || src[1] != ':' { return None; }
    }
    var ok, tp, colon := ScanText(src, from, tmp);
    if !ok { return None; }
    dst := Finish(tmp, tp, colon);
  }

  /** The tail of inet_pton6: fill in "::" and require sixteen bytes. */
  method Finish(tmp: array<byte>, tp: nat, colon: int) returns (dst: Option<seq<byte>>)
    requires tmp.Length == 16 && tp <= 16 && -1 <= colon <= tp
    requires forall k :: tp <= k < 16 ==> tmp[k] == 0
    modifies tmp
    ensures dst == Expand(Parsed(old(tmp[..tp]), colon))
  {
    if colon != -1 {
      if tp == 16 { return None; }
      ShiftToEnd(tmp, colon, tp);
      return Some(tmp[..]);
    }
    if tp != 16 { return None; }
    assert tmp[..tp] == tmp[..];
    return Some(tmp[..]);
  }

  // -------------------------------------------------------------- round trip

  /** Scanning a hexadecimal numeral reads its value. */
  lemma {:induction false} ScanHex(w: Word, rest: string, tok: string, out: seq<byte>, colon: int)
    requires |out| <= 16 && -1 <= colon <= |out|
    ensures Scan6(Hex(w) + rest, tok, out, colon, 0, false) == Scan6(rest, tok, out, colon, w, true)
  {
    DigitCharIsHex(w % 16);
    if w < 16 {
      assert (Hex(w) + rest)[1..] == rest;
    } else {
      var tail := [DigitChar(w % 16)] + rest;
      assert Hex(w) + rest == Hex(w / 16) + tail;
      ScanHex(w / 16, tail, tok, out, colon);
      assert tail[1..] == rest;
    }
  }

  /** A word followed by ":" and more text is stored, and the token start moves behind the colon. */
  lemma {:induction false} ScanWordColon(w: Word, rest: string, tok: string, out: seq<byte>, colon: int)
    requires |out| + 2 <= 16 && -1 <= colon <= |out| && rest != ""
    ensures Scan6(Hex(w) + (":" + rest), tok, out, colon, 0, false)
         == Scan6(rest, rest, out + WordBytes(w), colon, 0, false)
  {
    ScanHex(w, ":" + rest, tok, out, colon);
    assert (":" + rest)[1..] == rest;
  }

  lemma {:induction false} JoinCons(ws: seq<Word>)
    requires |ws| > 1
    ensures Join(ws) == Hex(ws[0]) + (":" + Join(ws[1..])) && Join(ws[1..]) != ""
    ensures forall rest :: Join(ws) + rest == Hex(ws[0]) + (":" + (Join(ws[1..]) + rest))
  {
    var h, more := Hex(ws[0]), ws[1..];
    var g, c := Hex(more[0]), Colons(more[1..]);
    assert ":" + g + c == ":" + (g + c);
  }

  lemma {:induction false} BytesOfFront(out: seq<byte>, ws: seq<Word>)
    requires ws != []
    ensures out + BytesOf(ws) == out + WordBytes(ws[0]) + BytesOf(ws[1..])
    ensures |ws| == 1 ==> out + BytesOf(ws) == out + WordBytes(ws[0])
  {}

  /** Words joined by ":" up to the end of the text. */
  lemma {:induction false} ScanJoin(ws: seq<Word>, tok: string, out: seq<byte>, colon: int)
    requires ws != [] && |out| + 2 * |ws| <= 16 && -1 <= colon <= |out|
    ensures Scan6(Join(ws), tok, out, colon, 0, false) == Some(Parsed(out + BytesOf(ws), colon))
  {
    hide Hex, BytesOf;
    var w, more := ws[0], ws[1..];
    BytesOfFront(out, ws);
    if more == [] {
      assert Join(ws) == Hex(w) + "";
      ScanHex(w, "", tok, out, colon);
    } else {
      JoinCons(ws);
      ScanWordColon(w, Join(more), tok, out, colon);
      ScanJoin(more, Join(more), out + WordBytes(w), colon);
    }
  }

  /** The last word before "::", and the gap itself. */
  lemma {:induction false} ScanWordGap(w: Word, rest: string, tok: string, out: seq<byte>)
    requires |out| + 2 <= 16
    ensures Scan6(Hex(w) + ("::" + rest), tok, out, -1, 0, false)
         == Scan6(rest, rest, out + WordBytes(w), |out| + 2, 0, false)
  {
    var colonRest := ":" + rest;
    assert "::" + rest == ":" + colonRest;
    ScanWordColon(w, colonRest, tok, out, -1);
    assert colonRest[1..] == rest;
  }

  /** Words joined by ":" and followed by "::". */
  lemma {:induction false} ScanJoinGap(ws: seq<Word>, rest: string, tok: string, out: seq<byte>)
    requires ws != [] && |out| + 2 * |ws| <= 16
    ensures Scan6(Join(ws) + ("::" + rest), tok, out, -1, 0, false)
         == Scan6(rest, rest, out + BytesOf(ws), |out| + 2 * |ws|, 0, false)
  {
    hide Hex, Scan6, BytesOf;
    var w, more, gap := ws[0], ws[1..], "::" + rest;
    BytesOfFront(out, ws);
    if more == [] {
      assert Join(ws) == Hex(w);
      ScanWordGap(w, rest, tok, out);
    } else {
      JoinCons(ws);
      ScanWordColon(w, Join(more) + gap, tok, out, -1);
      ScanJoinGap(more, rest, Join(more) + gap, out + WordBytes(w));
    }
  }

  /** The decimal digits of an octet also scan as hexadecimal ones, without overflow. */
  lemma {:induction false} ScanDecAsHex(n: nat, rest: string, tok: string, out: seq<byte>, colon: int) returns (v: nat)
    requires |out| <= 16 && -1 <= colon <= |out| && n < 1000
    ensures v <= 0xfff && (n < 100 ==> v <= 0xff) && (n < 10 ==> v <= 0xf)
    ensures Scan6(Dec(n) + rest, tok, out, colon, 0, false) == Scan6(rest, tok, out, colon, v, true)
  {
    DigitCharIsHex(n % 10);
    if n < 10 {
      assert (Dec(n) + rest)[1..] == rest;
      v := n;
    } else {
      var tail := [DigitChar(n % 10)] + rest;
      assert Dec(n) + rest == Dec(n / 10) + tail;
      var u := ScanDecAsHex(n / 10, tail, tok, out, colon);
      assert tail[1..] == rest;
      v := u * 16 + n % 10;
    }
  }

  /** A dotted quad at the start of a token is handed to the IPv4 parser. */
  lemma {:induction false} ScanQuad(b: Bytes4, out: seq<byte>, colon: int)
    requires |out| + 4 <= 16 && -1 <= colon <= |out|
    ensures Scan6(Text4(b), Text4(b), out, colon, 0, false) == Some(Parsed(out + b, colon))
  {
    var rest := "." + Dec(b[1]) + "." + Dec(b[2]) + "." + Dec(b[3]);
    assert Text4(b) == Dec(b[0]) + rest;
    var v := ScanDecAsHex(b[0], rest, Text4(b), out, colon);
    RoundTrip4(b);
  }

  /** The leading "::" case: the first colon is skipped, the second records the gap. */
  lemma {:induction false} ParseLeadingGap(rest: string)
    ensures Parse6("::" + rest) == match Scan6(rest, rest, [], 0, 0, false) case None => None case Some(p) => Expand(p)
  {
    var s := "::" + rest;
    assert s[1..] == ":" + rest && (":" + rest)[1..] == rest;
  }

  /** Words with a zero run cut out and put back are the same bytes. */
  lemma {:induction false} ExpandRun(ws: Words, base: nat, len: nat, out: seq<byte>)
    requires 2 <= len && base + len <= 8 && forall k :: base <= k < base + len ==> ws[k] == 0
    requires out == BytesOf(ws[..base]) + BytesOf(ws[base + len..])
    ensures Expand(Parsed(out, 2 * base)) == Some(BytesOf(ws))
  {
    var run := ws[base..base + len];
    assert ws == ws[..base] + (run + ws[base + len..]);
    BytesOfConcat(ws[..base], run + ws[base + len..]);
    BytesOfConcat(run, ws[base + len..]);
    ZeroBytes(run);
    var a, z, c := BytesOf(ws[..base]), BytesOf(run), BytesOf(ws[base + len..]);
    assert out[..2 * base] == a && out[2 * base..] == c;
    assert z == Zeros(16 - |out|);
    assert a + z + c == a + (z + c);
  }

  lemma {:induction false} ZeroBytes(ws: seq<Word>)
    requires forall k :: 0 <= k < |ws| ==> ws[k] == 0
    ensures BytesOf(ws) == Zeros(2 * |ws|)
  {
    if ws != [] { ZeroBytes(ws[1..]); }
  }

  lemma {:induction false} FirstCharNotColon(ws: seq<Word>, rest: string)
    requires ws != []
    ensures |Join(ws) + rest| > 0 && (Join(ws) + rest)[0] != ':'
  {
    HexFirst(ws[0]);
  }

  lemma {:induction false} HexFirst(n: nat)
    ensures Hex(n)[0] != ':'
  {
    if n >= 16 { HexFirst(n / 16); }
  }

  /** "::" in an address without an embedded IPv4 one. */
  lemma {:induction false} RoundTripGap(ws: Words, base: nat, len: nat)
    requires 2 <= len && base + len <= 8 && forall k :: base <= k < base + len ==> ws[k] == 0
    ensures Parse6(Join(ws[..base]) + "::" + Join(ws[base + len..])) == Some(BytesOf(ws))
  {
    hide Hex, Expand;
    var pre, post := ws[..base], ws[base + len..];
    var text, rest, out := Join(pre) + "::" + Join(post), Join(post), BytesOf(pre);
    ExpandRun(ws, base, len, out + BytesOf(post));
    if post == [] {
      assert out + BytesOf(post) == out;
    } else {
      ScanJoin(post, rest, out, 2 * base);
    }
    if pre == [] {
      assert text == "::" + rest;
      ParseLeadingGap(rest);
    } else {
      assert text == Join(pre) + ("::" + rest);
      FirstCharNotColon(pre, "::" + rest);
      ScanJoinGap(pre, rest, text, []);
      assert [] + out == out;
    }
  }

  /** What the parser makes of "::a.b.c.d" and "::ffff:a.b.c.d". */
  lemma {:induction false} ParseQuad(quad: Bytes4)
    ensures Parse6("::" + Text4(quad)) == Expand(Parsed(quad, 0))
  {
    ParseLeadingGap(Text4(quad));
    ScanQuad(quad, [], 0);
    assert [] + quad == quad;
  }

  lemma {:induction false} ParseMappedQuad(quad: Bytes4)
    ensures Parse6("::" + ("ffff:" + Text4(quad))) == Expand(Parsed([255, 255] + quad, 0))
  {
    var text := Text4(quad);
    var rest := "ffff:" + text;
    HexFfff();
    assert rest == Hex(0xffff) + (":" + text);
    ParseLeadingGap(rest);
    ScanWordColon(0xffff, text, rest, [], 0);
    ScanQuad(quad, [] + WordBytes(0xffff), 0);
    assert [] + WordBytes(0xffff) == [255, 255];
  }

  lemma {:induction false} RoundTripDotted(src: Bytes16, base: int, len: int)
    requires DottedTail(WordsOf(src), base, len)
    requires forall k :: base <= k < base + len ==> WordsOf(src)[k] == 0
    ensures Parse6(TextWith(src, base, len)) == Some(src)
  {
    var quad := src[12..16];
    DottedBytes(src, len);
    if len == 5 {
      ParseMappedQuad(quad);
      assert "::" + "ffff:" + Text4(quad) == "::" + ("ffff:" + Text4(quad));
      ExpandLeading([255, 255] + quad);
      assert Zeros(10) + [255, 255] + quad == Zeros(10) + ([255, 255] + quad);
    } else {
      ParseQuad(quad);
      assert "::" + "" + Text4(quad) == "::" + Text4(quad);
      ExpandLeading(quad);
      assert Zeros(12) + [] + quad == Zeros(12) + quad;
    }
  }

  lemma {:induction false} ExpandLeading(out: seq<byte>)
    requires |out| < 16
    ensures Expand(Parsed(out, 0)) == Some(Zeros(16 - |out|) + out)
  {
    assert out[..0] + Zeros(16 - |out|) + out[0..] == Zeros(16 - |out|) + out;
  }

  lemma {:induction false} DottedBytes(src: Bytes16, len: int)
    requires DottedTail(WordsOf(src), 0, len)
    requires forall k :: 0 <= k < len ==> WordsOf(src)[k] == 0
    ensures src == Zeros(if len == 5 then 10 else 12) + (if len == 5 then [255, 255] else []) + src[12..16]
  {
    var ws := WordsOf(src);
    forall j | 0 <= j < 2 * len ensures src[j] == 0 {
      PairZero(src, j / 2);
    }
    if len == 5 {
      assert ws[5] == Pair(src[10], src[11]);
    }
  }

  lemma {:induction false} PairZero(src: Bytes16, k: nat)
    requires k < 8 && WordsOf(src)[k] == 0
    ensures src[2 * k] == 0 && src[2 * k + 1] == 0
  {
    assert WordsOf(src)[k] == Pair(src[2 * k], src[2 * k + 1]);
  }

  /** Printing then parsing an IPv6 address gives it back, whatever run is compressed. */
  lemma {:induction false} RoundTrip6(src: Bytes16, base: int, len: int)
    requires IsCompressed(WordsOf(src), base, len)
    ensures Parse6(TextWith(src, base, len)) == Some(src)
  {
    var ws := WordsOf(src);
    BytesOfWordsOf(src);
    if base == -1 {
      assert Join(ws) + "" == Join(ws);
      FirstCharNotColon(ws, "");
      ScanJoin(ws, Join(ws), [], -1);
      assert [] + BytesOf(ws) == src;
    } else if DottedTail(ws, base, len) {
      RoundTripDotted(src, base, len);
    } else {
      RoundTripGap(ws, base, len);
    }
  }

  /** The whole codec, as called: every address survives printing into a 46-byte buffer and parsing. */
  method RoundTripAddress(src: Bytes16) returns (text: string, back: Option<seq<byte>>)
    ensures |text| < 46
    ensures back == Some(src)
  {
    var printed, base, len := NtoP6(src, 46);
    TextFits(src, base, len);
    text := printed.value;
    RoundTrip6(src, base, len);
    back := PtoN6(text);
  }

  lemma {:induction false} JoinLength(ws: seq<Word>)
    ensures |Colons(ws)| <= 5 * |ws|
    ensures |Join(ws)| <= 5 * |ws|
  {
    if ws != [] {
      HexLength(ws[0]);
      JoinLength(ws[1..]);
    }
  }

  lemma {:induction false} HexLength(n: Word)
    ensures |Hex(n)| <= 4
  {
    if n >= 0x1000 {
      assert |Hex(n / 16 / 16 / 16)| == 1;
      assert |Hex(n / 16 / 16)| == 2;
      assert |Hex(n / 16)| == 3;
    } else if n >= 0x100 {
      assert |Hex(n / 16 / 16)| == 1;
      assert |Hex(n / 16)| == 2;
    }
  }

  /** The text always fits the printer's 46-byte temporary. */
  lemma {:induction false} TextFits(src: Bytes16, base: int, len: int)
    requires base == -1 || (0 <= base && 2 <= len && base + len <= 8)
    ensures |TextWith(src, base, len)| < 46
  {
    var ws := WordsOf(src);
    JoinLength(ws);
    if base != -1 {
      if DottedTail(ws, base, len) {
        DottedWritten(src, base, len);
      } else {
        JoinLength(ws[..base]);
        JoinLength(ws[base + len..]);
      }
    }
  }
}

/**
 * The texts of IPv6 addresses inet_pton6 takes beside those inet_ntop6 writes: digits of
 * either case, leading zeros, "::" for any number of words, and a dotted quad behind any
 * words (section 2.2 of RFC 4291).  And which addresses inet_ntop6 writes with a quad.
 */
module Inet6Texts {
  import opened Common
  import opened Inet
  import opened Inet6
  import opened Chars

  /** Texts of words, one by one. */
  ghost predicate SpellWords(gs: seq<string>, ws: seq<Word>) {
    |gs| == |ws| && forall i :: 0 <= i < |gs| ==> SpellsHex(gs[i], ws[i])
  }

  /** Each followed by a colon. */
  function Closed(gs: seq<string>): (s: string) {
    if gs == [] then "" else gs[0] + ":" + Closed(gs[1..])
  }

  /** Joined by colons. */
  function Joined(gs: seq<string>): (s: string) {
    if gs == [] then "" else Closed(gs[..|gs| - 1]) + gs[|gs| - 1]
  }

  lemma {:induction false} HexOfDigit(c: char, v: nat)
    requires v < 16 && HexDigitOf(c, v)
    ensures IsHexDigit(ToLower(c)) && HexValue(ToLower(c)) == v
  {
    HexOfExact(c, v);
    hide HexDigitOf;
  }

  /** The scan reads the value of a word, however it is spelled. */
  lemma {:induction false} ScanGroup(g: string, w: Word, rest: string, tok: string, out: seq<byte>, colon: int)
    requires SpellsHex(g, w) && |out| <= 16 && -1 <= colon <= |out|
    ensures Scan6(g + rest, tok, out, colon, 0, false) == Scan6(rest, tok, out, colon, w, true)
    decreases |g|
  {
    var k := |g| - 1;
    var c := g[k];
    HexOfDigit(c, w % 16);
    hide HexDigitOf;
    var tail := [c] + rest;
    assert tail[1..] == rest;
    if k == 0 {
      assert g + rest == tail;
    } else {
      assert g + rest == g[..k] + tail;
      ScanGroup(g[..k], w / 16, tail, tok, out, colon);
    }
  }

  /** A word and its colon, with more text behind. */
  lemma {:induction false} ScanGroupColon(g: string, w: Word, rest: string, tok: string, out: seq<byte>, colon: int)
    requires SpellsHex(g, w) && |out| + 2 <= 16 && -1 <= colon <= |out| && rest != ""
    ensures Scan6(g + (":" + rest), tok, out, colon, 0, false) == Scan6(rest, rest, out + WordBytes(w), colon, 0, false)
  {
    ScanGroup(g, w, ":" + rest, tok, out, colon);
    assert (":" + rest)[1..] == rest;
  }

  /** Words with their colons, and more text behind. */
  lemma {:induction false} ScanClosed(gs: seq<string>, ws: seq<Word>, rest: string, tok: string, out: seq<byte>, colon: int)
    requires SpellWords(gs, ws) && |out| + 2 * |ws| <= 16 && -1 <= colon <= |out| && rest != ""
    ensures Scan6(Closed(gs) + rest, if gs == [] then tok else Closed(gs) + rest, out, colon, 0, false)
         == Scan6(rest, if gs == [] then tok else rest, out + BytesOf(ws), colon, 0, false)
    decreases |gs|
  {
    hide Scan6, SpellsHex;
    if gs == [] {
      assert Closed(gs) + rest == rest && out + BytesOf(ws) == out;
    } else {
      var more := Closed(gs[1..]) + rest;
      assert Closed(gs) + rest == gs[0] + (":" + more);
      assert SpellsHex(gs[0], ws[0]) && SpellWords(gs[1..], ws[1..]);
      ScanGroupColon(gs[0], ws[0], more, Closed(gs) + rest, out, colon);
      assert out + BytesOf(ws) == out + WordBytes(ws[0]) + BytesOf(ws[1..]);
      if gs[1..] == [] {
        assert ws[1..] == [] && more == rest && BytesOf([]) == [];
        assert out + BytesOf(ws) == out + WordBytes(ws[0]);
      } else {
        ScanClosed(gs[1..], ws[1..], rest, more, out + WordBytes(ws[0]), colon);
      }
    }
  }

  /** What may end a text: words, or words and a dotted quad. */
  datatype Tail = Tail(gs: seq<string>, quad: Option<Bytes4>)

  function TailText(t: Tail): (s: string) {
    match t.quad
    case None => Joined(t.gs)
    case Some(b) => Closed(t.gs) + Text4(b)
  }

  function TailBytes(t: Tail, ws: seq<Word>): (b: seq<byte>) {
    BytesOf(ws) + match t.quad case None => [] case Some(b) => b
  }

  /** The end of a text, from the beginning of a token. */
  lemma {:induction false} ScanTail(t: Tail, ws: seq<Word>, out: seq<byte>, colon: int)
    requires SpellWords(t.gs, ws) && -1 <= colon <= |out| && |out| + |TailBytes(t, ws)| <= 16
    ensures Scan6(TailText(t), TailText(t), out, colon, 0, false) == Some(Parsed(out + TailBytes(t, ws), colon))
  {
    hide SpellsHex, Scan6;
    var n := |t.gs|;
    if t.quad.Some? {
      var b := t.quad.value;
      TextNotEmpty(b);
      ScanClosed(t.gs, ws, Text4(b), Text4(b), out, colon);
      ScanQuad(b, out + BytesOf(ws), colon);
      if n == 0 { assert Closed(t.gs) + Text4(b) == Text4(b); }
      assert out + (BytesOf(ws) + b) == out + BytesOf(ws) + b;
    } else if n == 0 {
      ScanNothing(out, colon);
      assert out + TailBytes(t, ws) == out;
    } else {
      ScanLast(t.gs, ws, out, colon);
      assert out + (BytesOf(ws) + []) == out + BytesOf(ws);
    }
  }

  lemma {:induction false} TextNotEmpty(b: Bytes4)
    ensures Text4(b) != ""
  {
    hide Dec;
  }

  lemma {:induction false} ScanNothing(out: seq<byte>, colon: int)
    requires |out| <= 16 && -1 <= colon <= |out|
    ensures Scan6("", "", out, colon, 0, false) == Some(Parsed(out, colon))
  {}

  lemma {:induction false} ScanLast(gs: seq<string>, ws: seq<Word>, out: seq<byte>, colon: int)
    requires gs != [] && SpellWords(gs, ws) && |out| + 2 * |ws| <= 16 && -1 <= colon <= |out|
    ensures Scan6(Joined(gs), Joined(gs), out, colon, 0, false) == Some(Parsed(out + BytesOf(ws), colon))
  {
    hide SpellsHex;
    var n := |gs| - 1;
    var g, w := gs[n], ws[n];
    assert SpellsHex(g, w) && SpellWords(gs[..n], ws[..n]);
    NotEmptyGroup(g, w);
    hide Scan6;
    ScanClosed(gs[..n], ws[..n], g, g, out, colon);
    if n == 0 { assert Closed(gs[..n]) + g == g; }
    assert ws == ws[..n] + [w];
    BytesOfConcat(ws[..n], [w]);
    assert BytesOf([w]) == WordBytes(w) + BytesOf([]);
    assert g + "" == g;
    ScanGroup(g, w, "", g, out + BytesOf(ws[..n]), colon);
    LastWord(w, g, out + BytesOf(ws[..n]), colon);
    assert out + BytesOf(ws) == out + BytesOf(ws[..n]) + WordBytes(w);
  }

  lemma {:induction false} LastWord(w: Word, tok: string, out: seq<byte>, colon: int)
    requires |out| + 2 <= 16 && -1 <= colon <= |out|
    ensures Scan6("", tok, out, colon, w, true) == Some(Parsed(out + WordBytes(w), colon))
  {}

  lemma {:induction false} NotEmptyGroup(g: string, n: nat)
    requires SpellsHex(g, n)
    ensures g != "" && g[0] != ':'
    decreases |g|
  {
    if |g| > 1 {
      NotEmptyGroup(g[..|g| - 1], n / 16);
    } else {
      HexOfExact(g[0], n % 16);
    }
  }

  /** Without "::": eight words, or six and a quad. */
  lemma {:induction false} FullText(t: Tail, ws: seq<Word>)
    requires SpellWords(t.gs, ws) && |TailBytes(t, ws)| == 16
    ensures Parse6(TailText(t)) == Some(TailBytes(t, ws))
  {
    hide Scan6, SpellsHex, Closed;
    ScanTail(t, ws, [], -1);
    assert t.gs != [];
    assert SpellsHex(t.gs[0], ws[0]);
    NotEmptyGroup(t.gs[0], ws[0]);
    TailStart(t);
    assert [] + TailBytes(t, ws) == TailBytes(t, ws);
  }

  lemma {:induction false} TailStart(t: Tail)
    requires t.gs != [] && t.gs[0] != ""
    ensures TailText(t) != "" && TailText(t)[0] == t.gs[0][0]
  {
    var n := |t.gs| - 1;
    if t.quad.None? && n > 0 {
      assert t.gs[..n][0] == t.gs[0];
    }
  }

  /** With "::" between words, or at either end, for at least one byte pair. */
  lemma {:induction false} GapText(pre: seq<string>, us: seq<Word>, t: Tail, ws: seq<Word>)
    requires SpellWords(pre, us) && SpellWords(t.gs, ws) && 2 * |us| + |TailBytes(t, ws)| < 16
    ensures var back := TailBytes(t, ws);
            Parse6(Joined(pre) + "::" + TailText(t)) == Some(BytesOf(us) + Zeros(16 - 2 * |us| - |back|) + back)
  {
    hide Scan6, SpellsHex, TailText;
    var rest, back := TailText(t), TailBytes(t, ws);
    var n := |pre|;
    var text := Joined(pre) + "::" + rest;
    ScanTail(t, ws, BytesOf(us), 2 * |us|);
    Expanded(BytesOf(us), back);
    if n == 0 {
      assert text == "::" + rest;
      ParseLeadingGap(rest);
      assert BytesOf(us) == [];
    } else {
      assert SpellsHex(pre[0], us[0]);
      NotEmptyGroup(pre[0], us[0]);
      GapScan(pre, us, rest);
      TailStart(Tail(pre, None));
      assert text[0] == pre[0][0];
    }
  }

  lemma {:induction false} Expanded(front: seq<byte>, back: seq<byte>)
    requires |front| + |back| < 16
    ensures Expand(Parsed(front + back, |front|)) == Some(front + Zeros(16 - |front| - |back|) + back)
  {
    var out := front + back;
    assert out[..|front|] == front && out[|front|..] == back;
  }

  /** The words before the gap, and the gap. */
  lemma {:induction false} GapScan(pre: seq<string>, us: seq<Word>, rest: string)
    requires pre != [] && SpellWords(pre, us) && 2 * |us| <= 16
    ensures var text := Joined(pre) + "::" + rest;
            Scan6(text, text, [], -1, 0, false) == Scan6(rest, rest, BytesOf(us), 2 * |us|, 0, false)
  {
    hide SpellsHex, Scan6;
    var colonRest := ":" + rest;
    var text := Joined(pre) + "::" + rest;
    ClosedSnoc(pre);
    assert text == Closed(pre) + colonRest;
    ScanClosed(pre, us, colonRest, text, [], -1);
    assert [] + BytesOf(us) == BytesOf(us);
    assert colonRest[1..] == rest;
    ScanGap(rest, BytesOf(us));
  }

  lemma {:induction false} ScanGap(rest: string, out: seq<byte>)
    requires |out| <= 16
    ensures Scan6(":" + rest, ":" + rest, out, -1, 0, false) == Scan6(rest, rest, out, |out|, 0, false)
  {
    assert (":" + rest)[1..] == rest;
  }

  lemma {:induction false} ClosedSnoc(gs: seq<string>)
    requires gs != []
    ensures Closed(gs) == Joined(gs) + ":"
  {
    var n := |gs| - 1;
    if n == 0 {
      assert gs[..0] == [] && gs[1..] == [];
      assert gs[0] + ":" + "" == gs[0] + ":" && "" + gs[0] == gs[0];
    } else {
      ClosedSnoc(gs[1..]);
      assert gs[1..][..n - 1] == gs[1..n] && gs[..n][1..] == gs[1..n] && gs[1..][n - 1] == gs[n];
      assert gs[0] + ":" + (Closed(gs[1..n]) + gs[n] + ":") == gs[0] + ":" + Closed(gs[1..n]) + gs[n] + ":";
    }
  }

  // ------------------------------------------------------- what is written

  /** The words of a written text are spelled as printf does: lower case, no leading zero. */
  lemma {:induction false} JoinIsJoined(ws: seq<Word>)
    ensures var gs := HexTexts(ws);
            Join(ws) == Joined(gs) && SpellWords(gs, ws)
    ensures forall i :: 0 <= i < |ws| ==> SpellsHex(HexTexts(ws)[i], ws[i]) && (ws[i] > 0 ==> HexTexts(ws)[i][0] != '0')
  {
    var gs := HexTexts(ws);
    forall i | 0 <= i < |ws| ensures SpellsHex(gs[i], ws[i]) && (ws[i] > 0 ==> gs[i][0] != '0') {
      HexSpells(ws[i]);
    }
    hide Hex, SpellsHex;
    if ws != [] {
      var n := |ws| - 1;
      JoinIsClosed(ws[..n], ws[n]);
      assert HexTexts(ws[..n]) == gs[..n] && ws == ws[..n] + [ws[n]];
    }
  }

  function HexTexts(ws: seq<Word>): (gs: seq<string>)
    ensures |gs| == |ws| && forall i :: 0 <= i < |ws| ==> gs[i] == Hex(ws[i])
  {
    seq(|ws|, i requires 0 <= i < |ws| => Hex(ws[i]))
  }

  lemma {:induction false} JoinIsClosed(ws: seq<Word>, w: Word)
    ensures Join(ws + [w]) == Closed(HexTexts(ws)) + Hex(w)
    decreases |ws|
  {
    hide Hex;
    if ws == [] {
      assert (ws + [w])[1..] == [];
      assert Hex(w) + "" == Hex(w) && "" + Hex(w) == Hex(w);
    } else {
      var more := ws[1..];
      JoinIsClosed(more, w);
      assert (ws + [w])[1..] == more + [w] && HexTexts(ws)[1..] == HexTexts(more);
      JoinCons(ws + [w]);
      assert Hex(ws[0]) + (":" + (Closed(HexTexts(more)) + Hex(w))) == Hex(ws[0]) + ":" + Closed(HexTexts(more)) + Hex(w);
    }
  }

  lemma {:induction false} JoinHasNoDot(ws: seq<Word>)
    ensures '.' !in Join(ws) && '.' !in Colons(ws)
  {
    if ws != [] {
      HexSpells(ws[0]);
      JoinHasNoDot(ws[1..]);
    }
  }

  /**
   * A dotted quad is written exactly for the IPv4-mapped addresses, and for those whose
   * first twelve bytes are 0 and whose next two are not.
   */
  lemma {:induction false} DottedExactly(src: Bytes16, base: int, len: int)
    requires IsCompressed(WordsOf(src), base, len)
    ensures '.' in TextWith(src, base, len) <==>
              (forall i :: 0 <= i < 10 ==> src[i] == 0)
              && ((src[10] == 255 && src[11] == 255)
                  || (src[10] == 0 && src[11] == 0 && (src[12] != 0 || src[13] != 0)))
  {
    var ws := WordsOf(src);
    DotMeansTail(src, base, len);
    TailBytesOf(src, base, len);
    hide TextWith;
  }

  lemma {:induction false} DotMeansTail(src: Bytes16, base: int, len: int)
    requires base == -1 || (0 <= base && 2 <= len && base + len <= 8)
    ensures '.' in TextWith(src, base, len) <==> base != -1 && DottedTail(WordsOf(src), base, len)
  {
    var ws := WordsOf(src);
    JoinHasNoDot(ws);
    if base != -1 {
      JoinHasNoDot(ws[..base]);
      JoinHasNoDot(ws[base + len..]);
      if DottedTail(ws, base, len) {
        var q := Text4(src[12..16]);
        assert q[|Dec(src[12])|] == '.';
      }
    }
  }

  /** A run of five or six words at the start is the best one. */
  lemma {:induction false} LeadingRun(ws: Words, base: int, len: int)
    requires IsCompressed(ws, base, len)
    ensures base != -1 && DottedTail(ws, base, len) <==>
              (forall k :: 0 <= k < 5 ==> ws[k] == 0) && (ws[5] == 0xffff || (ws[5] == 0 && ws[6] != 0))
  {
    if (forall k :: 0 <= k < 5 ==> ws[k] == 0) && (ws[5] == 0xffff || (ws[5] == 0 && ws[6] != 0)) {
      var n := if ws[5] == 0 then 6 else 5;
      assert ws[n] != 0 && IsRun(ws, 0, n);
      forall b, l | IsRun(ws, b, l) ensures l < n || (l == n && 0 <= b) {
        assert b > 0 ==> ws[b - 1] != 0;
      }
      assert IsCompressed(ws, 0, n);
      CompressedUnique(ws, base, len, 0, n);
    }
  }

  lemma {:induction false} TailBytesOf(src: Bytes16, base: int, len: int)
    requires IsCompressed(WordsOf(src), base, len)
    ensures (base != -1 && DottedTail(WordsOf(src), base, len)) <==>
              (forall i :: 0 <= i < 10 ==> src[i] == 0)
              && ((src[10] == 255 && src[11] == 255)
                  || (src[10] == 0 && src[11] == 0 && (src[12] != 0 || src[13] != 0)))
  {
    var ws := WordsOf(src);
    forall k | 0 <= k < 8 ensures ws[k] == 0 <==> src[2 * k] == 0 && src[2 * k + 1] == 0 {
      assert ws[k] == Pair(src[2 * k], src[2 * k + 1]);
    }
    assert ws[5] == Pair(src[10], src[11]);
    LeadingRun(ws, base, len);
    hide WordsOf, Pair;
    assert (forall i :: 0 <= i < 10 ==> src[i] == 0) <==> (forall k :: 0 <= k < 5 ==> ws[k] == 0) by {
      if forall k :: 0 <= k < 5 ==> ws[k] == 0 {
        forall i | 0 <= i < 10 ensures src[i] == 0 {
          assert ws[i / 2] == 0;
        }
      } else {
        var k :| 0 <= k < 5 && ws[k] != 0;
        assert src[2 * k] != 0 || src[2 * k + 1] != 0;
      }
    }
  }
}

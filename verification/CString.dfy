/**
 * C-string quoting in the bundled SQLite shell: the writer output_c_string, the
 * tokenizer at the head of do_meta_command, and resolve_backslashes, which rewrites a
 * token over itself.
 *
 * A line is kept in an array with a terminating 0; a string is the bytes before it.
 */
module CString {
  import opened Common

  type Bytes = seq<byte>

  const QUOTE: byte := 34
  const APOSTROPHE: byte := 39
  const BACKSLASH: byte := 92
  const SPACE: byte := 32

  /** isprint in the C locale. */
  predicate IsPrint(c: byte) {
    32 <= c <= 126
  }

  predicate IsSpace(c: byte) {
    c == SPACE || 9 <= c <= 13
  }

  predicate IsOctal(c: byte) {
    48 <= c <= 55
  }

  // ------------------------------------------------------------------ writer

  /** What output_c_string writes for one byte. */
  function Escape(c: byte): (s: Bytes)
    ensures 1 <= |s| <= 4
  {
    if c == BACKSLASH then [BACKSLASH, BACKSLASH]
    else if c == QUOTE then [BACKSLASH, QUOTE]
    else if c == 9 then [BACKSLASH, 116]
    else if c == 10 then [BACKSLASH, 110]
    else if c == 13 then [BACKSLASH, 114]
    else if !IsPrint(c) then [BACKSLASH, 48 + c / 64, 48 + c / 8 % 8, 48 + c % 8]
    else [c]
  }

  function Escaped(z: Bytes): (s: Bytes) {
    if z == [] then [] else Escape(z[0]) + Escaped(z[1..])
  }

  lemma {:induction false} EscapedSnoc(z: Bytes, c: byte)
    ensures Escaped(z + [c]) == Escaped(z) + Escape(c)
  {
    hide Escape;
    if z == [] {
      assert (z + [c])[1..] == [];
    } else {
      EscapedSnoc(z[1..], c);
      assert (z + [c])[1..] == z[1..] + [c];
      assert Escape(z[0]) + (Escaped(z[1..]) + Escape(c)) == Escape(z[0]) + Escaped(z[1..]) + Escape(c);
    }
  }

  /** The branches of output_c_string for one character. */
  method PutChar(c: byte) returns (s: Bytes)
    ensures s == Escape(c)
  {
    if c == BACKSLASH {
      s := [c] + [c];
    } else if c == QUOTE {
      s := [BACKSLASH] + [QUOTE];
    } else if c == 9 {
      s := [BACKSLASH] + [116];
    } else if c == 10 {
      s := [BACKSLASH] + [110];
    } else if c == 13 {
      s := [BACKSLASH] + [114];
    } else if !IsPrint(c) {
      s := [BACKSLASH, 48 + c / 64, 48 + c / 8 % 8, 48 + c % 8];
    } else {
      s := [c];
    }
  }

  /** output_c_string. */
  method OutputCString(z: Bytes) returns (out: Bytes)
    ensures out == [QUOTE] + Escaped(z) + [QUOTE]
  {
    hide Escape, Escaped;
    out := [QUOTE];
    var i := 0;
    EmptyEscaped();
    assert z[..0] == [];
    while i < |z|
      invariant 0 <= i <= |z|
      invariant out == [QUOTE] + Escaped(z[..i])
    {
      assert z[..i + 1] == z[..i] + [z[i]];
      EscapedSnoc(z[..i], z[i]);
      var s := PutChar(z[i]);
      out := out + s;
      i := i + 1;
    }
    assert z[..i] == z;
    out := out + [QUOTE];
  }

  lemma {:induction false} EmptyEscaped()
    ensures Escaped([]) == []
  {}

  // ----------------------------------------------------- resolve_backslashes

  /** The byte a backslash sequence stands for, and how many bytes follow the backslash. */
  function Sequence(s: Bytes): (r: (byte, nat))
    requires s != []
    ensures 1 <= r.1 <= 3 && r.1 <= |s|
  {
    var c := s[0];
    if c == 97 then (7, 1)
    else if c == 98 then (8, 1)
    else if c == 116 then (9, 1)
    else if c == 110 then (10, 1)
    else if c == 118 then (11, 1)
    else if c == 102 then (12, 1)
    else if c == 114 then (13, 1)
    else if IsOctal(c) then
      if |s| > 1 && IsOctal(s[1]) then
        if |s| > 2 && IsOctal(s[2]) then (OctalValue(OctalValue(c - 48, s[1]), s[2]), 3)
        else (OctalValue(c - 48, s[1]), 2)
      else (c - 48, 1)
    else (c, 1)
  }

  /** (c<<3) + digit - '0' in a char: keeps eight bits. */
  function OctalValue(c: byte, digit: byte): (v: byte)
    requires IsOctal(digit)
  {
    (8 * (c as int) + (digit as int) - 48) % 256
  }

  function Resolve(s: Bytes): (r: Bytes)
    ensures |r| <= |s|
    decreases |s|
  {
    if s == [] then []
    else if s[0] == BACKSLASH && |s| > 1 then
      var (c, n) := Sequence(s[1..]);
      [c] + Resolve(s[1 + n..])
    else [s[0]] + Resolve(s[1..])
  }

  /** Resolving what the writer escaped gives back every string without a 0. */
  lemma {:induction false} ResolveEscaped(z: Bytes, rest: Bytes)
    ensures Resolve(Escaped(z) + rest) == z + Resolve(rest)
  {
    hide Resolve, Escape;
    if z == [] {
      assert Escaped(z) + rest == rest && z + Resolve(rest) == Resolve(rest);
    } else {
      var more := Escaped(z[1..]) + rest;
      assert Escaped(z) + rest == Escape(z[0]) + more;
      ResolveEscape(z[0], more);
      ResolveEscaped(z[1..], rest);
      assert [z[0]] + (z[1..] + Resolve(rest)) == z + Resolve(rest);
    }
  }

  lemma {:induction false} ResolveEscape(c: byte, more: Bytes)
    ensures Resolve(Escape(c) + more) == [c] + Resolve(more)
  {
    hide Resolve, Escape, Next;
    var e := Escape(c);
    NextOfEscape(c, more);
    ResolveNext(e + more);
    assert (e + more)[|e|..] == more;
  }

  lemma {:induction false} NextOfEscape(c: byte, more: Bytes)
    ensures Next(Escape(c) + more) == (c, |Escape(c)|)
  {
    var e := Escape(c);
    var s := e + more;
    if |e| == 1 {
      hide Sequence, OctalValue;
      assert s[0] == c;
    } else if |e| == 2 {
      LetterSequence(c, s[1..]);
      hide Sequence, OctalValue, IsPrint;
    } else {
      OctalDigits(c);
      ThreeDigits(s[1..], e[1], e[2], e[3]);
      hide Sequence, OctalValue, IsPrint;
    }
  }

  lemma {:induction false} LetterSequence(c: byte, t: Bytes)
    requires |Escape(c)| == 2 && t != [] && t[0] == Escape(c)[1]
    ensures Sequence(t) == (c, 1)
  {
    hide OctalValue;
  }

  lemma {:induction false} ThreeDigits(t: Bytes, a: byte, b: byte, d: byte)
    requires |t| >= 3 && t[0] == a && t[1] == b && t[2] == d && IsOctal(a) && IsOctal(b) && IsOctal(d)
    ensures Sequence(t) == (OctalValue(OctalValue(a - 48, b), d), 3)
  {
    hide OctalValue;
  }

  lemma {:induction false} OctalDigits(c: byte)
    ensures var a, b, d := 48 + c / 64, 48 + c / 8 % 8, 48 + c % 8;
            IsOctal(a) && IsOctal(b) && IsOctal(d) && OctalValue(OctalValue(a - 48, b), d) == c
  {
    EightTimes(c);
    EightTimes(c / 8);
    EightTwice(c);
  }

  lemma {:induction false} EightTimes(n: nat)
    ensures n == 8 * (n / 8) + n % 8
  {}

  lemma {:induction false} EightTwice(n: nat)
    ensures n / 8 / 8 == n / 64
  {}

  /** What one turn of the rewriting loop reads and yields. */
  function Next(s: Bytes): (r: (byte, nat))
    requires s != []
    ensures 1 <= r.1 <= |s|
  {
    if s[0] == BACKSLASH && |s| > 1 then
      var (c, n) := Sequence(s[1..]);
      (c, 1 + n)
    else (s[0], 1)
  }

  lemma {:induction false} ResolveNext(s: Bytes)
    requires s != []
    ensures Resolve(s) == [Next(s).0] + Resolve(s[Next(s).1..])
  {}

  lemma {:induction false} ResolvePlain(s: Bytes, k: nat)
    requires k <= |s| && forall j :: 0 <= j < k ==> s[j] != BACKSLASH
    ensures Resolve(s) == s[..k] + Resolve(s[k..])
  {
    if k == 0 {
      assert s[0..] == s;
    } else {
      ResolvePlain(s[1..], k - 1);
      assert s[1..][k - 1..] == s[k..];
      assert [s[0]] + (s[1..][..k - 1] + Resolve(s[k..])) == s[..k] + Resolve(s[k..]);
    }
  }

  lemma {:induction false} EmptyResolve()
    ensures Resolve([]) == []
  {}

  /**
   * resolve_backslashes on the string from `start` to the 0 at `end`: the result is
   * written over the string, ends with a 0, and nothing outside is touched.  The write
   * index never passes the read index.
   */
  method ResolveBackslashes(z: array<byte>, start: nat, end: nat)
    requires start <= end < z.Length && z[end] == 0
    requires forall k :: start <= k < end ==> z[k] != 0
    modifies z
    ensures var r := Resolve(old(z[start..end]));
            && start + |r| <= end
            && z[start..start + |r|] == r && z[start + |r|] == 0
    ensures forall k :: 0 <= k < z.Length && !(start <= k < end) ==> z[k] == old(z[k])
  {
    hide Resolve;
    var from := start;
    while z[from] != 0 && z[from] != BACKSLASH
      invariant start <= from <= end
      invariant forall k :: start <= k < from ==> z[k] != BACKSLASH
      decreases end - from
    {
      from := from + 1;
    }
    ghost var s := z[start..end];
    ResolvePlain(s, from - start);
    assert s[from - start..] == z[from..end];
    assert s[..from - start] == z[start..from];
    Rewrite(z, from, end);
    assert z[start..from] == s[..from - start];
  }

  /** The rewriting loop, from the first backslash on. */
  method Rewrite(z: array<byte>, from: nat, end: nat)
    requires from <= end < z.Length && z[end] == 0
    requires forall k :: from <= k < end ==> z[k] != 0
    modifies z
    ensures var r := Resolve(old(z[from..end]));
            && from + |r| <= end
            && z[from..from + |r|] == r && z[from + |r|] == 0
    ensures forall k :: 0 <= k < z.Length && !(from <= k < end) ==> z[k] == old(z[k])
  {
    hide Resolve, Next, Sequence;
    ghost var s := z[from..end];
    var i, j := from, from;
    assert [] + Resolve(s) == Resolve(s);
    while z[i] != 0
      invariant from <= j <= i <= end
      invariant z[end] == 0 && z[i..end] == s[i - from..]
      invariant forall k :: i <= k < end ==> z[k] != 0
      invariant forall k :: 0 <= k < z.Length && !(from <= k < end) ==> z[k] == old(z[k])
      invariant z[from..j] + Resolve(s[i - from..]) == Resolve(s)
      decreases end - i
    {
      ghost var rest := s[i - from..];
      ghost var done := z[from..j];
      var c, n := ReadOne(z, i, end);
      ResolveNext(rest);
      assert rest[n..] == s[i + n - from..];
      assert done + ([c] + Resolve(rest[n..])) == done + [c] + Resolve(rest[n..]);
      z[j] := c;
      assert z[from..j + 1] == done + [c];
      i, j := i + n, j + 1;
    }
    EmptyResolve();
    assert s[i - from..] == [];
    if j < i { z[j] := 0; }
  }

  /** The character at `i` with its backslash sequence: its value and its length. */
  method ReadOne(z: array<byte>, i: nat, end: nat) returns (c: byte, n: nat)
    requires i < end < z.Length && z[end] == 0
    requires forall k :: i <= k < end ==> z[k] != 0
    ensures (c, n) == Next(z[i..end]) && 1 <= n <= end - i
  {
    c, n := z[i], 1;
    assert z[i..end][1..] == z[i + 1..end];
    if c == BACKSLASH && z[i + 1] != 0 {
      var sequence := Sequence(z[i + 1..end]);
      c := sequence.0;
      n := 1 + sequence.1;
    }
  }

  // --------------------------------------------------------------- tokenizer

  const MAX_ARGS: nat := 50

  function SkipSpaces(s: Bytes): (r: Bytes)
    ensures |r| <= |s| && (r != [] ==> !IsSpace(r[0]))
  {
    if s == [] || !IsSpace(s[0]) then s else SkipSpaces(s[1..])
  }

  /** How far a quoted token reaches: the closing delimiter, or the end of the line. */
  function QuotedLength(s: Bytes, delim: byte): (k: nat)
    ensures k <= |s| && (k < |s| ==> s[k] == delim)
    decreases |s|
  {
    if s == [] || s[0] == delim then 0
    else if s[0] == BACKSLASH && delim == QUOTE && |s| > 1 then 2 + QuotedLength(s[2..], delim)
    else 1 + QuotedLength(s[1..], delim)
  }

  function WordLength(s: Bytes): (k: nat)
    ensures k <= |s| && (k < |s| ==> IsSpace(s[k])) && (s != [] && !IsSpace(s[0]) ==> k > 0)
  {
    if s == [] || IsSpace(s[0]) then 0 else 1 + WordLength(s[1..])
  }

  /** The first token of a line without leading space: raw bytes, whether escapes are resolved, bytes used. */
  datatype Token = Token(raw: Bytes, resolve: bool, used: nat)

  function FirstToken(s: Bytes): (t: Token)
    requires s != [] && !IsSpace(s[0])
    ensures 0 < t.used <= |s|
  {
    if s[0] == QUOTE || s[0] == APOSTROPHE then
      var k := QuotedLength(s[1..], s[0]);
      Token(s[1..1 + k], s[0] == QUOTE, if 1 + k < |s| then k + 2 else k + 1)
    else
      var k := WordLength(s);
      Token(s[..k], true, if k < |s| then k + 1 else k)
  }

  function Value(t: Token): (v: Bytes)
    ensures |v| <= |t.raw|
  {
    if t.resolve then Resolve(t.raw) else t.raw
  }

  /** The arguments of a line, at most `budget` of them. */
  function Tokens(s: Bytes, budget: nat): (args: seq<Bytes>)
    ensures |args| <= budget
    decreases |s|
  {
    var s1 := SkipSpaces(s);
    if s1 == [] || budget == 0 then []
    else
      var t := FirstToken(s1);
      [Value(t)] + Tokens(s1[t.used..], budget - 1)
  }

  /** `args[k]` is where the value of token `k` starts in the line, ended by a 0. */
  ghost predicate Points(z: seq<byte>, args: seq<nat>, values: seq<Bytes>, limit: nat) {
    && |args| == |values|
    && forall k :: 0 <= k < |args| ==>
         args[k] + |values[k]| < |z| && args[k] + |values[k]| < limit
         && z[args[k]..args[k] + |values[k]|] == values[k] && z[args[k] + |values[k]|] == 0
  }

  lemma {:induction false} TokensEnd(s: Bytes, budget: nat)
    ensures s == [] || budget == 0 ==> Tokens(s, budget) == []
  {}

  lemma {:induction false} SkipIdempotent(s: Bytes)
    ensures SkipSpaces(SkipSpaces(s)) == SkipSpaces(s)
  {}

  lemma {:induction false} TokensStep(s: Bytes, budget: nat)
    ensures Tokens(SkipSpaces(s), budget) == Tokens(s, budget)
    ensures s != [] && !IsSpace(s[0]) && budget > 0 ==>
              Tokens(s, budget) == [Value(FirstToken(s))] + Tokens(s[FirstToken(s).used..], budget - 1)
  {
    SkipIdempotent(s);
  }

  method SkipBlanks(z: array<byte>, start: nat, n: nat) returns (h: nat)
    requires start <= n < z.Length && z[n] == 0
    ensures start <= h <= n && z[h..n] == SkipSpaces(z[start..n])
  {
    h := start;
    while IsSpace(z[h])
      invariant start <= h <= n && SkipSpaces(z[h..n]) == SkipSpaces(z[start..n])
      decreases n - h
    {
      assert z[h..n][1..] == z[h + 1..n];
      h := h + 1;
    }
  }

  lemma {:induction false} QuotedLengthStep(s: Bytes, delim: byte)
    requires s != [] && s[0] != delim
    ensures QuotedLength(s, delim)
         == if s[0] == BACKSLASH && delim == QUOTE && |s| > 1 then 2 + QuotedLength(s[2..], delim)
            else 1 + QuotedLength(s[1..], delim)
  {}

  lemma {:induction false} QuotedLengthEnd(s: Bytes, delim: byte)
    requires s == [] || s[0] == delim
    ensures QuotedLength(s, delim) == 0
  {}

  /** The end of a quoted token that starts at `start`. */
  method ScanToDelim(z: array<byte>, start: nat, n: nat, delim: byte) returns (h: nat)
    requires start <= n < z.Length && z[n] == 0 && delim != 0
    requires forall k :: start <= k < n ==> z[k] != 0
    ensures h == start + QuotedLength(z[start..n], delim)
  {
    hide QuotedLength;
    h := start;
    while z[h] != 0 && z[h] != delim
      invariant start <= h <= n
      invariant h - start + QuotedLength(z[h..n], delim) == QuotedLength(z[start..n], delim)
      decreases n - h
    {
      ghost var s := z[h..n];
      QuotedLengthStep(s, delim);
      if z[h] == BACKSLASH && delim == QUOTE && z[h + 1] != 0 {
        assert s[2..] == z[h + 2..n];
        h := h + 1;
      } else {
        assert s[1..] == z[h + 1..n];
      }
      h := h + 1;
    }
    QuotedLengthEnd(z[h..n], delim);
  }

  method ScanWord(z: array<byte>, start: nat, n: nat) returns (h: nat)
    requires start <= n < z.Length && z[n] == 0
    requires forall k :: start <= k < n ==> z[k] != 0
    ensures h == start + WordLength(z[start..n])
  {
    h := start;
    while z[h] != 0 && !IsSpace(z[h])
      invariant start <= h <= n
      invariant h - start + WordLength(z[h..n]) == WordLength(z[start..n])
      decreases n - h
    {
      assert z[h..n][1..] == z[h + 1..n];
      h := h + 1;
    }
  }

  /** A token from `at` to its delimiter at `end` is cut off by a 0, and resolved where it stands. */
  method CutToken(z: array<byte>, at: nat, end: nat, n: nat, resolve: bool) returns (h: nat)
    requires at <= end <= n < z.Length && z[n] == 0
    requires forall k :: at <= k < end ==> z[k] != 0
    modifies z
    ensures h == if end < n then end + 1 else end
    ensures var raw := old(z[at..end]);
            var v := if resolve then Resolve(raw) else raw;
            at + |v| <= end && z[at..at + |v|] == v && z[at + |v|] == 0
    ensures z[n] == 0
    ensures forall k :: 0 <= k < z.Length && (k < at || end < k) ==> z[k] == old(z[k])
  {
    hide Resolve;
    h := end;
    if end < n {
      z[h] := 0;
      h := h + 1;
    }
    assert z[at..end] == old(z[at..end]);
    if resolve { ResolveBackslashes(z, at, end); }
  }

  lemma {:induction false} FirstQuoted(line: Bytes, k: nat)
    requires line != [] && (line[0] == QUOTE || line[0] == APOSTROPHE) && k == QuotedLength(line[1..], line[0])
    ensures 1 + k <= |line|
    ensures FirstToken(line) == Token(line[1..1 + k], line[0] == QUOTE, if 1 + k < |line| then k + 2 else k + 1)
  {
    hide QuotedLength;
  }

  lemma {:induction false} FirstWord(line: Bytes)
    requires line != [] && !IsSpace(line[0]) && line[0] != QUOTE && line[0] != APOSTROPHE
    ensures var k := WordLength(line);
            k <= |line| && FirstToken(line) == Token(line[..k], true, if k < |line| then k + 1 else k)
  {
    hide WordLength;
  }

  /** One token of the line, which starts at `start`. */
  method TakeToken(z: array<byte>, start: nat, n: nat) returns (at: nat, h: nat)
    requires start < n < z.Length && z[n] == 0 && !IsSpace(z[start])
    requires forall k :: start <= k < n ==> z[k] != 0
    modifies z
    ensures h == start + FirstToken(old(z[start..n])).used <= n
    ensures var v := Value(FirstToken(old(z[start..n])));
            && start <= at && at + |v| < (if h == n then n + 1 else h)
            && z[at..at + |v|] == v && z[at + |v|] == 0
    ensures z[n] == 0
    ensures forall k :: 0 <= k < z.Length && (k < start || h <= k) && k != n ==> z[k] == old(z[k])
  {
    hide Resolve, QuotedLength, WordLength, FirstToken;
    if z[start] == APOSTROPHE || z[start] == QUOTE {
      at, h := TakeQuoted(z, start, n);
    } else {
      at := start;
      var end := ScanWord(z, at, n);
      FirstWord(z[start..n]);
      assert z[at..end] == z[start..n][..end - start];
      h := CutToken(z, at, end, n, true);
    }
  }

  method TakeQuoted(z: array<byte>, start: nat, n: nat) returns (at: nat, h: nat)
    requires start < n < z.Length && z[n] == 0 && (z[start] == APOSTROPHE || z[start] == QUOTE)
    requires forall k :: start <= k < n ==> z[k] != 0
    modifies z
    ensures h == start + FirstToken(old(z[start..n])).used <= n
    ensures var v := Value(FirstToken(old(z[start..n])));
            && start <= at && at + |v| < (if h == n then n + 1 else h)
            && z[at..at + |v|] == v && z[at + |v|] == 0
    ensures z[n] == 0
    ensures forall k :: 0 <= k < z.Length && (k < start || h <= k) && k != n ==> z[k] == old(z[k])
  {
    hide Resolve, QuotedLength, WordLength, FirstToken;
    var delim := z[start];
    at := start + 1;
    ghost var line := z[start..n];
    assert line[0] == delim && line[1..] == z[at..n];
    var end := ScanToDelim(z, at, n, delim);
    FirstQuoted(line, end - at);
    assert z[at..end] == line[1..1 + (end - at)];
    h := CutToken(z, at, end, n, delim == QUOTE);
  }

  /** One token, with the arguments found before it. */
  method TakeArgument(z: array<byte>, start: nat, n: nat, ghost args: seq<nat>, ghost values: seq<Bytes>)
    returns (at: nat, h: nat)
    requires start < n < z.Length && z[n] == 0 && !IsSpace(z[start])
    requires forall k :: start <= k < n ==> z[k] != 0
    requires Points(z[..], args, values, start)
    modifies z
    ensures z[n] == 0 && start < h <= n && forall k :: h <= k < n ==> z[k] != 0
    ensures var line := old(z[start..n]);
      z[h..n] == line[FirstToken(line).used..]
      && Points(z[..], args + [at], values + [Value(FirstToken(line))], if h == n then n + 1 else h)
  {
    hide FirstToken, Value, Points;
    ghost var before, line := z[..], z[start..n];
    at, h := TakeToken(z, start, n);
    ghost var t := FirstToken(line);
    assert forall k :: 0 <= k < start ==> z[..][k] == before[k];
    PointsKept(before, z[..], args, values, start);
    PointsNext(z[..], args, values, start, at, Value(t), if h == n then n + 1 else h);
    assert forall k :: h <= k < n ==> z[k] == before[k];
  }

  /**
   * The tokenizer on the line z[start..n], with z[n] the terminating 0.  The arguments
   * are left in the line itself, as C strings.
   */
  method Tokenize(z: array<byte>, start: nat, n: nat) returns (azArg: seq<nat>)
    requires start <= n < z.Length && z[n] == 0
    requires forall k :: start <= k < n ==> z[k] != 0
    modifies z
    ensures Points(z[..], azArg, Tokens(old(z[start..n]), MAX_ARGS), n + 1)
  {
    hide Tokens, FirstToken, Value, Points;
    PointsEmpty(z[..], if start == n then n + 1 else start);
    var h := start;
    azArg := [];
    ghost var whole := Tokens(z[start..n], MAX_ARGS);
    ghost var values: seq<Bytes> := [];
    assert [] + whole == whole;
    while z[h] != 0 && |azArg| < MAX_ARGS
      invariant start <= h <= n && z[n] == 0 && |azArg| <= MAX_ARGS
      invariant forall k :: h <= k < n ==> z[k] != 0
      invariant Points(z[..], azArg, values, if h == n then n + 1 else h)
      invariant values + Tokens(z[h..n], MAX_ARGS - |azArg|) == whole
      decreases n - h
    {
      TokensStep(z[h..n], MAX_ARGS - |azArg|);
      ghost var limit := h;
      h := SkipBlanks(z, h, n);
      PointsWiden(z[..], azArg, values, limit, h);
      if z[h] == 0 { break; }
      ghost var line, t := z[h..n], FirstToken(z[h..n]);
      TokensStep(line, MAX_ARGS - |azArg|);
      var at;
      at, h := TakeArgument(z, h, n, azArg, values);
      azArg := azArg + [at];
      NextValue(values, Value(t), Tokens(z[h..n], MAX_ARGS - |azArg|));
      values := values + [Value(t)];
    }
    TokensEnd(z[h..n], MAX_ARGS - |azArg|);
    assert values + [] == values;
    PointsWiden(z[..], azArg, values, if h == n then n + 1 else h, n + 1);
  }

  lemma {:induction false} PointsEmpty(z: seq<byte>, limit: nat)
    ensures Points(z, [], [], limit)
  {}

  lemma {:induction false} PointsWiden(z: seq<byte>, args: seq<nat>, values: seq<Bytes>, limit: nat, wider: nat)
    requires Points(z, args, values, limit) && limit <= wider
    ensures Points(z, args, values, wider)
  {}

  lemma {:induction false} PointsNext(z: seq<byte>, args: seq<nat>, values: seq<Bytes>, limit: nat, at: nat, v: Bytes, wider: nat)
    requires Points(z, args, values, limit) && limit <= wider
    requires at + |v| < |z| && at + |v| < wider && z[at..at + |v|] == v && z[at + |v|] == 0
    ensures Points(z, args + [at], values + [v], wider)
  {}

  lemma {:induction false} NextValue(values: seq<Bytes>, v: Bytes, more: seq<Bytes>)
    ensures values + ([v] + more) == values + [v] + more
  {}

  /** Earlier arguments stay where they are when only later bytes change. */
  lemma {:induction false} PointsKept(z: seq<byte>, z': seq<byte>, args: seq<nat>, values: seq<Bytes>, limit: nat)
    requires |z| == |z'| && Points(z, args, values, limit)
    requires forall k :: 0 <= k < limit && k < |z| ==> z'[k] == z[k]
    ensures Points(z', args, values, limit)
  {}

  // -------------------------------------------------------------- round trip

  /** A dot command with quoted arguments. */
  function Line(args: seq<Bytes>): (s: Bytes) {
    if args == [] then [] else [SPACE] + ([QUOTE] + Escaped(args[0]) + [QUOTE]) + Line(args[1..])
  }

  lemma {:induction false} QuotedEscape(c: byte, rest: Bytes)
    requires rest != []
    ensures QuotedLength(Escape(c) + rest, QUOTE) == |Escape(c)| + QuotedLength(rest, QUOTE)
  {
    hide QuotedLength;
    var e := Escape(c);
    var s := e + rest;
    EscapeShape(c);
    hide Escape;
    QuotedLengthStep(s, QUOTE);
    if |e| == 1 {
      assert s[1..] == rest;
    } else if |e| == 2 {
      assert s[2..] == rest;
    } else {
      var t := s[2..];
      QuotedLengthStep(t, QUOTE);
      assert t[1..] == s[3..] && s[3..][1..] == rest;
      QuotedLengthStep(s[3..], QUOTE);
    }
  }

  /** An escape is a plain character, or a backslash with a character or three digits behind it. */
  lemma {:induction false} EscapeShape(c: byte)
    ensures var e := Escape(c);
      && (|e| == 1 ==> e[0] != BACKSLASH && e[0] != QUOTE)
      && (|e| > 1 ==> e[0] == BACKSLASH)
      && (|e| > 2 ==> |e| == 4 && IsOctal(e[1]) && IsOctal(e[2]) && IsOctal(e[3]))
  {
    OctalDigits(c);
  }

  /** The writer's text has no bare quote: the tokenizer stops at the closing one. */
  lemma {:induction false} QuotedEscaped(z: Bytes, tail: Bytes)
    requires tail != [] && tail[0] == QUOTE
    ensures QuotedLength(Escaped(z) + tail, QUOTE) == |Escaped(z)|
  {
    hide Escape;
    if z == [] {
      assert Escaped(z) + tail == tail;
    } else {
      var more := Escaped(z[1..]) + tail;
      assert Escaped(z) + tail == Escape(z[0]) + more;
      QuotedEscape(z[0], more);
      QuotedEscaped(z[1..], tail);
    }
  }

  lemma {:induction false} QuotedToken(z: Bytes, rest: Bytes)
    ensures var s := [QUOTE] + Escaped(z) + [QUOTE] + rest;
            && !IsSpace(s[0])
            && Value(FirstToken(s)) == z
            && s[FirstToken(s).used..] == rest
  {
    hide Escaped, Resolve;
    var s := [QUOTE] + Escaped(z) + [QUOTE] + rest;
    var tail := Escaped(z) + ([QUOTE] + rest);
    assert s[1..] == tail;
    QuotedEscaped(z, [QUOTE] + rest);
    var k := |Escaped(z)|;
    assert s[1..1 + k] == Escaped(z);
    ResolveEscaped(z, []);
    assert Escaped(z) + [] == Escaped(z);
    EmptyResolve();
    assert z + [] == z;
  }

  /** Tokenizing quoted arguments gives the arguments, up to the size of azArg. */
  lemma {:induction false} LineRoundTrip(args: seq<Bytes>, budget: nat)
    requires |args| <= budget
    ensures Tokens(Line(args), budget) == args
  {
    hide FirstToken, Value, Escaped;
    if args == [] {
      TokensEnd([], budget);
    } else {
      var rest := Line(args[1..]);
      var s := [QUOTE] + Escaped(args[0]) + [QUOTE] + rest;
      assert Line(args) == [SPACE] + s;
      assert ([SPACE] + s)[1..] == s;
      QuotedToken(args[0], rest);
      LineRoundTrip(args[1..], budget - 1);
      assert SkipSpaces(Line(args)) == SkipSpaces(s) == s;
    }
  }

  /** An argument as it may be typed: with escapes in quotes, as it is in apostrophes, or bare. */
  datatype Typed = Escapes(z: Bytes) | Literal(z: Bytes) | Word(z: Bytes)

  predicate CanType(t: Typed) {
    match t
    case Escapes(_) => true
    case Literal(z) => APOSTROPHE !in z
    case Word(z) =>
      && z != [] && z[0] != QUOTE && z[0] != APOSTROPHE && BACKSLASH !in z
      && forall k :: 0 <= k < |z| ==> !IsSpace(z[k])
  }

  function TypedText(t: Typed): (s: Bytes) {
    match t
    case Escapes(z) => [QUOTE] + Escaped(z) + [QUOTE]
    case Literal(z) => [APOSTROPHE] + z + [APOSTROPHE]
    case Word(z) => z
  }

  function TypedLine(ts: seq<Typed>): (s: Bytes) {
    if ts == [] then [] else [SPACE] + TypedText(ts[0]) + TypedLine(ts[1..])
  }

  function Meant(ts: seq<Typed>, budget: nat): (args: seq<Bytes>) {
    if ts == [] || budget == 0 then [] else [ts[0].z] + Meant(ts[1..], budget - 1)
  }

  lemma {:induction false} LiteralLength(z: Bytes, tail: Bytes)
    requires APOSTROPHE !in z && tail != [] && tail[0] == APOSTROPHE
    ensures QuotedLength(z + tail, APOSTROPHE) == |z|
  {
    if z == [] {
      assert z + tail == tail;
    } else {
      assert (z + tail)[1..] == z[1..] + tail;
      LiteralLength(z[1..], tail);
    }
  }

  lemma {:induction false} WordEnds(z: Bytes, tail: Bytes)
    requires (forall k :: 0 <= k < |z| ==> !IsSpace(z[k])) && (tail == [] || IsSpace(tail[0]))
    ensures WordLength(z + tail) == |z|
  {
    if z == [] {
      assert z + tail == tail;
    } else {
      assert (z + tail)[1..] == z[1..] + tail;
      WordEnds(z[1..], tail);
    }
  }

  lemma {:induction false} PlainResolved(z: Bytes)
    requires BACKSLASH !in z
    ensures Resolve(z) == z
  {
    if z != [] { PlainResolved(z[1..]); }
  }

  /** The first token of a typed argument and what comes behind it, up to one blank. */
  lemma {:induction false} TypedToken(t: Typed, rest: Bytes)
    requires CanType(t) && (rest == [] || rest[0] == SPACE)
    ensures var s := TypedText(t) + rest;
            && s != [] && !IsSpace(s[0]) && Value(FirstToken(s)) == t.z
            && (s[FirstToken(s).used..] == rest || (rest != [] && s[FirstToken(s).used..] == rest[1..]))
  {
    match t
    case Escapes(z) => QuotedToken(z, rest);
    case Literal(z) => LiteralToken(z, rest);
    case Word(z) => WordToken(z, rest);
  }

  lemma {:induction false} LiteralToken(z: Bytes, rest: Bytes)
    requires APOSTROPHE !in z
    ensures var s := [APOSTROPHE] + z + [APOSTROPHE] + rest;
            !IsSpace(s[0]) && Value(FirstToken(s)) == z && s[FirstToken(s).used..] == rest
  {
    var s := [APOSTROPHE] + z + [APOSTROPHE] + rest;
    var tail := [APOSTROPHE] + rest;
    LiteralLength(z, tail);
    assert s[1..] == z + tail && s[1..1 + |z|] == z && s[|z| + 2..] == rest;
    hide Resolve, QuotedLength;
  }

  lemma {:induction false} WordToken(z: Bytes, rest: Bytes)
    requires CanType(Word(z)) && (rest == [] || rest[0] == SPACE)
    ensures var s := z + rest;
            && s != [] && !IsSpace(s[0]) && Value(FirstToken(s)) == z
            && (s[FirstToken(s).used..] == rest || (rest != [] && s[FirstToken(s).used..] == rest[1..]))
  {
    var s := z + rest;
    WordEnds(z, rest);
    PlainResolved(z);
    hide Resolve, WordLength, QuotedLength;
    assert s[0] == z[0] && s[..|z|] == z;
    assert rest == [] ==> s[|z|..] == rest;
    assert rest != [] ==> s[|z| + 1..] == rest[1..];
  }

  /** A typed line gives the arguments that were meant, up to the size of azArg. */
  lemma {:induction false} TypedRoundTrip(ts: seq<Typed>, budget: nat)
    requires forall k :: 0 <= k < |ts| ==> CanType(ts[k])
    ensures Tokens(TypedLine(ts), budget) == Meant(ts, budget)
    decreases |ts|
  {
    hide FirstToken, Value, TypedText, Tokens, SkipSpaces, CanType;
    if ts == [] || budget == 0 {
      TokensEnd(TypedLine(ts), budget);
    } else {
      var rest := TypedLine(ts[1..]);
      var s := TypedText(ts[0]) + rest;
      assert TypedLine(ts) == [SPACE] + s;
      assert CanType(ts[0]);
      TypedToken(ts[0], rest);
      TypedRoundTrip(ts[1..], budget - 1);
      BlankFirst(s, budget);
      TokensStep(s, budget);
      if rest != [] {
        assert rest == [SPACE] + rest[1..];
        BlankFirst(rest[1..], budget - 1);
      }
    }
  }

  lemma {:induction false} BlankFirst(s: Bytes, budget: nat)
    ensures Tokens([SPACE] + s, budget) == Tokens(s, budget)
  {
    var t := [SPACE] + s;
    assert t[1..] == s;
    assert SkipSpaces(t) == SkipSpaces(s);
    TokensStep(t, budget);
    TokensStep(s, budget);
  }

  /**
   * The arguments of a dot command written with output_c_string are found again in the
   * tokenized line, byte for byte and each ended by a 0.
   */
  method QuoteAndTokenize(args: seq<Bytes>) returns (line: array<byte>, azArg: seq<nat>)
    requires |args| <= 50
    requires forall k :: 0 <= k < |args| ==> 0 !in args[k]
    ensures |azArg| == |args|
    ensures forall k :: 0 <= k < |args| ==>
              azArg[k] + |args[k]| < line.Length
              && line[azArg[k]..azArg[k] + |args[k]|] == args[k] && line[azArg[k] + |args[k]|] == 0
  {
    hide Tokens, Escaped, Points, Line;
    var text := WriteLine(args);
    LineRoundTrip(args, MAX_ARGS);
    var whole := [46] + text + [0];
    line := new byte[|whole|](i requires 0 <= i < |whole| => whole[i]);
    assert line[1..|whole| - 1] == text;
    azArg := Tokenize(line, 1, |whole| - 1);
    PointsInto(line[..], azArg, args, |whole|);
    forall i | 0 <= i < |args|
      ensures azArg[i] + |args[i]| < line.Length && line[azArg[i]..azArg[i] + |args[i]|] == args[i]
    {
      assert line[..][azArg[i]..azArg[i] + |args[i]|] == line[azArg[i]..azArg[i] + |args[i]|];
    }
  }

  /** The quoted arguments, each behind a blank. */
  method WriteLine(args: seq<Bytes>) returns (text: Bytes)
    requires forall k :: 0 <= k < |args| ==> 0 !in args[k]
    ensures text == Line(args) && 0 !in text
  {
    hide Escaped, Line;
    text := [];
    var k := 0;
    assert args[0..] == args;
    while k < |args|
      invariant 0 <= k <= |args|
      invariant text + Line(args[k..]) == Line(args)
      invariant 0 !in text
    {
      var quoted := OutputCString(args[k]);
      EscapedHasNoZero(args[k]);
      LineNext(args, k, text);
      text := text + [SPACE] + quoted;
      k := k + 1;
    }
    LineEnd(args, text);
  }

  lemma {:induction false} LineNext(args: seq<Bytes>, k: nat, before: Bytes)
    requires k < |args|
    ensures before + Line(args[k..]) == before + [SPACE] + ([QUOTE] + Escaped(args[k]) + [QUOTE]) + Line(args[k + 1..])
  {
    hide Escaped;
    assert args[k..][1..] == args[k + 1..];
    var quoted := [QUOTE] + Escaped(args[k]) + [QUOTE];
    assert before + ([SPACE] + quoted + Line(args[k + 1..])) == before + [SPACE] + quoted + Line(args[k + 1..]);
  }

  lemma {:induction false} LineEnd(args: seq<Bytes>, text: Bytes)
    ensures text + Line(args[|args|..]) == text
  {}

  lemma {:induction false} PointsInto(z: seq<byte>, args: seq<nat>, values: seq<Bytes>, limit: nat)
    requires Points(z, args, values, limit)
    ensures |args| == |values|
    ensures forall k :: 0 <= k < |args| ==>
              args[k] + |values[k]| < |z| && z[args[k]..args[k] + |values[k]|] == values[k]
              && z[args[k] + |values[k]|] == 0
  {}

  lemma {:induction false} EscapedHasNoZero(z: Bytes)
    requires 0 !in z
    ensures 0 !in Escaped(z)
  {
    if z != [] {
      assert 0 !in Escape(z[0]);
      EscapedHasNoZero(z[1..]);
    }
  }
}

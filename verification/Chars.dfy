/**
 * Character classes and searches of the C library, on texts of one-byte characters.
 */
module Chars {
  import opened Inet

  predicate IsSpace(c: char) {
    c == ' ' || '\t' <= c <= '\r'
  }

  predicate IsDigit(c: char) {
    '0' <= c <= '9'
  }

  predicate IsHex(c: char) {
    '0' <= c <= '9' || 'a' <= c <= 'f' || 'A' <= c <= 'F'
  }

  function HexOf(c: char): (v: nat)
    requires IsHex(c)
    ensures v < 16
  {
    if c <= '9' then c as int - '0' as int
    else if c <= 'F' then c as int - 'A' as int + 10
    else c as int - 'a' as int + 10
  }

  function Lower(s: string): (r: string)
    ensures |r| == |s|
  {
    seq(|s|, i requires 0 <= i < |s| => ToLower(s[i]))
  }

  /** String::equals against a non-empty literal: ignores case. */
  predicate EqualsIgnoreCase(s: string, t: string) {
    Lower(s) == Lower(t)
  }

  /** strstr(s, "\r\n"), or |s| when there is none. */
  function FindCrlf(s: string): (k: nat)
    ensures k <= |s|
    ensures k < |s| ==> k + 2 <= |s| && s[k] == '\r' && s[k + 1] == '\n'
    ensures forall j :: 0 <= j < k && j + 1 < |s| ==> !(s[j] == '\r' && s[j + 1] == '\n')
  {
    if |s| < 2 then |s|
    else if s[0] == '\r' && s[1] == '\n' then 0
    else
      var k := 1 + FindCrlf(s[1..]);
      assert forall j :: 0 <= j < k && j + 1 < |s| ==> !(s[j] == '\r' && s[j + 1] == '\n') by {
        forall j | 0 < j < k && j + 1 < |s| ensures !(s[j] == '\r' && s[j + 1] == '\n') {
          assert s[j] == s[1..][j - 1] && s[j + 1] == s[1..][j];
        }
      }
      k
  }

  lemma {:induction false} FindCrlfStable(s: string, q: string)
    ensures FindCrlf(s) < |s| ==> FindCrlf(s + q) == FindCrlf(s)
  {
    if FindCrlf(s) < |s| && !(s[0] == '\r' && s[1] == '\n') {
      assert (s + q)[1..] == s[1..] + q;
      FindCrlfStable(s[1..], q);
    }
  }

  lemma {:induction false} CrlfAt(s: string, t: string)
    requires '\r' !in s
    ensures FindCrlf(s + "\r\n" + t) == |s|
  {
    if s != "" {
      assert (s + "\r\n" + t)[1..] == s[1..] + "\r\n" + t;
      assert (s + "\r\n" + t)[0] == s[0] != '\r';
      CrlfAt(s[1..], t);
    }
  }

  const LOWER_DIGITS := "0123456789abcdef"
  const UPPER_DIGITS := "0123456789ABCDEF"

  /** `c` is a hexadecimal digit of value `v`, in either case. */
  predicate HexDigitOf(c: char, v: nat)
    requires v < 16
  {
    c == LOWER_DIGITS[v] || c == UPPER_DIGITS[v]
  }

  /** The digits and their values, as they are printed. */
  lemma {:induction false} HexOfExact(c: char, v: nat)
    requires v < 16
    ensures HexDigitOf(c, v) <==> IsHex(c) && HexOf(c) == v
  {
    LowerDigits(v);
    UpperDigits(v);
  }

  lemma {:induction false} LowerDigits(v: nat)
    requires v < 16
    ensures LOWER_DIGITS[v] == if v < 10 then ('0' as int + v) as char else ('a' as int + v - 10) as char
  {}

  lemma {:induction false} UpperDigits(v: nat)
    requires v < 16
    ensures UPPER_DIGITS[v] == if v < 10 then ('0' as int + v) as char else ('A' as int + v - 10) as char
  {}

  /** The lower-case digits are those printf writes. */
  lemma {:induction false} DigitCharLower(v: nat)
    requires v < 16
    ensures DigitChar(v) == LOWER_DIGITS[v]
  {
    LowerDigits(v);
  }

  /** `s` is n in hexadecimal digits of either case, with any number of leading zeros. */
  ghost predicate SpellsHex(s: string, n: nat) {
    s != "" && HexDigitOf(s[|s| - 1], n % 16)
    && if |s| == 1 then n < 16 else SpellsHex(s[..|s| - 1], n / 16)
  }

  /** `s` is n in decimal digits, with any number of leading zeros. */
  ghost predicate SpellsDec(s: string, n: nat) {
    s != "" && s[|s| - 1] == LOWER_DIGITS[n % 10]
    && if |s| == 1 then n < 10 else SpellsDec(s[..|s| - 1], n / 10)
  }

  /** printf "%x": lower case and no leading zero. */
  lemma {:induction false} HexSpells(n: nat)
    ensures SpellsHex(Hex(n), n) && (n > 0 ==> Hex(n)[0] != '0')
    ensures forall i :: 0 <= i < |Hex(n)| ==> IsHexDigit(Hex(n)[i])
  {
    DigitCharLower(n % 16);
    DigitCharIsHex(n % 16);
    if n >= 16 {
      HexSpells(n / 16);
      assert Hex(n)[..|Hex(n)| - 1] == Hex(n / 16);
    } else if n > 0 {
      assert Hex(n)[0] == DigitChar(n);
    }
  }

  /** printf "%u": no leading zero. */
  lemma {:induction false} DecSpells(n: nat)
    ensures SpellsDec(Dec(n), n) && (n > 0 ==> Dec(n)[0] != '0')
  {
    DigitCharLower(n % 10);
    if n >= 10 {
      DecSpells(n / 10);
      assert Dec(n)[..|Dec(n)| - 1] == Dec(n / 10);
    } else if n > 0 {
      assert Dec(n)[0] == DigitChar(n);
    }
  }

  const UPPER_LETTERS := "ABCDEFGHIJKLMNOPQRSTUVWXYZ"
  const LOWER_LETTERS := "abcdefghijklmnopqrstuvwxyz"

  /** Case is folded letter by letter, and nothing else changes. */
  lemma {:induction false} CaseFolded(c: char)
    ensures forall i :: 0 <= i < 26 && c == UPPER_LETTERS[i] ==> ToLower(c) == LOWER_LETTERS[i]
    ensures c !in UPPER_LETTERS ==> ToLower(c) == c
  {
    if 'A' <= c <= 'Z' {
      var k := c as int - 'A' as int;
      UpperLetter(k);
      LowerLetter(k);
      assert c == UPPER_LETTERS[k];
    }
    forall i | 0 <= i < 26 && c == UPPER_LETTERS[i] ensures ToLower(c) == LOWER_LETTERS[i] {
      UpperLetter(i);
      LowerLetter(i);
    }
  }

  lemma {:induction false} UpperLetter(k: nat)
    requires k < 26
    ensures UPPER_LETTERS[k] == ('A' as int + k) as char
  {}

  lemma {:induction false} LowerLetter(k: nat)
    requires k < 26
    ensures LOWER_LETTERS[k] == ('a' as int + k) as char
  {}
}

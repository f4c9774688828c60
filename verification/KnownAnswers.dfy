/**
 * Texts as the standards and the C language have them, for the codecs whose round trips
 * would also hold with another alphabet.
 */
module KnownAnswers {
  import opened Common
  import Base64
  import CString
  import Csv
  import Chunked
  import Range

  // ------------------------------------------------------------------ Base64

  /** Table 1 of RFC 4648, with the padding character. */
  lemma {:induction false} Base64Table(v: Base64.sextet)
    ensures Base64.Letter(v) == "ABCDEFGHIJKLMNOPQRSTUVWXYZabcdefghijklmnopqrstuvwxyz0123456789+/"[v]
  {
    Base64.AlphabetLetters(v);
    assert Base64.ALPHABET == "ABCDEFGHIJKLMNOPQRSTUVWXYZabcdefghijklmnopqrstuvwxyz0123456789+/" + "=";
  }

  lemma {:induction false} FewLetters()
    ensures Base64.Letter(25) == 'Z' && Base64.Letter(38) == 'm' && Base64.Letter(61) == '9'
    ensures Base64.Letter(47) == 'v' && Base64.Letter(24) == 'Y' && Base64.Letter(5) == 'F' && Base64.Letter(50) == 'y'
    ensures Base64.Letter(32) == 'g' && Base64.Letter(60) == '8' && Base64.Letter(4) == 'E'
  {}

  /** Section 10 of RFC 4648: the beginnings of "foobar". */
  lemma {:induction false} Base64Vectors()
    ensures Base64.Encode([]) == ""
    ensures Base64.Encode([102]) == "Zg==" && Base64.Encode([102, 111]) == "Zm8="
    ensures Base64.Encode([102, 111, 111]) == "Zm9v" && Base64.Encode([102, 111, 111, 98]) == "Zm9vYg=="
    ensures Base64.Encode([102, 111, 111, 98, 97]) == "Zm9vYmE="
    ensures Base64.Encode([102, 111, 111, 98, 97, 114]) == "Zm9vYmFy"
  {
    FewLetters();
    hide Base64.Letter;
    var m: seq<byte> := [102, 111, 111];
    assert (m + [98])[3..] == [98] && (m + [98, 97])[3..] == [98, 97] && (m + [98, 97, 114])[3..] == [98, 97, 114];
    assert m + [98] == [102, 111, 111, 98] && m + [98, 97] == [102, 111, 111, 98, 97];
    assert m + [98, 97, 114] == [102, 111, 111, 98, 97, 114];
    var t: seq<byte> := [98, 97, 114];
    assert m[3..] == [] && t[3..] == [];
    assert Base64.Encode(t) == "YmFy" + "";
  }

  // ----------------------------------------------------------- C and CSV texts

  /** The escapes of the C language that the writer uses; everything else printable is written as it is. */
  lemma {:induction false} CEscapes(c: byte) returns (x: byte, y: byte, z: byte)
    ensures CString.Escape('\t' as byte) == ['\\' as byte, 't' as byte]
    ensures CString.Escape('\n' as byte) == ['\\' as byte, 'n' as byte]
    ensures CString.Escape('\r' as byte) == ['\\' as byte, 'r' as byte]
    ensures CString.Escape('"' as byte) == ['\\' as byte, '"' as byte]
    ensures CString.Escape('\\' as byte) == ['\\' as byte, '\\' as byte]
    ensures ' ' as int <= c <= '~' as int && c != '"' as int && c != '\\' as int ==> CString.Escape(c) == [c]
    ensures c > '~' as int || (c < ' ' as int && c != '\t' as int && c != '\n' as int && c != '\r' as int) ==>
              x < 4 && y < 8 && z < 8 && c == 64 * (x as int) + 8 * (y as int) + z
              && CString.Escape(c) == ['\\' as byte, '0' as byte + x, '0' as byte + y, '0' as byte + z]
  {
    x, y, z := c / 64, c / 8 % 8, c % 8;
  }

  /** What the letters behind a backslash are read as. */
  lemma {:induction false} CSequences()
    ensures CString.Sequence(['a' as byte]) == (7, 1) && CString.Sequence(['b' as byte]) == (8, 1)
    ensures CString.Sequence(['t' as byte]) == ('\t' as byte, 1) && CString.Sequence(['n' as byte]) == ('\n' as byte, 1)
    ensures CString.Sequence(['v' as byte]) == (11, 1) && CString.Sequence(['f' as byte]) == (12, 1)
    ensures CString.Sequence(['r' as byte]) == ('\r' as byte, 1) && CString.Sequence(['"' as byte]) == ('"' as byte, 1)
    ensures CString.Sequence(['0' as byte, '0' as byte, '7' as byte]) == (7, 3)
    ensures CString.Sequence(['1' as byte, '0' as byte, '1' as byte]) == ('A' as byte, 3)
    ensures CString.Sequence(['7' as byte, 'x' as byte]) == (7, 1)
  {}

  /** Which fields are written bare: some printable bytes, none of them a quote, an apostrophe or the separator. */
  lemma {:induction false} CsvBare(z: seq<byte>, sep: byte)
    ensures Csv.FieldText(z, sep) == z <==>
              z != [] && forall k :: 0 <= k < |z| ==>
                '!' as int <= z[k] <= '~' as int && z[k] != '"' as int && z[k] != '\'' as int && z[k] != sep
    ensures Csv.FieldText(z, sep) != z ==> |Csv.FieldText(z, sep)| >= |z| + 2 && Csv.FieldText(z, sep)[0] == '"' as int
  {
    DoubledLength(z);
    hide Csv.Doubled;
  }

  lemma {:induction false} DoubledLength(z: seq<byte>)
    ensures |Csv.Doubled(z)| >= |z|
  {
    if z != [] { DoubledLength(z[1..]); }
  }

  /** A quote inside is doubled. */
  lemma {:induction false} CsvQuote()
    ensures Csv.FieldText(['a' as byte, '"' as byte, 'b' as byte], ',' as byte)
         == ['"' as byte, 'a' as byte, '"' as byte, '"' as byte, 'b' as byte, '"' as byte]
  {
    var z: seq<byte> := ['a' as byte, '"' as byte, 'b' as byte];
    var y, x: seq<byte> := z[1..], z[2..];
    assert y[1..] == x && x[1..] == [];
    assert Csv.Doubled(x) == ['b' as byte] + [];
    assert Csv.Doubled(y) == ['"' as byte, '"' as byte] + Csv.Doubled(x);
    assert Csv.Doubled(z) == ['a' as byte] + Csv.Doubled(y);
    assert Csv.NeedCsvQuote(z[1]);
    assert !Csv.Bare(z, ',' as byte);
  }

  /** A line feed ends a row, and a carriage return before it belongs to the line end. */
  lemma {:induction false} CsvLineEnds()
    ensures Csv.ReadField(['a' as byte, '\n' as byte], ',' as byte, '\n' as byte)
         == Csv.Field(Some(['a' as byte]), '\n' as int, [])
    ensures Csv.ReadField(['a' as byte, '\r' as byte, '\n' as byte], ',' as byte, '\n' as byte)
         == Csv.Field(Some(['a' as byte]), '\n' as int, [])
  {
    var s, t: seq<byte> := ['a' as byte, '\n' as byte], ['a' as byte, '\r' as byte, '\n' as byte];
    assert s[1..] == ['\n' as byte] && s[1..][1..] == [];
    assert t[1..][1..] == ['\n' as byte] && t[1..][1..][1..] == [];
    var z: seq<byte> := ['a' as byte];
    assert [] + [s[0]] == z && [] + [t[0]] == z && (z + [t[1]])[..1] == z;
    assert Csv.ScanBare(s[1..], z, ',' as int, '\n' as int) == Csv.Field(Some(z), '\n' as int, []);
    assert Csv.ScanBare(t[1..], z, ',' as int, '\n' as int) == Csv.ScanBare(t[1..][1..], z + [t[1]], ',' as int, '\n' as int);
    assert Csv.ScanBare(t[1..][1..], z + [t[1]], ',' as int, '\n' as int) == Csv.Field(Some(z), '\n' as int, []);
  }

  // ------------------------------------------------------------------ numbers

  /** The subject sequence of strtol with base 16 and of atoll (sections 7.22.1.2 and 7.22.1.4 of ISO C). */
  lemma {:induction false} NumberForms()
    ensures Chunked.Strtol16("1f") == 31 && Chunked.Strtol16("-1f") == -31 && Chunked.Strtol16("+1f") == 31
    ensures Chunked.Strtol16("0x1f") == 31 && Chunked.Strtol16("0X1f") == 31 && Chunked.Strtol16("0xg") == 0
    ensures Chunked.Strtol16("\t\r\n 1f") == 31 && Chunked.Strtol16("g") == 0
    ensures Range.Atoll("19") == 19 && Range.Atoll("-19") == -19 && Range.Atoll("+19") == 19 && Range.Atoll(" 19") == 19
  {
    assert Chunked.HexDigits("f", 1) == 31 && "1f"[1..] == "f" && "f"[1..] == "";
    assert Chunked.HexDigits("1f", 0) == 31;
  }
}
